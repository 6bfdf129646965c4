/** What the wire format does to the dashboard: the field latency_ms is omitted when zero
    (dnstap-processor/internal/buffer/buffer.go), stored as null, and null is neither a cache hit
    nor part of an average (admin-ui/app/services/rollups.py). */
module LatencyLoss {
  import opened Prelude
  import EventBuffer
  import Ingest
  import Rollups
  import RollupProofs

  /** The row of a posted event as the rollup queries see it. */
  function AsQueried(r: Ingest.Row, who: Rollups.Who, ts: int): Rollups.Event {
    Rollups.Event(ts, who, r.qname, r.rcode, r.blocked,
                  if r.latencyMs.Some? && r.latencyMs.value >= 0 then Some(r.latencyMs.value) else None, r.isInternal)
  }

  /** A shipped event, who asked, and when. */
  datatype Arrival = Arrival(event: EventBuffer.Event, who: Rollups.Who, ts: int)

  function Seen(a: Arrival): Rollups.Event {
    AsQueried(Ingest.ToRow(a.event), a.who, a.ts)
  }

  /** A history of shipped events as the rollup queries see it. */
  function Queried(arrivals: seq<Arrival>): (log: Rollups.Log)
    ensures |log| == |arrivals|
  {
    seq(|arrivals|, i requires 0 <= i < |arrivals| => Seen(arrivals[i]))
  }

  ghost predicate Timed(arrivals: seq<Arrival>) {
    forall i :: 0 <= i < |arrivals| ==> arrivals[i].event.latencyMs >= 0
  }

  /** How many of the counted events were recorded with less than `limit` milliseconds. A recorded 0
      is an answer in under a millisecond, or one whose latency was not measured. */
  ghost function Faster(arrivals: seq<Arrival>, s: Rollups.Scope, limit: int): nat {
    if arrivals == [] then 0
    else
      var n := |arrivals| - 1;
      Faster(arrivals[..n], s, limit)
      + Rollups.Bit(Rollups.InScope(Seen(arrivals[n]), s) && arrivals[n].event.latencyMs < limit)
  }

  /** The latencies as recorded, added up. */
  ghost function Recorded(arrivals: seq<Arrival>, s: Rollups.Scope): int {
    if arrivals == [] then 0
    else
      var n := |arrivals| - 1;
      Recorded(arrivals[..n], s) + if Rollups.InScope(Seen(arrivals[n]), s) then arrivals[n].event.latencyMs else 0
  }

  lemma QueriedLast(arrivals: seq<Arrival>, s: Rollups.Scope, m: Rollups.Metric)
    requires arrivals != []
    ensures var n := |arrivals| - 1;
            var e := Seen(arrivals[n]);
            Rollups.Sum(Queried(arrivals), s, m)
            == Rollups.Sum(Queried(arrivals[..n]), s, m) + if Rollups.InScope(e, s) then Rollups.Weight(e, m) else 0
  {
    var n := |arrivals| - 1;
    assert Queried(arrivals) == Queried(arrivals[..n]) + [Seen(arrivals[n])];
    RollupProofs.SumSnoc(Queried(arrivals[..n]), Seen(arrivals[n]), s, m);
  }

  /** Over any history and any scope, the cache-hit count falls short of the events recorded under 5 ms
      by exactly the number of those recorded as 0: the fastest answers do not count. */
  lemma {:induction false} HitsFallShort(arrivals: seq<Arrival>, s: Rollups.Scope)
    requires Timed(arrivals)
    ensures Rollups.Sum(Queried(arrivals), s, Rollups.CacheHits) + Faster(arrivals, s, 1)
         == Faster(arrivals, s, Rollups.CACHE_HIT_LATENCY_THRESHOLD_MS)
  {
    if arrivals != [] {
      var n := |arrivals| - 1;
      HitsFallShort(arrivals[..n], s);
      QueriedLast(arrivals, s, Rollups.CacheHits);
    }
  }

  /** As many events are missing from the number that an average is taken over. */
  lemma {:induction false} TimedFallShort(arrivals: seq<Arrival>, s: Rollups.Scope)
    requires Timed(arrivals)
    ensures Rollups.Sum(Queried(arrivals), s, Rollups.LatencyCount) + Faster(arrivals, s, 1)
         == Rollups.Sum(Queried(arrivals), s, Rollups.Total)
  {
    if arrivals != [] {
      var n := |arrivals| - 1;
      TimedFallShort(arrivals[..n], s);
      QueriedLast(arrivals, s, Rollups.LatencyCount);
      QueriedLast(arrivals, s, Rollups.Total);
    }
  }

  /** Latencies still add up: what is dropped is zero. */
  lemma {:induction false} LatencySumUnaffected(arrivals: seq<Arrival>, s: Rollups.Scope)
    requires Timed(arrivals)
    ensures Rollups.Sum(Queried(arrivals), s, Rollups.LatencySum) == Recorded(arrivals, s)
  {
    if arrivals != [] {
      var n := |arrivals| - 1;
      LatencySumUnaffected(arrivals[..n], s);
      QueriedLast(arrivals, s, Rollups.LatencySum);
    }
  }

  // ------------------------------------------------------------------ from posted event to counter

  /** What a posted event is counted as, said of the event. */
  ghost predicate CountsAs(a: Arrival, s: Rollups.Scope, m: Rollups.Metric) {
    && !a.event.isInternal && s.lo <= a.ts < s.hi && (s.only.None? || s.only == Some(a.who))
    && (m.Blocked? ==> a.event.blocked)
    && (m.Nxdomain? ==> a.event.rcode == 3)
    && (m.Servfail? ==> a.event.rcode == 2)
  }

  ghost function CountFlags(arrivals: seq<Arrival>, s: Rollups.Scope, m: Rollups.Metric): (flags: seq<bool>)
    ensures |flags| == |arrivals|
  {
    seq(|arrivals|, i requires 0 <= i < |arrivals| => CountsAs(arrivals[i], s, m))
  }

  /** End to end: the dashboard's counters are numbers of posted events. */
  lemma CountersFromEvents(arrivals: seq<Arrival>, s: Rollups.Scope, m: Rollups.Metric)
    requires m in {Rollups.Total, Rollups.Blocked, Rollups.Nxdomain, Rollups.Servfail}
    ensures Rollups.Sum(Queried(arrivals), s, m) == |TrueAt(CountFlags(arrivals, s, m))|
  {
    RollupProofs.CounterIsNumber(Queried(arrivals), s, m);
    assert RollupProofs.CountedFlags(Queried(arrivals), s, m) == CountFlags(arrivals, s, m);
  }
}
