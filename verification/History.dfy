/** The bucketing of the history chart (admin-ui/app/routers/analytics.py): the page generates a
    grid of buckets, the query groups events by its own truncation, and the two are joined. Times
    are microseconds; the grid is in minutes, UTC. */
module History {
  import opened Prelude

  const MINUTE: int := 60_000_000

  datatype Event = Event(ts: int, blocked: bool, latency: Option<int>, internal: bool)

  datatype Series = Total | Blocked | Cached

  function Weight(e: Event, s: Series): nat {
    match s
    case Total => 1
    case Blocked => if e.blocked then 1 else 0
    case Cached => if !e.blocked && e.latency.Some? && e.latency.value < 5 then 1 else 0
  }

  function BucketMinutes(hours: int): int {
    if hours <= 1 then 1 else if hours <= 6 then 5 else if hours <= 24 then 15 else if hours <= 72 then 60 else 120
  }

  /** The first generated bucket: the minute field of `since` rounded down within its hour. */
  function StartBucket(since: int, size: int): int
    requires size > 0
  {
    var m := since / MINUTE;
    m - m % 60 + (m % 60) / size * size
  }

  /** The bucket the query puts an event in: its minute less (minute field mod size). */
  function QueryBucket(ts: int, size: int): int
    requires size > 0
  {
    var m := ts / MINUTE;
    m - (m % 60) % size
  }

  /** The buckets generated from `start` while they do not lie after `now`. */
  ghost predicate Grid(buckets: seq<int>, start: int, size: int, now: int) {
    && (forall k :: 0 <= k < |buckets| ==> buckets[k] == start + k * size && buckets[k] * MINUTE <= now)
    && (start + |buckets| * size) * MINUTE > now
  }

  method GenerateBuckets(since: int, now: int, size: int) returns (buckets: seq<int>)
    requires size > 0 && since <= now
    ensures Grid(buckets, StartBucket(since, size), size, now)
  {
    var start := StartBucket(since, size);
    buckets := [];
    var current := start;
    while current * MINUTE <= now
      invariant current == start + |buckets| * size
      invariant forall k :: 0 <= k < |buckets| ==> buckets[k] == start + k * size && buckets[k] * MINUTE <= now
      decreases now - current * MINUTE
    {
      buckets := buckets + [current];
      current := current + size;
    }
  }

  predicate Selected(e: Event, since: int, includeInternal: bool) {
    e.ts >= since && (includeInternal || !e.internal)
  }

  /** The filtered events of the whole table. */
  function Filtered(log: seq<Event>, since: int, inc: bool, s: Series): nat {
    if log == [] then 0
    else
      var e := log[|log| - 1];
      Filtered(log[..|log| - 1], since, inc, s) + (if Selected(e, since, inc) then Weight(e, s) else 0)
  }

  /** One group of the query. */
  function GroupCount(log: seq<Event>, since: int, inc: bool, size: int, bucket: int, s: Series): nat
    requires size > 0
  {
    if log == [] then 0
    else
      var e := log[|log| - 1];
      GroupCount(log[..|log| - 1], since, inc, size, bucket, s)
      + (if Selected(e, since, inc) && QueryBucket(e.ts, size) == bucket then Weight(e, s) else 0)
  }

  /** The plotted series, summed over the generated buckets. */
  function SeriesSum(buckets: seq<int>, log: seq<Event>, since: int, inc: bool, size: int, s: Series): nat
    requires size > 0
  {
    if buckets == [] then 0
    else
      var n := |buckets| - 1;
      SeriesSum(buckets[..n], log, since, inc, size, s) + GroupCount(log, since, inc, size, buckets[n], s)
  }

  /** The loop that fills the three series of the answer, one entry per generated bucket. */
  method FillSeries(buckets: seq<int>, log: seq<Event>, since: int, inc: bool, size: int)
    returns (total: seq<nat>, blocked: seq<nat>, cached: seq<nat>)
    requires size > 0
    ensures |total| == |blocked| == |cached| == |buckets|
    ensures forall k :: 0 <= k < |buckets| ==>
              && total[k] == GroupCount(log, since, inc, size, buckets[k], Total)
              && blocked[k] == GroupCount(log, since, inc, size, buckets[k], Blocked)
              && cached[k] == GroupCount(log, since, inc, size, buckets[k], Cached)
    ensures SumOf(total) == SeriesSum(buckets, log, since, inc, size, Total)
    ensures SumOf(blocked) == SeriesSum(buckets, log, since, inc, size, Blocked)
    ensures SumOf(cached) == SeriesSum(buckets, log, since, inc, size, Cached)
  {
    total, blocked, cached := [], [], [];
    for k := 0 to |buckets|
      invariant |total| == |blocked| == |cached| == k
      invariant forall j :: 0 <= j < k ==>
        && total[j] == GroupCount(log, since, inc, size, buckets[j], Total)
        && blocked[j] == GroupCount(log, since, inc, size, buckets[j], Blocked)
        && cached[j] == GroupCount(log, since, inc, size, buckets[j], Cached)
    {
      var b := buckets[k];
      total := total + [GroupCount(log, since, inc, size, b, Total)];
      blocked := blocked + [GroupCount(log, since, inc, size, b, Blocked)];
      cached := cached + [GroupCount(log, since, inc, size, b, Cached)];
    }
    SumOfSeries(total, buckets, log, since, inc, size, Total);
    SumOfSeries(blocked, buckets, log, since, inc, size, Blocked);
    SumOfSeries(cached, buckets, log, since, inc, size, Cached);
  }

  lemma {:induction false} SumOfSeries(xs: seq<nat>, buckets: seq<int>, log: seq<Event>, since: int, inc: bool, size: int, s: Series)
    requires size > 0 && |xs| == |buckets|
    requires forall k :: 0 <= k < |buckets| ==> xs[k] == GroupCount(log, since, inc, size, buckets[k], s)
    ensures SumOf(xs) == SeriesSum(buckets, log, since, inc, size, s)
  {
    if xs != [] { SumOfSeries(xs[..|xs| - 1], buckets[..|xs| - 1], log, since, inc, size, s); }
  }

  function SumOf(xs: seq<nat>): nat {
    if xs == [] then 0 else SumOf(xs[..|xs| - 1]) + xs[|xs| - 1]
  }

  // ------------------------------------------------------------------ what the series add up to

  /** Filtered events whose query bucket was generated. */
  ghost function LandedSum(buckets: seq<int>, log: seq<Event>, since: int, inc: bool, size: int, s: Series): nat
    requires size > 0
  {
    if log == [] then 0
    else
      var e := log[|log| - 1];
      LandedSum(buckets, log[..|log| - 1], since, inc, size, s)
      + (if Selected(e, since, inc) && QueryBucket(e.ts, size) in buckets then Weight(e, s) else 0)
  }

  ghost function HitWeight(buckets: seq<int>, b: int, w: nat): nat {
    if buckets == [] then 0
    else HitWeight(buckets[..|buckets| - 1], b, w) + (if buckets[|buckets| - 1] == b then w else 0)
  }

  lemma {:induction false} HitOnce(buckets: seq<int>, b: int, w: nat)
    requires NoDuplicates(buckets)
    ensures HitWeight(buckets, b, w) == if b in buckets then w else 0
  {
    if buckets != [] {
      HitOnce(buckets[..|buckets| - 1], b, w);
      assert buckets == buckets[..|buckets| - 1] + [buckets[|buckets| - 1]];
    }
  }

  lemma {:induction false} SeriesStep(buckets: seq<int>, log: seq<Event>, e: Event, since: int, inc: bool, size: int, s: Series)
    requires size > 0
    ensures SeriesSum(buckets, log + [e], since, inc, size, s) == SeriesSum(buckets, log, since, inc, size, s)
              + (if Selected(e, since, inc) then HitWeight(buckets, QueryBucket(e.ts, size), Weight(e, s)) else 0)
  {
    assert (log + [e])[..|log|] == log;
    if buckets != [] { SeriesStep(buckets[..|buckets| - 1], log, e, since, inc, size, s); }
  }

  lemma {:induction false} EmptySeries(buckets: seq<int>, since: int, inc: bool, size: int, s: Series)
    requires size > 0
    ensures SeriesSum(buckets, [], since, inc, size, s) == 0
  {
    if buckets != [] { EmptySeries(buckets[..|buckets| - 1], since, inc, size, s); }
  }

  lemma {:induction false} SeriesIsLanded(buckets: seq<int>, log: seq<Event>, since: int, inc: bool, size: int, s: Series)
    requires size > 0 && NoDuplicates(buckets)
    ensures SeriesSum(buckets, log, since, inc, size, s) == LandedSum(buckets, log, since, inc, size, s)
  {
    if log == [] {
      EmptySeries(buckets, since, inc, size, s);
    } else {
      var u, e := log[..|log| - 1], log[|log| - 1];
      assert log == u + [e];
      SeriesIsLanded(buckets, u, since, inc, size, s);
      SeriesStep(buckets, u, e, since, inc, size, s);
      HitOnce(buckets, QueryBucket(e.ts, size), Weight(e, s));
    }
  }

  ghost predicate AllLand(buckets: seq<int>, log: seq<Event>, since: int, inc: bool, size: int)
    requires size > 0
  {
    forall i :: 0 <= i < |log| && Selected(log[i], since, inc) ==> QueryBucket(log[i].ts, size) in buckets
  }

  lemma {:induction false} LandedVersusFiltered(buckets: seq<int>, log: seq<Event>, since: int, inc: bool, size: int, s: Series)
    requires size > 0
    ensures LandedSum(buckets, log, since, inc, size, s) <= Filtered(log, since, inc, s)
    ensures AllLand(buckets, log, since, inc, size) ==> LandedSum(buckets, log, since, inc, size, s) == Filtered(log, since, inc, s)
    ensures LandedSum(buckets, log, since, inc, size, Total) == Filtered(log, since, inc, Total) ==> AllLand(buckets, log, since, inc, size)
  {
    if log != [] {
      var u := log[..|log| - 1];
      LandedVersusFiltered(buckets, u, since, inc, size, s);
      LandedVersusFiltered(buckets, u, since, inc, size, Total);
      assert forall i :: 0 <= i < |u| ==> u[i] == log[i];
    }
  }

  lemma GridMember(buckets: seq<int>, start: int, size: int, now: int, b: int)
    requires size > 0 && Grid(buckets, start, size, now)
    ensures b in buckets <==> b >= start && (b - start) % size == 0 && b * MINUTE <= now
  {
    if b >= start && (b - start) % size == 0 && b * MINUTE <= now {
      var k := (b - start) / size;
      assert b == start + k * size;
      MulOrder(k, |buckets|, size);
      assert buckets[k] == b;
    }
    if b in buckets {
      var k :| 0 <= k < |buckets| && buckets[k] == b;
      assert k * size >= 0;
      MultipleMod(k, size);
    }
  }

  lemma MulOrder(k: int, n: int, size: int)
    requires size > 0
    ensures k >= n ==> k * size >= n * size
    ensures k < n ==> k * size + size <= n * size
  {
    if k >= n {
      var d := k - n;
      assert d * size >= 0;
      assert (n + d) * size == n * size + d * size;
    } else {
      var d := n - k - 1;
      assert d * size >= 0;
      assert (k + 1 + d) * size == k * size + size + d * size;
    }
  }

  lemma MultipleMod(k: int, size: int)
    requires size > 0
    ensures (k * size) % size == 0
  {
    var q, r := (k * size) / size, (k * size) % size;
    assert k * size == q * size + r;
    MulOrder(k, q, size);
    MulOrder(q, k, size);
  }

  predicate Divisor(size: int) {
    size == 1 || size == 5 || size == 15 || size == 60
  }

  lemma Round5(m: int)
    ensures (m % 60) % 5 == m % 5 && (m % 60) / 5 * 5 == m % 60 - m % 5
  {
    var h, r := m / 60, m % 60;
    Remainder5(12 * h + r / 5, r % 5);
    assert m == 5 * (12 * h + r / 5) + r % 5;
  }

  lemma Remainder5(q: int, r: int)
    requires 0 <= r < 5
    ensures (5 * q + r) % 5 == r
  {
  }

  lemma Remainder15(q: int, r: int)
    requires 0 <= r < 15
    ensures (15 * q + r) % 15 == r
  {
  }

  lemma Round15(m: int)
    ensures (m % 60) % 15 == m % 15 && (m % 60) / 15 * 15 == m % 60 - m % 15
  {
    var h, r := m / 60, m % 60;
    Remainder15(4 * h + r / 15, r % 15);
    assert m == 15 * (4 * h + r / 15) + r % 15;
  }

  /** For a divisor of the hour both truncations are the same rounding. */
  lemma SameRounding(t: int, size: int)
    requires Divisor(size)
    ensures QueryBucket(t, size) == StartBucket(t, size) == t / MINUTE - (t / MINUTE) % size
  {
    var m := t / MINUTE;
    if size == 5 {
      Round5(m);
    } else if size == 15 {
      Round15(m);
    }
  }

  lemma RoundingMonotone(a: int, b: int, size: int)
    requires size > 0 && a <= b
    ensures a - a % size <= b - b % size
    ensures ((b - b % size) - (a - a % size)) % size == 0
  {
    var p, q := a / size, b / size;
    assert a - a % size == p * size && b - b % size == q * size;
    MulOrder(q, p, size);
    MultipleMod(q - p, size);
    assert (q - p) * size == q * size - p * size;
  }

  /** An event of the window falls in a generated bucket when the bucket size divides the hour. */
  lemma DivisorLands(buckets: seq<int>, since: int, now: int, size: int, ts: int)
    requires Divisor(size) && since <= ts <= now && Grid(buckets, StartBucket(since, size), size, now)
    ensures QueryBucket(ts, size) in buckets
  {
    var a, b := since / MINUTE, ts / MINUTE;
    SameRounding(since, size);
    SameRounding(ts, size);
    RoundingMonotone(a, b, size);
    assert QueryBucket(ts, size) * MINUTE <= now by {
      assert QueryBucket(ts, size) <= b && b * MINUTE <= ts;
    }
    GridMember(buckets, StartBucket(since, size), size, now, QueryBucket(ts, size));
  }

  /** With bucket sizes 1, 5, 15 and 60 every event of the window is plotted exactly once, so each
      series adds up to its filtered count. */
  lemma SeriesAddUp(buckets: seq<int>, log: seq<Event>, since: int, now: int, inc: bool, size: int, s: Series)
    requires Divisor(size) && since <= now && Grid(buckets, StartBucket(since, size), size, now)
    requires forall i :: 0 <= i < |log| ==> log[i].ts <= now
    ensures SeriesSum(buckets, log, since, inc, size, s) == Filtered(log, since, inc, s)
  {
    SeriesIsLanded(buckets, log, since, inc, size, s);
    assert AllLand(buckets, log, since, inc, size) by {
      forall i | 0 <= i < |log| && Selected(log[i], since, inc) ensures QueryBucket(log[i].ts, size) in buckets {
        DivisorLands(buckets, since, now, size, log[i].ts);
      }
    }
    LandedVersusFiltered(buckets, log, since, inc, size, s);
  }

  /** So the charts of 1 hour to 3 days are complete. */
  lemma ShortWindowsAddUp(buckets: seq<int>, log: seq<Event>, hours: int, now: int, inc: bool, s: Series)
    requires 1 <= hours <= 72
    requires Grid(buckets, StartBucket(now - hours * 60 * MINUTE, BucketMinutes(hours)), BucketMinutes(hours), now)
    requires forall i :: 0 <= i < |log| ==> log[i].ts <= now
    ensures SeriesSum(buckets, log, now - hours * 60 * MINUTE, inc, BucketMinutes(hours), s)
         == Filtered(log, now - hours * 60 * MINUTE, inc, s)
  {
    SeriesAddUp(buckets, log, now - hours * 60 * MINUTE, now, inc, BucketMinutes(hours), s);
  }

  function HourBucket(t: int): int {
    t / MINUTE - (t / MINUTE) % 60
  }

  lemma HourRounding(since: int, ts: int)
    ensures StartBucket(since, 120) == HourBucket(since) && QueryBucket(ts, 120) == HourBucket(ts)
  {
  }

  lemma HourMonotone(since: int, ts: int)
    requires since <= ts
    ensures HourBucket(since) <= HourBucket(ts) && HourBucket(ts) * MINUTE <= ts
  {
  }

  /** The 120-minute size, used for the 7-day window, is not a rounding of the query's: the query
      groups by hour while the grid steps by two. The total is complete exactly when no selected
      event lies an odd number of hours after the first bucket. */
  lemma TwoHourBucketsDropOddHours(buckets: seq<int>, log: seq<Event>, since: int, now: int, inc: bool)
    requires since <= now && Grid(buckets, StartBucket(since, 120), 120, now)
    requires forall i :: 0 <= i < |log| ==> log[i].ts <= now
    ensures SeriesSum(buckets, log, since, inc, 120, Total) == Filtered(log, since, inc, Total)
            <==> forall i :: 0 <= i < |log| && Selected(log[i], since, inc) ==>
                   (HourBucket(log[i].ts) - HourBucket(since)) % 120 == 0
  {
    var start := StartBucket(since, 120);
    SeriesIsLanded(buckets, log, since, inc, 120, Total);
    LandedVersusFiltered(buckets, log, since, inc, 120, Total);
    forall i | 0 <= i < |log| && Selected(log[i], since, inc)
      ensures QueryBucket(log[i].ts, 120) in buckets <==> (HourBucket(log[i].ts) - HourBucket(since)) % 120 == 0
    {
      HourRounding(since, log[i].ts);
      HourMonotone(since, log[i].ts);
      GridMember(buckets, start, 120, now, QueryBucket(log[i].ts, 120));
    }
  }

  /** Any window shows the loss: a single event one hour after its start is counted and not plotted. */
  lemma EventAfterOneHourIsLost(buckets: seq<int>, e: Event, since: int, now: int)
    requires e.ts == since + 60 * MINUTE <= now && Grid(buckets, StartBucket(since, 120), 120, now)
    ensures Filtered([e], since, true, Total) == 1 && SeriesSum(buckets, [e], since, true, 120, Total) != 1
  {
    var log := [e];
    assert log[..0] == [];
    assert e.ts / MINUTE == since / MINUTE + 60;
    assert HourBucket(e.ts) - HourBucket(since) == 60;
    TwoHourBucketsDropOddHours(buckets, log, since, now, true);
    assert Selected(log[0], since, true);
  }

  // ------------------------------------------------------------------ what is counted and where

  /** An event of the chart: within the window, internal ones only on request, and under the series
      blocked, or answered from the cache in under 5 ms. */
  ghost predicate Plotted(e: Event, since: int, inc: bool, s: Series) {
    && e.ts >= since && (inc || !e.internal)
    && (s.Blocked? ==> e.blocked)
    && (s.Cached? ==> !e.blocked && e.latency.Some? && e.latency.value < 5)
  }

  ghost function PlottedFlags(log: seq<Event>, since: int, inc: bool, s: Series): (flags: seq<bool>)
    ensures |flags| == |log|
  {
    seq(|log|, i requires 0 <= i < |log| => Plotted(log[i], since, inc, s))
  }

  /** A series counts events: its filtered count is a number of positions in the log. */
  lemma {:induction false} FilteredIsNumber(log: seq<Event>, since: int, inc: bool, s: Series)
    ensures Filtered(log, since, inc, s) == |TrueAt(PlottedFlags(log, since, inc, s))|
  {
    if log != [] {
      var n := |log| - 1;
      FilteredIsNumber(log[..n], since, inc, s);
      assert PlottedFlags(log, since, inc, s) == PlottedFlags(log[..n], since, inc, s) + [Plotted(log[n], since, inc, s)];
      TrueAtLast(PlottedFlags(log[..n], since, inc, s), Plotted(log[n], since, inc, s));
    }
  }

  /** An event is plotted in the bucket that holds its time. */
  lemma BucketHoldsEvent(ts: int, size: int)
    requires Divisor(size)
    ensures QueryBucket(ts, size) * MINUTE <= ts < (QueryBucket(ts, size) + size) * MINUTE
  {
    SameRounding(ts, size);
  }

  /** The windows the page offers get between 48 and 96 buckets. */
  lemma ChartResolution(hours: int)
    requires hours in {1, 6, 12, 24, 72, 168}
    ensures 48 <= hours * 60 / BucketMinutes(hours) <= 96
  {
  }
}
