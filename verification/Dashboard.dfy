/** get_dashboard_stats (admin-ui/app/services/rollups.py): hourly rows for the full hours, raw
    scans for the two edges, and an in-process cache of 60 seconds. One clock stands for both the
    wall clock and the monotonic clock. */
module Dashboard {
  import opened Prelude
  import opened Rollups
  import opened RollupProofs
  import RollupRuns

  const STATS_CACHE_TTL: int := 60_000_000

  datatype Accum = Accum(
    total: nat, blocked: nat, nxdomain: nat, servfail: nat, cacheHits: nat, latency: nat, unique: nat)

  datatype Stats = Stats(
    total: nat, blocked: nat, nxdomain: nat, servfail: nat, cacheHits: nat, avgLatency: nat,
    unique: nat, edgeDelta: nat, cacheAge: int)

  function Count(st: Stats, m: Metric): nat
    requires IsCount(m)
  {
    match m
    case Total => st.total
    case Blocked => st.blocked
    case Nxdomain => st.nxdomain
    case Servfail => st.servfail
    case CacheHits => st.cacheHits
  }

  /** _raw_edge_aggregate over [lo, hi). */
  function RawEdge(log: Log, lo: int, hi: int): Accum {
    var s := Scope(lo, hi, None);
    Accum(Sum(log, s, Total), Sum(log, s, Blocked), Sum(log, s, Nxdomain), Sum(log, s, Servfail),
          Sum(log, s, CacheHits), Sum(log, s, LatencySum), |Distinct(log, s)|)
  }

  function RollupPart(t: Table, s: Scope): Accum {
    Accum(RowSum(t, s, Total), RowSum(t, s, Blocked), RowSum(t, s, Nxdomain), RowSum(t, s, Servfail),
          RowSum(t, s, CacheHits), WeightedLatency(t, s), UniqueSum(t, s))
  }

  function Add(a: Accum, b: Accum): Accum {
    Accum(a.total + b.total, a.blocked + b.blocked, a.nxdomain + b.nxdomain, a.servfail + b.servfail,
          a.cacheHits + b.cacheHits, a.latency + b.latency, a.unique + b.unique)
  }

  function BuildResult(a: Accum, edgeDelta: nat): Stats {
    Stats(a.total, a.blocked, a.nxdomain, a.servfail, a.cacheHits,
          if a.total > 0 then a.latency / a.total else 0, a.unique, edgeDelta, 0)
  }

  function WindowStart(hours: int, now: int): int {
    now - hours * HOUR
  }

  /** The first full hour of the window. */
  function FullStart(hours: int, now: int): int {
    var ws := WindowStart(hours, now);
    if ws > HourOf(ws) then HourOf(ws) + HOUR else HourOf(ws)
  }

  /** The whole hours the rollup rows answer for. */
  function FullHours(hours: int, now: int): Scope {
    Scope(FullStart(hours, now), HourOf(now), None)
  }

  function Window(hours: int, now: int): Scope {
    Scope(WindowStart(hours, now), now, None)
  }

  /** Rolled-up hours, plus the raw edges that are not empty. */
  function WindowAccum(log: Log, t: Table, hours: int, now: int): Accum {
    var ws, fs, ch := WindowStart(hours, now), FullStart(hours, now), HourOf(now);
    var rolled := RollupPart(t, FullHours(hours, now));
    var a := if ws < fs then Add(rolled, RawEdge(log, ws, fs)) else rolled;
    if now > ch then Add(a, RawEdge(log, ch, now)) else a
  }

  function EdgeDelta(log: Log, hours: int, now: int): nat {
    var ws, fs, ch := WindowStart(hours, now), FullStart(hours, now), HourOf(now);
    (if ws < fs then RawEdge(log, ws, fs).total else 0) + (if now > ch then RawEdge(log, ch, now).total else 0)
  }

  /** The answer computed from the database, without the cache. */
  function FreshStats(log: Log, t: Table, hours: int, now: int): Stats {
    if hours <= 1 then
      var raw := RawEdge(log, WindowStart(hours, now), now);
      BuildResult(raw, raw.total)
    else
      BuildResult(WindowAccum(log, t, hours, now), EdgeDelta(log, hours, now))
  }

  function LeftEdge(hours: int, now: int): Scope {
    Scope(WindowStart(hours, now), FullStart(hours, now), None)
  }

  function RightEdge(now: int): Scope {
    Scope(HourOf(now), now, None)
  }

  // ------------------------------------------------------------------ counts

  lemma WindowShape(hours: int, now: int)
    requires hours >= 2
    ensures WindowStart(hours, now) <= FullStart(hours, now) <= HourOf(now) <= now
    ensures Aligned(FullHours(hours, now))
  {
  }

  /** An edge that is skipped would have added nothing. */
  lemma SkippedEdges(log: Log, hours: int, now: int, m: Metric)
    requires hours >= 2
    ensures WindowStart(hours, now) >= FullStart(hours, now) ==> Sum(log, LeftEdge(hours, now), m) == 0
    ensures now <= HourOf(now) ==> Sum(log, RightEdge(now), m) == 0
  {
  }

  /** What each counter of the answer adds up. */
  lemma CountParts(log: Log, t: Table, hours: int, now: int, m: Metric)
    requires hours >= 2 && IsCount(m)
    ensures Count(FreshStats(log, t, hours, now), m)
         == RowSum(t, FullHours(hours, now), m) + Sum(log, LeftEdge(hours, now), m) + Sum(log, RightEdge(now), m)
  {
    SkippedEdges(log, hours, now, m);
    match m
    case Total =>
    case Blocked =>
    case Nxdomain =>
    case Servfail =>
    case CacheHits =>
  }

  lemma WindowSplits(log: Log, hours: int, now: int, m: Metric)
    requires hours >= 2
    ensures Sum(log, Window(hours, now), m)
         == Sum(log, LeftEdge(hours, now), m)
          + Sum(log, FullHours(hours, now), m)
          + Sum(log, RightEdge(now), m)
  {
  }

  /** The dashboard refines a raw scan of [window_start, now). With hours missing or out of date
      no counter exceeds the raw one; the total agrees exactly when the full hours are complete,
      and then every counter agrees. */
  lemma DashboardVersusRaw(log: Log, t: Table, hours: int, now: int, m: Metric)
    requires TableOk(t, log) && IsCount(m)
    ensures Count(FreshStats(log, t, hours, now), m) <= Sum(log, Window(hours, now), m)
    ensures hours <= 1 ==> Count(FreshStats(log, t, hours, now), m) == Sum(log, Window(hours, now), m)
    ensures hours >= 2 ==>
              (FreshStats(log, t, hours, now).total == Sum(log, Window(hours, now), Total)
               <==> Complete(t, log, FullHours(hours, now)))
    ensures hours >= 2 && Complete(t, log, FullHours(hours, now)) ==>
              Count(FreshStats(log, t, hours, now), m) == Sum(log, Window(hours, now), m)
  {
    if hours >= 2 {
      WindowShape(hours, now);
      CountParts(log, t, hours, now, m);
      CountParts(log, t, hours, now, Total);
      WindowSplits(log, hours, now, m);
      WindowSplits(log, hours, now, Total);
      RowsVersusRaw(t, log, FullHours(hours, now), m);
    }
  }

  lemma CompletePart(t: Table, log: Log, whole: Scope, part: Scope)
    requires Complete(t, log, whole) && whole.only.None? && whole.lo <= part.lo && part.hi <= whole.hi
    ensures Complete(t, log, part)
  {
    forall i | 0 <= i < |log| && InScope(log[i], part) ensures Lookup(t, KeyOf(log[i])).Some? {
      assert InScope(log[i], whole);
    }
    forall i | 0 <= i < |t| && RowInScope(t[i], part) ensures UpToDate(t[i], log) {
      assert RowInScope(t[i], whole);
    }
  }

  /** End to end: if the rollup job ran once in every hour and no event arrived after its hour's
      job, every window over those hours shows exactly the raw counts. */
  lemma PunctualDashboardIsExact(ops: seq<RollupRuns.Op>, start: int, hours: int, now: int, m: Metric)
    requires start % HOUR == 0 && RollupRuns.Punctual(start, ops) && IsCount(m) && hours >= 2
    requires start <= FullStart(hours, now) && HourOf(now) <= RollupRuns.Frontier(start, ops)
    ensures var db := RollupRuns.Final(RollupRuns.Db([], []), ops);
            Count(FreshStats(db.log, db.rows, hours, now), m) == Sum(db.log, Window(hours, now), m)
  {
    var empty := RollupRuns.Db([], []);
    var db := RollupRuns.Final(empty, ops);
    var whole := Scope(start, RollupRuns.Frontier(start, ops), None);
    assert TableOk(db.rows, db.log) && Complete(db.rows, db.log, whole) by {
      assert RollupRuns.PunctualInv(empty, start, start);
      RollupRuns.PunctualRunKeeps(empty, ops, start, start);
    }
    CompletePart(db.rows, db.log, whole, FullHours(hours, now));
    DashboardVersusRaw(db.log, db.rows, hours, now, m);
  }

  /** After a backfill, every window whose full hours lie within the hours backfilled shows exactly
      the raw counts, whatever the table held before. */
  lemma BackfilledDashboardIsExact(log: Log, t: Table, backfill: int, hours: int, now: int, m: Metric)
    requires TableOk(t, log) && IsCount(m) && hours >= 2
    requires FullStart(hours, now) >= HourOf(now) - Max(1, Min(backfill, 720)) * HOUR
    ensures Count(FreshStats(log, Backfilled(log, t, HourOf(now), Max(1, Min(backfill, 720))), hours, now), m)
         == Sum(log, Window(hours, now), m)
  {
    var n := Max(1, Min(backfill, 720));
    var t' := Backfilled(log, t, HourOf(now), n);
    RollupRuns.BackfillCompletes(log, t, HourOf(now), n);
    CompletePart(t', log, Scope(HourOf(now) - n * HOUR, HourOf(now), None), FullHours(hours, now));
    DashboardVersusRaw(log, t', hours, now, m);
  }

  /** The part of the total that came from the raw edges rather than from rows. */
  lemma EdgeDeltaIsRest(log: Log, t: Table, hours: int, now: int)
    ensures var st := FreshStats(log, t, hours, now);
            && (hours <= 1 ==> st.edgeDelta == st.total)
            && (hours >= 2 ==> st.total == RowSum(t, FullHours(hours, now), Total) + st.edgeDelta)
  {
    if hours >= 2 { CountParts(log, t, hours, now, Total); }
  }

  /** Windows of an hour or less are answered from the raw events alone: the average is the true mean
      rounded down, and the names are counted once each. */
  lemma ShortWindowIsRaw(log: Log, t: Table, hours: int, now: int)
    requires hours <= 1
    ensures var st, n, sum := FreshStats(log, t, hours, now),
                              Sum(log, Window(hours, now), Total), Sum(log, Window(hours, now), LatencySum);
            && (n > 0 ==> st.avgLatency * n <= sum < (st.avgLatency + 1) * n)
            && (n == 0 ==> st.avgLatency == 0)
            && st.unique == |Distinct(log, Window(hours, now))|
  {
    var n, sum := Sum(log, Window(hours, now), Total), Sum(log, Window(hours, now), LatencySum);
    if n > 0 {
      TruncationBounds(sum, n);
      assert (sum / n + 1) * n == (sum / n) * n + n;
    }
  }

  // ------------------------------------------------------------------ average latency

  ghost predicate AverageAtMostMean(log: Log, t: Table, hours: int, now: int) {
    FreshStats(log, t, hours, now).avgLatency * Sum(log, Window(hours, now), Total) <= Sum(log, Window(hours, now), LatencySum)
  }

  /** After truncating each group's mean, weighting it by the group's total and truncating the
      quotient, the average is more than the true mean minus 2, whatever latencies are null. It is
      at most the true mean when no group of the full hours mixes null and non-null latencies. */
  lemma AverageWithinTwo(log: Log, t: Table, hours: int, now: int)
    requires TableOk(t, log) && hours >= 2 && Complete(t, log, FullHours(hours, now))
    ensures var avg, n, sum := FreshStats(log, t, hours, now).avgLatency,
                               Sum(log, Window(hours, now), Total), Sum(log, Window(hours, now), LatencySum);
            n > 0 ==> sum < (avg + 2) * n
    ensures Unmixed(log, FullHours(hours, now)) ==> AverageAtMostMean(log, t, hours, now)
  {
    var n, acc := Sum(log, Window(hours, now), Total), WindowAccum(log, t, hours, now).latency;
    assert FreshStats(log, t, hours, now).total == n by { DashboardVersusRaw(log, t, hours, now, Total); }
    LatencyWithinOne(log, t, hours, now);
    if n > 0 { MeanBounds(acc, n, Sum(log, Window(hours, now), LatencySum)); }
  }

  lemma MeanBounds(acc: nat, n: nat, sum: nat)
    requires n > 0
    ensures sum <= acc + n ==> sum < (acc / n + 2) * n
    ensures acc <= sum ==> (acc / n) * n <= sum
  {
    var avg := acc / n;
    TruncationBounds(acc, n);
    assert (avg + 2) * n == avg * n + n + n;
  }

  /** Before the last division, less than one millisecond per event has been lost. */
  lemma LatencyWithinOne(log: Log, t: Table, hours: int, now: int)
    requires TableOk(t, log) && hours >= 2 && Complete(t, log, FullHours(hours, now))
    ensures Sum(log, Window(hours, now), LatencySum)
         <= WindowAccum(log, t, hours, now).latency + Sum(log, Window(hours, now), Total)
    ensures Unmixed(log, FullHours(hours, now)) ==>
              WindowAccum(log, t, hours, now).latency <= Sum(log, Window(hours, now), LatencySum)
  {
    var s := FullHours(hours, now);
    WindowShape(hours, now);
    LatencyParts(log, t, hours, now);
    WindowSplits(log, hours, now, Total);
    WindowSplits(log, hours, now, LatencySum);
    WeightedLatencyBounds(t, log, s);
    forall m ensures GroupTotal(t, log, s, m) == Sum(log, s, m) {
      Partition(t, log, s, m);
      CoveredIsSumIff(log, t, s, m);
    }
  }

  lemma LatencyParts(log: Log, t: Table, hours: int, now: int)
    requires hours >= 2
    ensures WindowAccum(log, t, hours, now).latency
         == WeightedLatency(t, FullHours(hours, now))
          + Sum(log, LeftEdge(hours, now), LatencySum) + Sum(log, RightEdge(now), LatencySum)
  {
  }

  lemma SumOfTwo(e: Event, f: Event, s: Scope, m: Metric)
    requires InScope(e, s) && InScope(f, s)
    ensures Sum([e, f], s, m) == Weight(e, m) + Weight(f, m)
  {
    SumSnoc([], e, s, m);
    SumSnoc([e], f, s, m);
    assert [] + [e] == [e] && [e] + [f] == [e, f];
  }

  /** A null latency breaks the bound: the group's mean ignores it and its weight does not. One
      event of 100 ms and one without a latency, in one group of a full hour, average to 100. */
  lemma NullLatencyBreaksAverage() returns (log: Log, t: Table, hours: int, now: int)
    ensures hours >= 2 && TableOk(t, log) && Complete(t, log, FullHours(hours, now))
    ensures !AllTimed(log, Window(hours, now))
    ensures FreshStats(log, t, hours, now).avgLatency * Sum(log, Window(hours, now), Total)
            > Sum(log, Window(hours, now), LatencySum)
  {
    var e := Event(HOUR, Who(None, None), "a", 0, false, Some(100), false);
    var f := e.(latency := None);
    log, hours, now := [e, f], 2, 3 * HOUR;
    var k := Key(HOUR, Hourly, Who(None, None));
    var r := HourlyRow(log, k);
    t := [r];
    var s, win := FullHours(hours, now), Window(hours, now);
    assert s == win == Scope(HOUR, 3 * HOUR, None);
    assert r.total == 2 && r.avgLatency == Some(100) by { MixedGroup(e, f, k); }
    assert TableOk(t, log) by { assert log[..2] == log; assert FromPrefix(r, log); }
    assert Lookup(t, k) == Some(r) && KeyOf(e) == KeyOf(f) == k;
    assert AllUpToDate(t, log, s) by { MixedGroup(e, f, k); }
    assert AllCovered(log, t, s);
    assert InScope(log[1], win);
    assert RowSum(t, s, Total) == 2 && WeightedLatency(t, s) == 200 by { assert t[..0] == []; }
    SumOfTwo(e, f, win, LatencySum);
    DashboardVersusRaw(log, t, hours, now, Total);
    SumOfTwo(e, f, win, Total);
    assert WindowAccum(log, t, hours, now).latency == 200;
  }

  lemma MixedGroup(e: Event, f: Event, k: Key)
    requires InScope(e, GroupScope(k)) && InScope(f, GroupScope(k))
    requires e.latency == Some(100) && f.latency == None
    ensures HourlyRow([e, f], k).total == 2 && HourlyRow([e, f], k).avgLatency == Some(100)
    ensures Sum([e, f], GroupScope(k), Total) == 2
  {
    SumOfTwo(e, f, GroupScope(k), Total);
    SumOfTwo(e, f, GroupScope(k), LatencySum);
    SumOfTwo(e, f, GroupScope(k), LatencyCount);
  }

  // ---------------------------------------------- when the average stays below the mean

  /** The same events with the same latencies null, and any values for the others. */
  ghost predicate SamePattern(log: Log, log': Log) {
    && |log'| == |log|
    && forall i :: 0 <= i < |log| ==>
         log'[i] == log[i].(latency := log'[i].latency) && log'[i].latency.Some? == log[i].latency.Some?
  }

  lemma UnmixedPattern(log: Log, log': Log, s: Scope)
    requires SamePattern(log, log') && Unmixed(log, s)
    ensures Unmixed(log', s)
  {
    forall i, j | 0 <= i < |log'| && 0 <= j < |log'| && InScope(log'[i], s) && InScope(log'[j], s)
                  && KeyOf(log'[i]) == KeyOf(log'[j]) && log'[i].latency.Some?
      ensures log'[j].latency.Some?
    {
      assert KeyOf(log[i]) == KeyOf(log'[i]) && KeyOf(log[j]) == KeyOf(log'[j]);
    }
  }

  /** One event takes the latency `v`, every other timed event takes 0. */
  function Retimed(log: Log, i: nat, v: nat): (log': Log)
    ensures |log'| == |log|
  {
    seq(|log|, j requires 0 <= j < |log| =>
      if log[j].latency.None? then log[j] else log[j].(latency := Some(if j == i then v else 0)))
  }

  lemma {:induction false} RetimedSums(log: Log, i: nat, v: nat, s: Scope, m: Metric, n: nat)
    requires i < |log| && log[i].latency.Some? && n <= |log| && m in {Total, LatencyCount, LatencySum}
    ensures Sum(Retimed(log, i, v)[..n], s, m) ==
              if m != LatencySum then Sum(log[..n], s, m) else if i < n && InScope(log[i], s) then v else 0
  {
    if n > 0 {
      var log' := Retimed(log, i, v);
      RetimedSums(log, i, v, s, m, n - 1);
      assert log[..n] == log[..n - 1] + [log[n - 1]] && log'[..n] == log'[..n - 1] + [log'[n - 1]];
      SumSnoc(log[..n - 1], log[n - 1], s, m);
      SumSnoc(log'[..n - 1], log'[n - 1], s, m);
      RetimedEvent(log, i, v, s, m, n - 1);
    }
  }

  lemma RetimedEvent(log: Log, i: nat, v: nat, s: Scope, m: Metric, j: nat)
    requires i < |log| && log[i].latency.Some? && j < |log| && m in {Total, LatencyCount, LatencySum}
    ensures InScope(Retimed(log, i, v)[j], s) <==> InScope(log[j], s)
    ensures Weight(Retimed(log, i, v)[j], m) ==
              if m != LatencySum then Weight(log[j], m) else if j == i then v else 0
  {
  }

  /** The hourly rows computed again from another log. */
  function Recomputed(t: Table, log: Log): (t': Table)
    ensures |t'| == |t|
  {
    seq(|t|, i requires 0 <= i < |t| => if t[i].key.granularity == Hourly then HourlyRow(log, t[i].key) else t[i])
  }

  lemma RecomputedIsComplete(t: Table, log: Log, log': Log, s: Scope)
    requires TableOk(t, log) && Complete(t, log, s) && SamePattern(log, log')
    ensures TableOk(Recomputed(t, log'), log') && Complete(Recomputed(t, log'), log', s)
  {
    var t' := Recomputed(t, log');
    assert forall i :: 0 <= i < |t| ==> t'[i].key == t[i].key;
    forall i | 0 <= i < |t'| && t'[i].key.granularity == Hourly ensures FromPrefix(t'[i], log') {
      assert log'[..|log'|] == log';
    }
    forall i | 0 <= i < |log'| && InScope(log'[i], s) ensures Lookup(t', KeyOf(log'[i])).Some? {
      var k := KeyOf(log[i]);
      assert KeyOf(log'[i]) == k && InScope(log[i], s) && Lookup(t, k).Some?;
      LookupMember(t, k);
      LookupMember(t', k);
      var j :| 0 <= j < |t| && t[j].key == k;
      assert t'[j].key == k;
    }
  }

  /** A mixed group breaks the bound: with all its latency in one event, enough of it, the group's
      mean is weighted by events that have none. */
  lemma MixedBreaksMean(log: Log, t: Table, hours: int, now: int, i: nat, j: nat) returns (log': Log)
    requires TableOk(t, log) && hours >= 2 && Complete(t, log, FullHours(hours, now))
    requires i < |log| && j < |log| && InScope(log[i], FullHours(hours, now)) && InScope(log[j], FullHours(hours, now))
    requires KeyOf(log[i]) == KeyOf(log[j]) && log[i].latency.Some? && log[j].latency.None?
    ensures SamePattern(log, log') && !AverageAtMostMean(log', Recomputed(t, log'), hours, now)
  {
    var s, win, k := FullHours(hours, now), Window(hours, now), KeyOf(log[i]);
    var g := GroupScope(k);
    var N, c, n := Sum(log, win, Total), Sum(log, g, LatencyCount), Sum(log, g, Total);
    WindowShape(hours, now);
    MixedCounts(log, g, i, j);
    InWindow(log, win, i);
    var v := N * c;
    log' := Retimed(log, i, v);
    var t' := Recomputed(t, log');
    RecomputedIsComplete(t, log, log', s);
    assert log'[..|log|] == log' && log[..|log|] == log;
    forall m | m in {Total, LatencyCount, LatencySum}, z | z in {g, win}
      ensures Sum(log', z, m) == if m != LatencySum then Sum(log, z, m) else if InScope(log[i], z) then v else 0
    {
      RetimedSums(log, i, v, z, m, |log|);
    }
    DashboardVersusRaw(log', t', hours, now, Total);
    assert v > 0 && v / c == N by { Quotient(N, c); }
    var acc := WindowAccum(log', t', hours, now).latency;
    assert acc >= N * n by {
      LatencyParts(log', t', hours, now);
      RowLatencyBounds(log', k);
      RowPresent(t, log, log', s, i);
      WeightedLatencyOf(t', s, HourlyRow(log', k));
    }
    assert N * n >= v + N by { MoreThan(N, c, n); }
    TruncationBounds(acc, N);
  }

  lemma Quotient(a: nat, c: nat)
    requires a > 0 && c > 0
    ensures a * c > 0 && a * c / c == a
  {
    Product(1, 1, c);
    Product(a, 1, c);
    var q := a * c / c;
    TruncationBounds(a * c, c);
    if q < a {
      Product(c, q + 1, a);
    } else if q > a {
      Product(c, a + 1, q);
    }
  }

  lemma MoreThan(a: nat, c: nat, n: nat)
    requires c < n
    ensures a * n >= a * c + a
  {
    Product(a, c + 1, n);
  }

  lemma {:induction false} MixedCounts(log: Log, g: Scope, i: nat, j: nat)
    requires i < |log| && InScope(log[i], g) && log[i].latency.Some?
    requires j < |log| && InScope(log[j], g) && log[j].latency.None?
    ensures 0 < Sum(log, g, LatencyCount) < Sum(log, g, Total)
  {
    var u := log[..|log| - 1];
    LatencyCountAtMost(u, g);
    if i < |u| && j < |u| {
      MixedCounts(u, g, i, j);
    } else if i < |u| {
      TimedIsCounted(u, g, i);
    } else {
      NullIsUncounted(u, g, j);
    }
  }

  lemma {:induction false} TimedIsCounted(log: Log, g: Scope, i: nat)
    requires i < |log| && InScope(log[i], g) && log[i].latency.Some?
    ensures 0 < Sum(log, g, LatencyCount)
  {
    if i < |log| - 1 { TimedIsCounted(log[..|log| - 1], g, i); }
  }

  lemma {:induction false} NullIsUncounted(log: Log, g: Scope, i: nat)
    requires i < |log| && InScope(log[i], g) && log[i].latency.None?
    ensures Sum(log, g, LatencyCount) < Sum(log, g, Total)
  {
    LatencyCountAtMost(log[..|log| - 1], g);
    if i < |log| - 1 { NullIsUncounted(log[..|log| - 1], g, i); }
  }

  lemma InWindow(log: Log, s: Scope, i: nat)
    requires i < |log| && InScope(log[i], s)
    ensures Sum(log, s, Total) > 0
  {
    SumPositive(log, s);
  }

  lemma RowPresent(t: Table, log: Log, log': Log, s: Scope, i: nat)
    requires TableOk(t, log) && Complete(t, log, s) && Aligned(s) && SamePattern(log, log')
    requires i < |log| && InScope(log[i], s) && s.only.None?
    ensures HourlyRow(log', KeyOf(log[i])) in Recomputed(t, log') && RowInScope(HourlyRow(log', KeyOf(log[i])), s)
  {
    var k := KeyOf(log[i]);
    assert Lookup(t, k).Some?;
    LookupMember(t, k);
    var j :| 0 <= j < |t| && t[j].key == k;
    assert Recomputed(t, log')[j] == HourlyRow(log', k);
    HourInScope(log[i].ts, s.lo, s.hi);
  }

  /** With complete hours and a given pattern of null latencies, the dashboard's average is at most
      the true mean for every choice of the other latencies exactly when no (hour, client, node)
      group of the full hours mixes null and non-null latencies. Nulls in the raw edges are
      harmless. */
  lemma AverageAtMostMeanIff(log: Log, t: Table, hours: int, now: int)
    requires TableOk(t, log) && hours >= 2 && Complete(t, log, FullHours(hours, now))
    ensures (forall log', t' {:trigger SamePattern(log, log'), TableOk(t', log')} ::
               SamePattern(log, log') && TableOk(t', log') && Complete(t', log', FullHours(hours, now))
               ==> AverageAtMostMean(log', t', hours, now))
            <==> Unmixed(log, FullHours(hours, now))
  {
    var s := FullHours(hours, now);
    if Unmixed(log, s) {
      forall log', t' | SamePattern(log, log') && TableOk(t', log') && Complete(t', log', s)
        ensures AverageAtMostMean(log', t', hours, now)
      {
        UnmixedPattern(log, log', s);
        AverageWithinTwo(log', t', hours, now);
      }
    } else {
      var i, j :| 0 <= i < |log| && 0 <= j < |log| && InScope(log[i], s) && InScope(log[j], s)
                  && KeyOf(log[i]) == KeyOf(log[j]) && log[i].latency.Some? && !log[j].latency.Some?;
      var log' := MixedBreaksMean(log, t, hours, now, i, j);
      RecomputedIsComplete(t, log, log', s);
    }
  }

  // ------------------------------------------------------------------ distinct names

  /** unique_domains over-counts names shared between groups: it lies between the true number of
      distinct names and the total. */
  lemma UniqueDomainsBounds(log: Log, t: Table, hours: int, now: int)
    requires TableOk(t, log) && hours >= 2 && Complete(t, log, FullHours(hours, now))
    ensures |Distinct(log, Window(hours, now))| <= FreshStats(log, t, hours, now).unique
                                                <= FreshStats(log, t, hours, now).total
  {
    var s := FullHours(hours, now);
    var left, right := LeftEdge(hours, now), RightEdge(now);
    WindowShape(hours, now);
    UniqueSumBounds(t, log, s);
    NamesCovered(t, log, s);
    RowSumBounds(t, log, s, Total);
    DistinctAtMostTotal(log, left);
    DistinctAtMostTotal(log, right);
    UniqueParts(log, t, hours, now);
    CountParts(log, t, hours, now, Total);
    var names := RowNames(t, log, s);
    assert Distinct(log, Window(hours, now)) <= names + Distinct(log, left) + Distinct(log, right) by {
      forall q | q in Distinct(log, Window(hours, now)) ensures q in names + Distinct(log, left) + Distinct(log, right) {
        var i :| 0 <= i < |log| && InScope(log[i], Window(hours, now)) && log[i].qname == q;
        assert InScope(log[i], left) || InScope(log[i], s) || InScope(log[i], right);
      }
    }
    UnionSize(names, Distinct(log, left));
    UnionSize(names + Distinct(log, left), Distinct(log, right));
    SubsetSize(Distinct(log, Window(hours, now)), names + Distinct(log, left) + Distinct(log, right));
  }

  lemma UniqueParts(log: Log, t: Table, hours: int, now: int)
    requires hours >= 2
    ensures FreshStats(log, t, hours, now).unique
         == UniqueSum(t, FullHours(hours, now))
          + |Distinct(log, LeftEdge(hours, now))|
          + |Distinct(log, RightEdge(now))|
  {
  }

  // ------------------------------------------------------------------ the cache

  datatype CacheKey = CacheKey(hours: int, startHour: int, currentHour: int)

  function KeyAt(hours: int, now: int): CacheKey {
    CacheKey(hours, HourOf(WindowStart(hours, now)), HourOf(now))
  }

  /** Two times share a key exactly when their windows start in one hour and end in one hour. */
  lemma KeyIsHours(hours: int, a: int, b: int)
    ensures KeyAt(hours, a) == KeyAt(hours, b)
            <==> HourOf(a) == HourOf(b) && HourOf(a - hours * HOUR) == HourOf(b - hours * HOUR)
  {
  }

  datatype Cached = Cached(at: int, stats: Stats)

  /** One uncached computation: when it ran, the database it saw, and what it answered. */
  datatype Computation = Computation(at: int, log: Log, rows: Table, hours: int, stats: Stats)

  ghost predicate Honest(c: Computation) {
    TableOk(c.rows, c.log) && c.stats == FreshStats(c.log, c.rows, c.hours, c.at)
  }

  ghost predicate NeverAboveRaw(out: Stats, c: Computation) {
    forall m :: IsCount(m) ==> Count(out, m) <= Sum(c.log, Window(c.hours, c.at), m)
  }

  ghost predicate EqualsRaw(out: Stats, c: Computation) {
    forall m :: IsCount(m) ==> Count(out, m) == Sum(c.log, Window(c.hours, c.at), m)
  }

  /** An answer taken from an honest computation inherits what DashboardVersusRaw says of it. */
  lemma AnswerVersusRaw(out: Stats, c: Computation, age: int)
    requires Honest(c) && out == c.stats.(cacheAge := age)
    ensures NeverAboveRaw(out, c)
    ensures c.hours <= 1 || Complete(c.rows, c.log, FullHours(c.hours, c.at)) ==> EqualsRaw(out, c)
  {
    forall m | IsCount(m)
      ensures Count(out, m) <= Sum(c.log, Window(c.hours, c.at), m)
      ensures c.hours <= 1 || Complete(c.rows, c.log, FullHours(c.hours, c.at)) ==>
                Count(out, m) == Sum(c.log, Window(c.hours, c.at), m)
    {
      assert Count(out, m) == Count(c.stats, m);
      DashboardVersusRaw(c.log, c.rows, c.hours, c.at, m);
    }
  }

  class StatsService {
    var cache: map<CacheKey, Cached>
    ghost var history: seq<Computation>

    /** Every cached answer is the answer of a recorded computation. */
    ghost predicate Valid()
      reads this
    {
      forall ck :: ck in cache ==> exists c :: c in history && Explains(c, ck, cache[ck])
    }

    static ghost predicate Explains(c: Computation, ck: CacheKey, entry: Cached) {
      c.at == entry.at && c.hours == ck.hours && ck == KeyAt(c.hours, c.at) && c.stats == entry.stats
    }

    constructor ()
      ensures Valid() && history == [] && cache == map[]
    {
      cache := map[];
      history := [];
    }

    method CacheGet(ck: CacheKey, now: int) returns (hit: Option<Cached>, ghost source: Option<Computation>)
      requires Valid()
      ensures hit.Some? ==> ck in cache && hit.value == cache[ck] && now - hit.value.at < STATS_CACHE_TTL
      ensures hit.Some? ==> source.Some? && source.value in history && Explains(source.value, ck, hit.value)
      ensures hit.None? ==> ck !in cache || now - cache[ck].at >= STATS_CACHE_TTL
    {
      hit, source := None, None;
      if ck in cache && now - cache[ck].at < STATS_CACHE_TTL {
        hit := Some(cache[ck]);
        ghost var c :| c in history && Explains(c, ck, cache[ck]);
        source := Some(c);
      }
    }

    method CachePut(ck: CacheKey, at: int, stats: Stats, ghost c: Computation)
      requires Valid() && Explains(c, ck, Cached(at, stats))
      modifies this
      ensures Valid() && history == old(history) + [c]
      ensures cache == old(cache)[ck := Cached(at, stats)]
    {
      history := history + [c];
      cache := cache[ck := Cached(at, stats)];
      assert c in history;
      forall k | k in cache ensures exists d :: d in history && Explains(d, k, cache[k]) {
        if k != ck {
          var d :| d in old(history) && Explains(d, k, old(cache)[k]);
          assert d in history;
        }
      }
    }

    /** Every answer is that of a computation less than 60 seconds old (this call's, or an earlier
        one for a window starting and ending in the same hours), up to the reported cache age; so
        no counter exceeds the raw count over that computation's window, and all equal it when
        the full hours were complete then. */
    method GetDashboardStats(log: Log, rows: Table, hours: int, now: int)
      returns (out: Stats, ghost seen: Computation)
      requires Valid() && TableOk(rows, log)
      requires forall c :: c in history ==> c.at <= now && Honest(c)
      modifies this
      ensures Valid()
      ensures forall c :: c in history ==> c.at <= now && Honest(c)
      ensures hours >= 2 ==> KeyAt(hours, now) in cache && cache[KeyAt(hours, now)] == Cached(seen.at, seen.stats)
      ensures seen in old(history) || (seen.at == now && seen.log == log && seen.rows == rows)
      ensures Honest(seen) && seen.hours == hours && now - 60 * 1_000_000 < seen.at <= now
      ensures KeyAt(hours, seen.at) == KeyAt(hours, now)
      ensures out == seen.stats.(cacheAge := now - seen.at)
      ensures hours >= 2 && KeyAt(hours, now) in old(cache) && now - old(cache)[KeyAt(hours, now)].at < STATS_CACHE_TTL ==>
                seen.at == old(cache)[KeyAt(hours, now)].at && seen.stats == old(cache)[KeyAt(hours, now)].stats
      ensures NeverAboveRaw(out, seen)
      ensures hours <= 1 || Complete(seen.rows, seen.log, FullHours(hours, seen.at)) ==> EqualsRaw(out, seen)
    {
      var ck := KeyAt(hours, now);
      if hours <= 1 {
        out := FreshStats(log, rows, hours, now);
        seen := Computation(now, log, rows, hours, out);
        AnswerVersusRaw(out, seen, 0);
        return;
      }
      var hit; ghost var source;
      hit, source := CacheGet(ck, now);
      if hit.Some? {
        out := hit.value.stats.(cacheAge := now - hit.value.at);
        seen := source.value;
        AnswerVersusRaw(out, seen, now - seen.at);
        return;
      }
      out := FreshStats(log, rows, hours, now);
      seen := Computation(now, log, rows, hours, out);
      CachePut(ck, now, out, seen);
      AnswerVersusRaw(out, seen, 0);
    }
  }

  /** Two views of one window, the second within the cache time of the computation behind the first
      and in the same hours: it repeats the first answer, whatever happened to the database. */
  method ViewTwice(service: StatsService, log: Log, rows: Table, log': Log, rows': Table, hours: int, now: int, later: int)
    returns (first: Stats, second: Stats)
    requires service.Valid() && TableOk(rows, log) && TableOk(rows', log')
    requires forall c :: c in service.history ==> c.at <= now && Honest(c)
    requires hours >= 2 && now <= later && KeyAt(hours, later) == KeyAt(hours, now)
    modifies service
    ensures service.Valid() && forall c :: c in service.history ==> c.at <= later && Honest(c)
    ensures later - now + first.cacheAge < STATS_CACHE_TTL ==>
              second == first.(cacheAge := later - now + first.cacheAge)
  {
    ghost var seen, seen';
    first, seen := service.GetDashboardStats(log, rows, hours, now);
    second, seen' := service.GetDashboardStats(log', rows', hours, later);
  }
}
