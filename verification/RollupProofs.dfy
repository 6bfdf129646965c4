/** Why summing rollup rows is the same as scanning raw events: each event falls in exactly one
    (hour, client, node) group, and each group has at most one row. */
module RollupProofs {
  import opened Prelude
  import opened Rollups

  ghost predicate Aligned(s: Scope) {
    s.lo % HOUR == 0 && s.hi % HOUR == 0
  }

  // ------------------------------------------------------------------ sums over events

  lemma SumSnoc(log: Log, e: Event, s: Scope, m: Metric)
    ensures Sum(log + [e], s, m) == Sum(log, s, m) + (if InScope(e, s) then Weight(e, m) else 0)
  {
  }

  lemma {:induction false} SumPrefix(log: Log, n: nat, s: Scope, m: Metric)
    requires n <= |log|
    ensures Sum(log[..n], s, m) <= Sum(log, s, m)
    ensures Sum(log[..n], s, Total) == Sum(log, s, Total) ==> Sum(log[..n], s, m) == Sum(log, s, m)
    decreases |log|
  {
    if n < |log| {
      var u := log[..|log| - 1];
      assert u[..n] == log[..n];
      SumPrefix(u, n, s, m);
      SumPrefix(u, n, s, Total);
    } else {
      assert log[..n] == log;
    }
  }

  lemma {:induction false} SumPositive(log: Log, s: Scope)
    ensures Sum(log, s, Total) > 0 <==> exists i :: 0 <= i < |log| && InScope(log[i], s)
  {
    if log != [] {
      var u := log[..|log| - 1];
      SumPositive(u, s);
      if i :| 0 <= i < |log| && InScope(log[i], s) && i < |u| { assert InScope(u[i], s); }
      if i :| 0 <= i < |u| && InScope(u[i], s) { assert InScope(log[i], s); }
    }
  }

  /** With no event of the scope after the prefix, the distinct names are the same too. */
  lemma {:induction false} DistinctPrefix(log: Log, n: nat, s: Scope)
    requires n <= |log|
    requires Sum(log[..n], s, Total) == Sum(log, s, Total)
    ensures Distinct(log[..n], s) == Distinct(log, s)
    decreases |log|
  {
    if n < |log| {
      var u := log[..|log| - 1];
      assert u[..n] == log[..n];
      SumPrefix(u, n, s, Total);
      DistinctPrefix(u, n, s);
      assert forall i :: 0 <= i < |u| ==> u[i] == log[i];
      assert Distinct(u, s) == Distinct(log, s);
    } else {
      assert log[..n] == log;
    }
  }

  // ------------------------------------------------------------------ the double count

  /** Raw sums of the groups that have a row in the scope. */
  ghost function GroupTotal(t: Table, log: Log, s: Scope, m: Metric): nat {
    if t == [] then 0
    else
      var r := t[|t| - 1];
      GroupTotal(t[..|t| - 1], log, s, m) + (if RowInScope(r, s) then Sum(log, GroupScope(r.key), m) else 0)
  }

  /** Raw sum of the events of the scope whose group has a row. */
  ghost function CoveredSum(log: Log, t: Table, s: Scope, m: Metric): nat {
    if log == [] then 0
    else
      var e := log[|log| - 1];
      CoveredSum(log[..|log| - 1], t, s, m)
      + (if InScope(e, s) && Lookup(t, KeyOf(e)).Some? then Weight(e, m) else 0)
  }

  /** What the rows of the scope, together, add for one event. */
  ghost function MatchWeight(t: Table, e: Event, s: Scope, m: Metric): nat {
    if t == [] then 0
    else
      var r := t[|t| - 1];
      MatchWeight(t[..|t| - 1], e, s, m)
      + (if RowInScope(r, s) && InScope(e, GroupScope(r.key)) then Weight(e, m) else 0)
  }

  ghost predicate AlignedRows(t: Table) {
    forall i :: 0 <= i < |t| && t[i].key.granularity == Hourly ==> t[i].key.bucket % HOUR == 0
  }

  /** An aligned hour holds exactly the instants that truncate to it. */
  lemma HourOfUnique(t: int, b: int)
    requires b % HOUR == 0
    ensures b <= t < b + HOUR <==> HourOf(t) == b
  {
  }

  lemma HourInScope(t: int, lo: int, hi: int)
    requires lo % HOUR == 0 && hi % HOUR == 0
    ensures lo <= t < hi <==> lo <= HourOf(t) < hi
  {
  }

  /** An event is counted by its own group's row and by no other. */
  lemma {:induction false} MatchesOnce(t: Table, e: Event, s: Scope, m: Metric)
    requires UniqueKeys(t) && AlignedRows(t) && Aligned(s)
    ensures MatchWeight(t, e, s, m) == if InScope(e, s) && Lookup(t, KeyOf(e)).Some? then Weight(e, m) else 0
  {
    if t != [] {
      var u, r := t[..|t| - 1], t[|t| - 1];
      MatchesOnce(u, e, s, m);
      if r.key.granularity == Hourly {
        HourOfUnique(e.ts, r.key.bucket);
        HourInScope(e.ts, s.lo, s.hi);
      }
      LookupMember(u, KeyOf(e));
    }
  }

  lemma {:induction false} GroupTotalStep(t: Table, log: Log, e: Event, s: Scope, m: Metric)
    ensures GroupTotal(t, log + [e], s, m) == GroupTotal(t, log, s, m) + MatchWeight(t, e, s, m)
  {
    if t != [] {
      GroupTotalStep(t[..|t| - 1], log, e, s, m);
      SumSnoc(log, e, GroupScope(t[|t| - 1].key), m);
    }
  }

  /** Counting by rows and counting by events give the same sum. */
  lemma {:induction false} Partition(t: Table, log: Log, s: Scope, m: Metric)
    requires UniqueKeys(t) && AlignedRows(t) && Aligned(s)
    ensures GroupTotal(t, log, s, m) == CoveredSum(log, t, s, m)
  {
    if log == [] {
      EmptyGroups(t, s, m);
    } else {
      var u, e := log[..|log| - 1], log[|log| - 1];
      assert log == u + [e];
      Partition(t, u, s, m);
      GroupTotalStep(t, u, e, s, m);
      MatchesOnce(t, e, s, m);
    }
  }

  lemma {:induction false} EmptyGroups(t: Table, s: Scope, m: Metric)
    ensures GroupTotal(t, [], s, m) == 0
  {
    if t != [] { EmptyGroups(t[..|t| - 1], s, m); }
  }

  lemma {:induction false} CoveredAtMostSum(log: Log, t: Table, s: Scope, m: Metric)
    ensures CoveredSum(log, t, s, m) <= Sum(log, s, m)
  {
    if log != [] { CoveredAtMostSum(log[..|log| - 1], t, s, m); }
  }

  ghost predicate AllCovered(log: Log, t: Table, s: Scope) {
    forall i {:trigger Lookup(t, KeyOf(log[i]))} :: 0 <= i < |log| && InScope(log[i], s) ==> Lookup(t, KeyOf(log[i])).Some?
  }

  lemma {:induction false} CoveredIsSumIff(log: Log, t: Table, s: Scope, m: Metric)
    ensures AllCovered(log, t, s) ==> CoveredSum(log, t, s, m) == Sum(log, s, m)
    ensures CoveredSum(log, t, s, Total) == Sum(log, s, Total) ==> AllCovered(log, t, s)
  {
    if log != [] {
      var u := log[..|log| - 1];
      CoveredIsSumIff(u, t, s, m);
      CoveredAtMostSum(u, t, s, Total);
      assert AllCovered(log, t, s) ==> AllCovered(u, t, s) by {
        assert forall i :: 0 <= i < |u| ==> u[i] == log[i];
      }
    }
  }

  // ------------------------------------------------------------------ rows computed earlier

  /** A row computed from the events that had arrived at some earlier point. */
  ghost predicate FromPrefix(r: Row, log: Log) {
    exists n :: 0 <= n <= |log| && r == HourlyRow(log[..n], r.key)
  }

  /** What every run of arrivals and rollups keeps about the rollup table. */
  ghost predicate TableOk(t: Table, log: Log) {
    && UniqueKeys(t)
    && AlignedRows(t)
    && forall i {:trigger FromPrefix(t[i], log)} :: 0 <= i < |t| && t[i].key.granularity == Hourly ==> FromPrefix(t[i], log)
  }

  /** Up to date: the group has had no event since its row was computed. */
  ghost predicate UpToDate(r: Row, log: Log) {
    r.total == Sum(log, GroupScope(r.key), Total)
  }

  /** With no event of the group after the prefix, each aggregate is what it was. */
  ghost predicate SameSum(log: Log, n: nat, s: Scope, m: Metric)
    requires n <= |log|
  {
    Sum(log[..n], s, m) == Sum(log, s, m)
  }

  lemma PrefixCurrent(log: Log, n: nat, k: Key)
    requires n <= |log| && SameSum(log, n, GroupScope(k), Total)
    ensures HourlyRow(log[..n], k) == HourlyRow(log, k)
  {
    var s := GroupScope(k);
    forall m ensures SameSum(log, n, s, m) { SumPrefix(log, n, s, m); }
    assert SameSum(log, n, s, Blocked) && SameSum(log, n, s, Nxdomain) && SameSum(log, n, s, Servfail);
    assert SameSum(log, n, s, CacheHits) && SameSum(log, n, s, LatencySum) && SameSum(log, n, s, LatencyCount);
    DistinctPrefix(log, n, s);
  }

  lemma RowCounts(log: Log, k: Key, m: Metric)
    requires IsCount(m)
    ensures Get(HourlyRow(log, k), m) == Sum(log, GroupScope(k), m)
  {
  }

  lemma PrefixRowBounds(log: Log, n: nat, k: Key, m: Metric)
    requires n <= |log| && IsCount(m)
    ensures Get(HourlyRow(log[..n], k), m) <= Sum(log, GroupScope(k), m)
  {
    RowCounts(log[..n], k, m);
    SumPrefix(log, n, GroupScope(k), m);
  }

  lemma RowBounds(r: Row, log: Log, m: Metric)
    requires FromPrefix(r, log) && IsCount(m)
    ensures Get(r, m) <= Sum(log, GroupScope(r.key), m)
    ensures UpToDate(r, log) ==> r == HourlyRow(log, r.key)
  {
    var n :| 0 <= n <= |log| && r == HourlyRow(log[..n], r.key);
    PrefixRowBounds(log, n, r.key, m);
    if UpToDate(r, log) { PrefixCurrent(log, n, r.key); }
  }

  ghost predicate AllUpToDate(t: Table, log: Log, s: Scope) {
    forall i {:trigger UpToDate(t[i], log)} :: 0 <= i < |t| && RowInScope(t[i], s) ==> UpToDate(t[i], log)
  }

  lemma {:induction false} RowSumBounds(t: Table, log: Log, s: Scope, m: Metric)
    requires IsCount(m)
    requires forall i {:trigger FromPrefix(t[i], log)} :: 0 <= i < |t| && t[i].key.granularity == Hourly ==> FromPrefix(t[i], log)
    ensures RowSum(t, s, m) <= GroupTotal(t, log, s, m)
    ensures AllUpToDate(t, log, s) ==> RowSum(t, s, m) == GroupTotal(t, log, s, m)
    ensures RowSum(t, s, Total) == GroupTotal(t, log, s, Total) ==> AllUpToDate(t, log, s)
  {
    if t != [] {
      var u, r := t[..|t| - 1], t[|t| - 1];
      assert forall i :: 0 <= i < |u| ==> u[i] == t[i];
      RowSumBounds(u, log, s, m);
      RowSumBounds(u, log, s, Total);
      if RowInScope(r, s) {
        RowBounds(r, log, m);
        RowBounds(r, log, Total);
      }
    }
  }

  /** Every group of the scope has a row, and no row of the scope is out of date. */
  ghost predicate Complete(t: Table, log: Log, s: Scope) {
    AllCovered(log, t, s) && AllUpToDate(t, log, s)
  }

  /** Rollup rows never over-count; they count everything exactly when they are complete, and one
      total is enough to tell. */
  lemma RowsVersusRaw(t: Table, log: Log, s: Scope, m: Metric)
    requires TableOk(t, log) && Aligned(s) && IsCount(m)
    ensures RowSum(t, s, m) <= Sum(log, s, m)
    ensures Complete(t, log, s) ==> RowSum(t, s, m) == Sum(log, s, m)
    ensures RowSum(t, s, Total) == Sum(log, s, Total) <==> Complete(t, log, s)
  {
    RowSumBounds(t, log, s, m);
    RowSumBounds(t, log, s, Total);
    Partition(t, log, s, m);
    Partition(t, log, s, Total);
    CoveredAtMostSum(log, t, s, m);
    CoveredAtMostSum(log, t, s, Total);
    CoveredIsSumIff(log, t, s, m);
    CoveredIsSumIff(log, t, s, Total);
  }

  // ------------------------------------------------------------------ latency and distinct names

  ghost predicate AllTimed(log: Log, s: Scope) {
    forall i :: 0 <= i < |log| && InScope(log[i], s) ==> log[i].latency.Some?
  }

  lemma {:induction false} TimedCounts(log: Log, s: Scope)
    requires AllTimed(log, s)
    ensures Sum(log, s, LatencyCount) == Sum(log, s, Total)
  {
    if log != [] {
      assert forall i :: 0 <= i < |log| - 1 ==> log[..|log| - 1][i] == log[i];
      TimedCounts(log[..|log| - 1], s);
    }
  }

  lemma TruncationBounds(sum: nat, count: nat)
    requires count > 0
    ensures (sum / count) * count <= sum < (sum / count) * count + count
  {
  }

  /** No (hour, client, node) group of the scope holds both a null and a non-null latency. */
  ghost predicate Unmixed(log: Log, s: Scope) {
    forall i, j {:trigger KeyOf(log[i]), KeyOf(log[j])} ::
      (0 <= i < |log| && 0 <= j < |log| && InScope(log[i], s) && InScope(log[j], s)
       && KeyOf(log[i]) == KeyOf(log[j]) && log[i].latency.Some?) ==> log[j].latency.Some?
  }

  lemma {:induction false} LatencyCountAtMost(log: Log, s: Scope)
    ensures Sum(log, s, LatencyCount) <= Sum(log, s, Total)
  {
    if log != [] { LatencyCountAtMost(log[..|log| - 1], s); }
  }

  lemma {:induction false} SomeTimed(log: Log, s: Scope) returns (i: nat)
    requires Sum(log, s, LatencyCount) > 0
    ensures i < |log| && InScope(log[i], s) && log[i].latency.Some?
  {
    var u, e := log[..|log| - 1], log[|log| - 1];
    if InScope(e, s) && e.latency.Some? {
      i := |u|;
    } else {
      i := SomeTimed(u, s);
    }
  }

  /** The events of a row's group are events of the scope, all with the row's key. */
  lemma GroupInScope(e: Event, k: Key, s: Scope)
    requires Aligned(s) && k.bucket % HOUR == 0 && k.granularity == Hourly
    requires s.lo <= k.bucket < s.hi && (s.only.None? || s.only.value == k.who)
    requires InScope(e, GroupScope(k))
    ensures InScope(e, s) && KeyOf(e) == k
  {
    HourOfUnique(e.ts, k.bucket);
    HourInScope(e.ts, s.lo, s.hi);
  }

  /** In an unmixed scope a row's group is timed throughout or not at all. */
  lemma UnmixedGroup(log: Log, k: Key, s: Scope)
    requires Aligned(s) && k.bucket % HOUR == 0 && k.granularity == Hourly && Unmixed(log, s)
    requires s.lo <= k.bucket < s.hi && (s.only.None? || s.only.value == k.who)
    ensures Sum(log, GroupScope(k), LatencyCount) in {0, Sum(log, GroupScope(k), Total)}
  {
    var g := GroupScope(k);
    if Sum(log, g, LatencyCount) > 0 {
      var i := SomeTimed(log, g);
      GroupInScope(log[i], k, s);
      assert AllTimed(log, g) by {
        forall j | 0 <= j < |log| && InScope(log[j], g) ensures log[j].latency.Some? {
          GroupInScope(log[j], k, s);
        }
      }
      TimedCounts(log, g);
    }
  }

  /** What one row adds to the weighted latency. */
  function RowLatency(r: Row): nat {
    if r.avgLatency.Some? then r.avgLatency.value * r.total else 0
  }

  lemma Product(q: nat, c: nat, n: nat)
    requires c <= n
    ensures q * c <= q * n
  {
  }

  /** A group's truncated mean, weighted by its total, falls short of the group's sum by at most one
      millisecond per event, and exceeds it only when the group is mixed. */
  lemma RowLatencyBounds(log: Log, k: Key)
    ensures var g := GroupScope(k);
            var w, sum, c, n := RowLatency(HourlyRow(log, k)), Sum(log, g, LatencySum), Sum(log, g, LatencyCount), Sum(log, g, Total);
            && sum <= w + n
            && (c in {0, n} ==> w <= sum)
            && (sum > 0 ==> c > 0 && w == (sum / c) * n)
  {
    var g := GroupScope(k);
    var sum, c, n := Sum(log, g, LatencySum), Sum(log, g, LatencyCount), Sum(log, g, Total);
    if sum > 0 {
      LatencyNeedsEvents(log, g);
      LatencyCountAtMost(log, g);
      WeightedMeanBounds(sum, c, n);
    }
  }

  lemma WeightedMeanBounds(sum: nat, c: nat, n: nat)
    requires 0 < c <= n
    ensures sum <= (sum / c) * n + n
    ensures c == n ==> (sum / c) * n <= sum
  {
    TruncationBounds(sum, c);
    Product(sum / c, c, n);
  }

  /** Truncating each group's average loses less than one millisecond per event, and over an
      unmixed scope it never adds anything. */
  lemma {:induction false} WeightedLatencyBounds(t: Table, log: Log, s: Scope)
    requires TableOk(t, log) && Aligned(s) && AllUpToDate(t, log, s)
    ensures GroupTotal(t, log, s, LatencySum) <= WeightedLatency(t, s) + GroupTotal(t, log, s, Total)
    ensures Unmixed(log, s) ==> WeightedLatency(t, s) <= GroupTotal(t, log, s, LatencySum)
  {
    if t != [] {
      var u, r := t[..|t| - 1], t[|t| - 1];
      assert forall i :: 0 <= i < |u| ==> u[i] == t[i];
      WeightedLatencyBounds(u, log, s);
      if RowInScope(r, s) {
        RowBounds(r, log, Total);
        RowLatencyBounds(log, r.key);
        if Unmixed(log, s) { UnmixedGroup(log, r.key, s); }
        assert WeightedLatency(t, s) == WeightedLatency(u, s) + RowLatency(r);
      }
    }
  }

  lemma {:induction false} WeightedLatencyOf(t: Table, s: Scope, r: Row)
    requires r in t && RowInScope(r, s)
    ensures RowLatency(r) <= WeightedLatency(t, s)
  {
    var u := t[..|t| - 1];
    if t[|t| - 1] != r {
      assert r in u;
      WeightedLatencyOf(u, s, r);
    }
  }

  lemma {:induction false} LatencyNeedsEvents(log: Log, s: Scope)
    requires Sum(log, s, LatencySum) > 0
    ensures Sum(log, s, LatencyCount) > 0
  {
    var u := log[..|log| - 1];
    if Sum(u, s, LatencySum) > 0 { LatencyNeedsEvents(u, s); }
  }

  lemma {:induction false} DistinctAtMostTotal(log: Log, s: Scope)
    ensures |Distinct(log, s)| <= Sum(log, s, Total)
  {
    if log != [] {
      var u, e := log[..|log| - 1], log[|log| - 1];
      DistinctAtMostTotal(u, s);
      assert forall i :: 0 <= i < |u| ==> u[i] == log[i];
      if InScope(e, s) {
        assert Distinct(log, s) == Distinct(u, s) + {e.qname};
      } else {
        assert Distinct(log, s) == Distinct(u, s);
      }
    }
  }

  /** Names seen in some group that has a row. */
  ghost function RowNames(t: Table, log: Log, s: Scope): set<string> {
    if t == [] then {}
    else
      var r := t[|t| - 1];
      RowNames(t[..|t| - 1], log, s) + (if RowInScope(r, s) then Distinct(log, GroupScope(r.key)) else {})
  }

  lemma UnionSize(a: set<string>, b: set<string>)
    ensures |a + b| <= |a| + |b|
  {
  }

  lemma {:induction false} SubsetSize(a: set<string>, b: set<string>)
    requires a <= b
    ensures |a| <= |b|
  {
    if a != {} {
      var x :| x in a;
      SubsetSize(a - {x}, b - {x});
    }
  }

  lemma {:induction false} UniqueSumBounds(t: Table, log: Log, s: Scope)
    requires TableOk(t, log) && AllUpToDate(t, log, s)
    ensures |RowNames(t, log, s)| <= UniqueSum(t, s) <= GroupTotal(t, log, s, Total)
  {
    if t != [] {
      var u, r := t[..|t| - 1], t[|t| - 1];
      assert forall i :: 0 <= i < |u| ==> u[i] == t[i];
      UniqueSumBounds(u, log, s);
      if RowInScope(r, s) {
        var g := GroupScope(r.key);
        RowBounds(r, log, Total);
        DistinctAtMostTotal(log, g);
        UnionSize(RowNames(u, log, s), Distinct(log, g));
      } else {
        assert RowNames(t, log, s) == RowNames(u, log, s) + {};
      }
    }
  }

  lemma {:induction false} RowNamesOf(t: Table, log: Log, s: Scope, r: Row)
    requires r in t && RowInScope(r, s)
    ensures Distinct(log, GroupScope(r.key)) <= RowNames(t, log, s)
  {
    var u := t[..|t| - 1];
    if t[|t| - 1] != r {
      assert r in u;
      RowNamesOf(u, log, s, r);
    }
  }

  /** With every group covered, the rows' names include every name of the scope. */
  lemma NamesCovered(t: Table, log: Log, s: Scope)
    requires TableOk(t, log) && Aligned(s) && AllCovered(log, t, s)
    ensures Distinct(log, s) <= RowNames(t, log, s)
  {
    forall q | q in Distinct(log, s) ensures q in RowNames(t, log, s) {
      var i :| 0 <= i < |log| && InScope(log[i], s) && log[i].qname == q;
      var k := KeyOf(log[i]);
      LookupMember(t, k);
      var r := Lookup(t, k).value;
      HourOfUnique(log[i].ts, k.bucket);
      HourInScope(log[i].ts, s.lo, s.hi);
      assert InScope(log[i], GroupScope(r.key));
      RowNamesOf(t, log, s, r);
    }
  }

  // ------------------------------------------------------------------ what the counters count

  /** An event that the dashboard counts under a counter: not internal, within the range, of the right
      client and node, and blocked, answered NXDOMAIN (RCODE 3), answered SERVFAIL (RCODE 2) or
      answered in under 5 ms. */
  ghost predicate Counted(e: Event, s: Scope, m: Metric)
    requires IsCount(m)
  {
    && !e.internal && s.lo <= e.ts < s.hi && (s.only.None? || s.only == Some(e.who))
    && (m.Blocked? ==> e.blocked)
    && (m.Nxdomain? ==> e.rcode == 3)
    && (m.Servfail? ==> e.rcode == 2)
    && (m.CacheHits? ==> e.latency.Some? && e.latency.value < 5)
  }

  ghost function CountedFlags(log: Log, s: Scope, m: Metric): (flags: seq<bool>)
    requires IsCount(m)
    ensures |flags| == |log|
  {
    seq(|log|, i requires 0 <= i < |log| => Counted(log[i], s, m))
  }

  /** A counter is the number of events it counts. */
  lemma {:induction false} CounterIsNumber(log: Log, s: Scope, m: Metric)
    requires IsCount(m)
    ensures Sum(log, s, m) == |TrueAt(CountedFlags(log, s, m))|
  {
    if log != [] {
      var n := |log| - 1;
      CounterIsNumber(log[..n], s, m);
      assert CountedFlags(log, s, m) == CountedFlags(log[..n], s, m) + [Counted(log[n], s, m)];
      TrueAtLast(CountedFlags(log[..n], s, m), Counted(log[n], s, m));
      WeightOfCounted(log[n], s, m);
    }
  }

  lemma WeightOfCounted(e: Event, s: Scope, m: Metric)
    requires IsCount(m)
    ensures (if InScope(e, s) then Weight(e, m) else 0) == if Counted(e, s, m) then 1 else 0
  {
  }

  // ------------------------------------------------------------------ the other columns of a daily row

  ghost predicate HasAverage(r: Row, s: Scope) {
    RowInScope(r, s) && r.avgLatency.Some?
  }

  lemma {:induction false} AvgSumBounds(t: Table, s: Scope, lo: nat, hi: nat)
    requires forall r :: r in t && HasAverage(r, s) ==> lo <= r.avgLatency.value <= hi
    ensures lo * AvgSum(t, s).1 <= AvgSum(t, s).0 <= hi * AvgSum(t, s).1
  {
    if t != [] {
      var u, r := t[..|t| - 1], t[|t| - 1];
      assert t == u + [r];
      AvgSumBounds(u, s, lo, hi);
      var (sum, n) := AvgSum(u, s);
      assert lo * (n + 1) == lo * n + lo && hi * (n + 1) == hi * n + hi;
    }
  }

  lemma {:induction false} AvgCount(t: Table, s: Scope)
    ensures AvgSum(t, s).1 > 0 <==> exists r :: r in t && HasAverage(r, s)
  {
    if t != [] {
      var u, r := t[..|t| - 1], t[|t| - 1];
      AvgCount(u, s);
      assert t == u + [r];
      if HasAverage(r, s) { assert r in t; }
      if x :| x in u && HasAverage(x, s) { assert x in t; }
      if x :| x in t && HasAverage(x, s) { assert x in u || x == r; }
    }
  }

  lemma MeanBetween(sum: nat, n: nat, lo: nat, hi: nat)
    requires n > 0 && lo * n <= sum <= hi * n
    ensures lo <= sum / n <= hi
  {
    var q := sum / n;
    TruncationBounds(sum, n);
    if q < lo { Product(n, q + 1, lo); }
    if q > hi { Product(n, hi + 1, q); }
  }

  /** The daily average is missing when no hour of the group has a positive one, and else lies between
      the least and the greatest of the hourly averages. */
  lemma DailyAverageBetween(t: Table, k: Key, lo: nat, hi: nat)
    requires forall r :: r in t && HasAverage(r, DayScope(k.bucket, k.who)) ==> lo <= r.avgLatency.value <= hi
    ensures DailyRow(t, k).avgLatency.Some? ==> lo <= DailyRow(t, k).avgLatency.value <= hi
    ensures (exists r :: r in t && HasAverage(r, DayScope(k.bucket, k.who))) && lo > 0 ==> DailyRow(t, k).avgLatency.Some?
    ensures DailyRow(t, k).avgLatency.Some? ==> exists r :: r in t && HasAverage(r, DayScope(k.bucket, k.who))
  {
    var s := DayScope(k.bucket, k.who);
    AvgSumBounds(t, s, lo, hi);
    AvgCount(t, s);
    var (sum, n) := AvgSum(t, s);
    if n > 0 {
      MeanBetween(sum, n, lo, hi);
      if lo > 0 { Product(n, 1, lo); }
    }
  }

  /** Over complete hours the daily number of names lies between the true one and the day's total. */
  lemma DailyNamesBetween(t: Table, log: Log, k: Key)
    requires TableOk(t, log) && Aligned(DayScope(k.bucket, k.who)) && Complete(t, log, DayScope(k.bucket, k.who))
    ensures |Distinct(log, DayScope(k.bucket, k.who))| <= DailyRow(t, k).uniqueDomains <= DailyRow(t, k).total
  {
    var s := DayScope(k.bucket, k.who);
    UniqueSumBounds(t, log, s);
    NamesCovered(t, log, s);
    SubsetSize(Distinct(log, s), RowNames(t, log, s));
    RowSumBounds(t, log, s, Total);
  }
}
