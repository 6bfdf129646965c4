/** Hourly and daily rollups (admin-ui/app/services/rollups.py). Times are microseconds, as in
    Python's datetime. The event table is the sequence of its rows in arrival order; the rollup
    table is a sequence of rows, in which nothing but the upsert keeps keys unique (the SQL unique
    constraint does not bind null clients or nodes). */
module Rollups {
  import opened Prelude

  const HOUR: int := 3_600_000_000
  const DAY: int := 24 * HOUR
  const CACHE_HIT_LATENCY_THRESHOLD_MS: int := 5

  datatype Who = Who(client: Option<int>, node: Option<int>)

  datatype Event = Event(
    ts: int, who: Who, qname: string, rcode: int, blocked: bool, latency: Option<nat>, internal: bool)

  type Log = seq<Event>

  datatype Granularity = Hourly | Daily

  datatype Key = Key(bucket: int, granularity: Granularity, who: Who)

  datatype Row = Row(
    key: Key, total: nat, blocked: nat, nxdomain: nat, servfail: nat, cacheHits: nat,
    avgLatency: Option<nat>, uniqueDomains: nat)

  type Table = seq<Row>

  /** What the aggregates add up over events. */
  datatype Metric = Total | Blocked | Nxdomain | Servfail | CacheHits | LatencySum | LatencyCount

  /** The five counters a rollup row stores as they are. */
  predicate IsCount(m: Metric) {
    !m.LatencySum? && !m.LatencyCount?
  }

  function Bit(b: bool): nat {
    if b then 1 else 0
  }

  function Weight(e: Event, m: Metric): nat {
    match m
    case Total => 1
    case Blocked => Bit(e.blocked)
    case Nxdomain => Bit(e.rcode == 3)
    case Servfail => Bit(e.rcode == 2)
    case CacheHits => Bit(e.latency.Some? && e.latency.value < CACHE_HIT_LATENCY_THRESHOLD_MS)
    case LatencySum => if e.latency.Some? then e.latency.value else 0
    case LatencyCount => Bit(e.latency.Some?)
  }

  function Get(r: Row, m: Metric): nat
    requires IsCount(m)
  {
    match m
    case Total => r.total
    case Blocked => r.blocked
    case Nxdomain => r.nxdomain
    case Servfail => r.servfail
    case CacheHits => r.cacheHits
  }

  /** A time range [lo, hi), for everyone or for one (client, node). */
  datatype Scope = Scope(lo: int, hi: int, only: Option<Who>)

  predicate InScope(e: Event, s: Scope) {
    !e.internal && s.lo <= e.ts < s.hi && (s.only.None? || s.only.value == e.who)
  }

  function Sum(log: Log, s: Scope, m: Metric): nat {
    if log == [] then 0
    else
      var e := log[|log| - 1];
      Sum(log[..|log| - 1], s, m) + (if InScope(e, s) then Weight(e, m) else 0)
  }

  function Distinct(log: Log, s: Scope): set<string> {
    set i | 0 <= i < |log| && InScope(log[i], s) :: log[i].qname
  }

  function HourOf(t: int): int {
    t - t % HOUR
  }

  function GroupScope(k: Key): Scope {
    Scope(k.bucket, k.bucket + HOUR, Some(k.who))
  }

  function KeyOf(e: Event): Key {
    Key(HourOf(e.ts), Hourly, e.who)
  }

  /** int(avg) when the average is a non-zero number, else NULL. */
  function TruncatedMean(sum: nat, count: nat): Option<nat> {
    if count == 0 || sum == 0 then None else Some(sum / count)
  }

  /** The aggregate of one (client, node) group of one hour. */
  function HourlyRow(log: Log, k: Key): Row {
    var s := GroupScope(k);
    Row(k, Sum(log, s, Total), Sum(log, s, Blocked), Sum(log, s, Nxdomain), Sum(log, s, Servfail),
        Sum(log, s, CacheHits), TruncatedMean(Sum(log, s, LatencySum), Sum(log, s, LatencyCount)),
        |Distinct(log, s)|)
  }

  /** The groups of an hour, in order of first appearance. */
  function HourlyKeys(log: Log, hour: int): seq<Key> {
    if log == [] then []
    else
      var e := log[|log| - 1];
      var ks := HourlyKeys(log[..|log| - 1], hour);
      var k := Key(hour, Hourly, e.who);
      if InScope(e, Scope(hour, hour + HOUR, None)) && k !in ks then ks + [k] else ks
  }

  function HourlyRows(log: Log, hour: int): (rows: seq<Row>)
    ensures |rows| == |HourlyKeys(log, hour)|
  {
    var ks := HourlyKeys(log, hour);
    seq(|ks|, i requires 0 <= i < |ks| => HourlyRow(log, ks[i]))
  }

  // ------------------------------------------------------------------ the rollup table

  ghost predicate UniqueKeys(t: Table) {
    forall i, j :: 0 <= i < j < |t| ==> t[i].key != t[j].key
  }

  function Lookup(t: Table, k: Key): Option<Row> {
    if t == [] then None
    else if t[|t| - 1].key == k then Some(t[|t| - 1])
    else Lookup(t[..|t| - 1], k)
  }

  /** Update the row with this key, or add one. */
  function Upsert(t: Table, r: Row): Table {
    if t == [] then [r]
    else if t[0].key == r.key then [r] + t[1..]
    else [t[0]] + Upsert(t[1..], r)
  }

  function UpsertAll(t: Table, rows: seq<Row>): Table
    decreases |rows|
  {
    if rows == [] then t else UpsertAll(Upsert(t, rows[0]), rows[1..])
  }

  lemma {:induction false} LookupMember(t: Table, k: Key)
    ensures Lookup(t, k).Some? <==> exists i :: 0 <= i < |t| && t[i].key == k
    ensures Lookup(t, k).Some? ==> Lookup(t, k).value in t && Lookup(t, k).value.key == k
  {
    if t != [] {
      var u := t[..|t| - 1];
      LookupMember(u, k);
      if i :| 0 <= i < |t| && t[i].key == k && i < |u| { assert u[i].key == k; }
      if t[|t| - 1].key != k && Lookup(u, k).Some? {
        var i :| 0 <= i < |u| && u[i].key == k;
        assert t[i].key == k;
      }
    }
  }

  lemma LookupUnique(t: Table, r: Row)
    requires UniqueKeys(t) && r in t
    ensures Lookup(t, r.key) == Some(r)
  {
  }

  lemma {:induction false} UpsertMember(t: Table, r: Row, q: Row)
    requires UniqueKeys(t)
    ensures UniqueKeys(Upsert(t, r))
    ensures q in Upsert(t, r) <==> q == r || (q in t && q.key != r.key)
    ensures forall i :: 0 <= i < |Upsert(t, r)| ==> Upsert(t, r)[i].key == r.key || exists j :: 0 <= j < |t| && t[j].key == Upsert(t, r)[i].key
  {
    if t != [] {
      var u := t[1..];
      UpsertMember(u, r, q);
      assert t == [t[0]] + u;
      if t[0].key != r.key {
        var w := Upsert(u, r);
        forall i | 0 <= i < |w| ensures w[i].key != t[0].key {
          if w[i].key != r.key {
            var j :| 0 <= j < |u| && u[j].key == w[i].key;
            assert t[j + 1].key == w[i].key;
          }
        }
        forall i | 0 <= i < |w| && w[i].key != r.key ensures exists j :: 0 <= j < |t| && t[j].key == w[i].key {
          var j :| 0 <= j < |u| && u[j].key == w[i].key;
          assert t[j + 1].key == w[i].key;
        }
      }
    }
  }

  lemma UpsertLookup(t: Table, r: Row, k: Key)
    requires UniqueKeys(t)
    ensures UniqueKeys(Upsert(t, r))
    ensures Lookup(Upsert(t, r), k) == if k == r.key then Some(r) else Lookup(t, k)
  {
    var t' := Upsert(t, r);
    UpsertMember(t, r, r);
    LookupUnique(t', r);
    if k != r.key {
      LookupMember(t, k);
      LookupMember(t', k);
      if Lookup(t, k).Some? {
        UpsertMember(t, r, Lookup(t, k).value);
        LookupUnique(t', Lookup(t, k).value);
      } else if Lookup(t', k).Some? {
        UpsertMember(t, r, Lookup(t', k).value);
      }
    }
  }

  /** One row per key survives any upsert; listed keys take their new row, others keep theirs. */
  lemma {:induction false} UpsertAllLookup(t: Table, rows: seq<Row>, k: Key)
    requires UniqueKeys(t) && UniqueKeys(rows)
    ensures UniqueKeys(UpsertAll(t, rows))
    ensures Lookup(UpsertAll(t, rows), k) == if Lookup(rows, k).Some? then Lookup(rows, k) else Lookup(t, k)
    decreases |rows|
  {
    if rows != [] {
      UpsertLookup(t, rows[0], k);
      UpsertAllLookup(Upsert(t, rows[0]), rows[1..], k);
      LookupMember(rows, k);
      LookupMember(rows[1..], k);
      if Lookup(rows[1..], k).Some? {
        var q := Lookup(rows[1..], k).value;
        assert q in rows;
        LookupUnique(rows, q);
      } else if k == rows[0].key {
        LookupUnique(rows, rows[0]);
      }
    }
  }

  lemma {:induction false} UpsertPresent(t: Table, r: Row)
    requires UniqueKeys(t) && r in t
    ensures Upsert(t, r) == t
  {
    if t[0].key != r.key {
      assert t == [t[0]] + t[1..];
      UpsertPresent(t[1..], r);
    } else {
      var i :| 0 <= i < |t| && t[i] == r;
      assert i == 0;
    }
  }

  lemma {:induction false} UpsertAllPresent(t: Table, rows: seq<Row>)
    requires UniqueKeys(t) && forall r :: r in rows ==> r in t
    ensures UpsertAll(t, rows) == t
    decreases |rows|
  {
    if rows != [] {
      UpsertPresent(t, rows[0]);
      UpsertAllPresent(t, rows[1..]);
    }
  }

  /** Running the same rollup again changes nothing at all, not even row order. */
  lemma UpsertAllIdempotent(t: Table, rows: seq<Row>)
    requires UniqueKeys(t) && UniqueKeys(rows)
    ensures UpsertAll(UpsertAll(t, rows), rows) == UpsertAll(t, rows)
  {
    var t' := UpsertAll(t, rows);
    UpsertAllLookup(t, rows, Key(0, Hourly, Who(None, None)));
    forall r | r in rows ensures r in t' {
      UpsertAllLookup(t, rows, r.key);
      LookupUnique(rows, r);
      LookupMember(t', r.key);
    }
    UpsertAllPresent(t', rows);
  }

  // ------------------------------------------------------------------ the hourly groups

  lemma {:induction false} HourlyKeysExact(log: Log, hour: int, k: Key)
    ensures NoDuplicates(HourlyKeys(log, hour))
    ensures k in HourlyKeys(log, hour) <==>
            k.bucket == hour && k.granularity == Hourly && Sum(log, GroupScope(k), Total) > 0
  {
    if log != [] {
      HourlyKeysExact(log[..|log| - 1], hour, k);
    }
  }

  lemma HourlyRowsLookup(log: Log, hour: int, k: Key)
    ensures UniqueKeys(HourlyRows(log, hour))
    ensures Lookup(HourlyRows(log, hour), k) ==
            if k.bucket == hour && k.granularity == Hourly && Sum(log, GroupScope(k), Total) > 0
            then Some(HourlyRow(log, k)) else None
  {
    var rows := HourlyRows(log, hour);
    var ks := HourlyKeys(log, hour);
    HourlyKeysExact(log, hour, k);
    LookupMember(rows, k);
    if k in ks {
      var i :| 0 <= i < |ks| && ks[i] == k;
      LookupUnique(rows, rows[i]);
    }
  }

  // ------------------------------------------------------------------ daily aggregation

  predicate RowInScope(r: Row, s: Scope) {
    r.key.granularity == Hourly && s.lo <= r.key.bucket < s.hi && (s.only.None? || s.only.value == r.key.who)
  }

  function RowSum(t: Table, s: Scope, m: Metric): nat
    requires IsCount(m)
  {
    if t == [] then 0
    else
      var r := t[|t| - 1];
      RowSum(t[..|t| - 1], s, m) + (if RowInScope(r, s) then Get(r, m) else 0)
  }

  /** Sum of avg_latency_ms * total_queries, a NULL average adding nothing. */
  function WeightedLatency(t: Table, s: Scope): nat {
    if t == [] then 0
    else
      var r := t[|t| - 1];
      WeightedLatency(t[..|t| - 1], s)
      + (if RowInScope(r, s) && r.avgLatency.Some? then r.avgLatency.value * r.total else 0)
  }

  function UniqueSum(t: Table, s: Scope): nat {
    if t == [] then 0
    else
      var r := t[|t| - 1];
      UniqueSum(t[..|t| - 1], s) + (if RowInScope(r, s) then r.uniqueDomains else 0)
  }

  function AvgSum(t: Table, s: Scope): (nat, nat) {
    if t == [] then (0, 0)
    else
      var r := t[|t| - 1];
      var (sum, n) := AvgSum(t[..|t| - 1], s);
      if RowInScope(r, s) && r.avgLatency.Some? then (sum + r.avgLatency.value, n + 1) else (sum, n)
  }

  function DayScope(day: int, who: Who): Scope {
    Scope(day, day + DAY, Some(who))
  }

  function DailyRow(t: Table, k: Key): Row {
    var s := DayScope(k.bucket, k.who);
    var (sum, n) := AvgSum(t, s);
    Row(k, RowSum(t, s, Total), RowSum(t, s, Blocked), RowSum(t, s, Nxdomain), RowSum(t, s, Servfail),
        RowSum(t, s, CacheHits), TruncatedMean(sum, n), UniqueSum(t, s))
  }

  function DailyKeys(t: Table, day: int): seq<Key> {
    if t == [] then []
    else
      var r := t[|t| - 1];
      var ks := DailyKeys(t[..|t| - 1], day);
      var k := Key(day, Daily, r.key.who);
      if RowInScope(r, Scope(day, day + DAY, None)) && k !in ks then ks + [k] else ks
  }

  function DailyRows(t: Table, day: int): (rows: seq<Row>)
    ensures |rows| == |DailyKeys(t, day)|
  {
    var ks := DailyKeys(t, day);
    seq(|ks|, i requires 0 <= i < |ks| => DailyRow(t, ks[i]))
  }

  ghost predicate HasRow(t: Table, s: Scope) {
    exists i :: 0 <= i < |t| && RowInScope(t[i], s)
  }

  lemma {:induction false} DailyKeysExact(t: Table, day: int, k: Key)
    ensures NoDuplicates(DailyKeys(t, day))
    ensures k in DailyKeys(t, day) <==> k.bucket == day && k.granularity == Daily && HasRow(t, DayScope(day, k.who))
  {
    if t != [] {
      var u := t[..|t| - 1];
      DailyKeysExact(u, day, k);
      var s := DayScope(day, k.who);
      if HasRow(u, s) {
        var i :| 0 <= i < |u| && RowInScope(u[i], s);
        assert RowInScope(t[i], s);
      }
      if i :| 0 <= i < |t| && RowInScope(t[i], s) && i < |u| { assert RowInScope(u[i], s); }
    }
  }

  lemma DailyRowsLookup(t: Table, day: int, k: Key)
    ensures UniqueKeys(DailyRows(t, day))
    ensures Lookup(DailyRows(t, day), k) ==
            if k.bucket == day && k.granularity == Daily && HasRow(t, DayScope(day, k.who))
            then Some(DailyRow(t, k)) else None
  {
    var rows := DailyRows(t, day);
    var ks := DailyKeys(t, day);
    DailyKeysExact(t, day, k);
    LookupMember(rows, k);
    if k in ks {
      var i :| 0 <= i < |ks| && ks[i] == k;
      LookupUnique(rows, rows[i]);
    }
  }

  // ------------------------------------------------------------------ the jobs, in place

  class RollupStore {
    var rows: Table

    ghost predicate Valid()
      reads this
    {
      UniqueKeys(rows)
    }

    constructor ()
      ensures Valid() && rows == []
    {
      rows := [];
    }

    /** SELECT ... one_or_none(): the index of the row with this key, or the table's length. */
    method Find(k: Key) returns (i: nat)
      ensures i <= |rows| && (i < |rows| ==> rows[i].key == k)
      ensures forall j :: 0 <= j < i ==> rows[j].key != k
    {
      i := 0;
      while i < |rows| && rows[i].key != k
        invariant i <= |rows|
        invariant forall j :: 0 <= j < i ==> rows[j].key != k
      {
        i := i + 1;
      }
    }

    method Write(results: seq<Row>) returns (count: nat)
      modifies this
      ensures rows == UpsertAll(old(rows), results)
      ensures count == |results|
    {
      count := 0;
      assert results[0..] == results;
      while count < |results|
        invariant count <= |results|
        invariant UpsertAll(old(rows), results) == UpsertAll(rows, results[count..])
      {
        var r := results[count];
        assert results[count..][0] == r && results[count..][1..] == results[count + 1..];
        var i := Find(r.key);
        UpsertAt(rows, r, i);
        if i < |rows| {
          rows := rows[i := r];
        } else {
          rows := rows + [r];
        }
        count := count + 1;
      }
      assert results[count..] == [];
    }

    method ComputeHourlyRollup(log: Log, hour: int) returns (count: nat)
      requires Valid()
      modifies this
      ensures Valid()
      ensures rows == AfterHourly(log, old(rows), hour)
      ensures count == |HourlyKeys(log, hour)|
    {
      count := Write(HourlyRows(log, hour));
      HourlyRowsLookup(log, hour, Key(hour, Hourly, Who(None, None)));
      UpsertAllLookup(old(rows), HourlyRows(log, hour), Key(hour, Hourly, Who(None, None)));
    }

    method ComputeDailyRollup(day: int) returns (count: nat)
      requires Valid()
      modifies this
      ensures Valid()
      ensures rows == AfterDaily(old(rows), day)
      ensures count == |DailyKeys(old(rows), day)|
    {
      count := Write(DailyRows(rows, day));
      DailyRowsLookup(old(rows), day, Key(day, Daily, Who(None, None)));
      UpsertAllLookup(old(rows), DailyRows(old(rows), day), Key(day, Daily, Who(None, None)));
    }

    /** The hour that just ended, and before 02:00 the day that just ended. */
    method RunRollupJob(log: Log, now: int) returns (hourly: nat, daily: nat)
      requires Valid()
      modifies this
      ensures Valid()
      ensures rows == AfterJob(log, old(rows), now)
    {
      hourly := ComputeHourlyRollup(log, HourOf(now) - HOUR);
      daily := 0;
      if now % DAY < 2 * HOUR {
        daily := ComputeDailyRollup(now - now % DAY - DAY);
      }
    }

    /** The last `hours` full hours, most recent first, clamped to 1..720. */
    method BackfillHourlyRollups(log: Log, hours: int, now: int) returns (total: nat)
      requires Valid()
      modifies this
      ensures Valid()
      ensures rows == Backfilled(log, old(rows), HourOf(now), Max(1, Min(hours, 720)))
    {
      var n := Max(1, Min(hours, 720));
      total := 0;
      for i := 0 to n
        invariant Valid()
        invariant rows == Backfilled(log, old(rows), HourOf(now), i)
      {
        var c := ComputeHourlyRollup(log, HourOf(now) - (i + 1) * HOUR);
        total := total + c;
      }
    }
  }

  lemma {:induction false} UpsertAt(t: Table, r: Row, i: nat)
    requires i <= |t| && (i < |t| ==> t[i].key == r.key)
    requires forall j :: 0 <= j < i ==> t[j].key != r.key
    ensures Upsert(t, r) == if i < |t| then t[i := r] else t + [r]
  {
    if i > 0 {
      UpsertAt(t[1..], r, i - 1);
      assert t == [t[0]] + t[1..];
    }
  }

  function AfterHourly(log: Log, t: Table, hour: int): Table {
    UpsertAll(t, HourlyRows(log, hour))
  }

  function AfterDaily(t: Table, day: int): Table {
    UpsertAll(t, DailyRows(t, day))
  }

  /** One run of the job. */
  function AfterJob(log: Log, t: Table, now: int): Table {
    var t' := AfterHourly(log, t, HourOf(now) - HOUR);
    if now % DAY < 2 * HOUR then AfterDaily(t', now - now % DAY - DAY) else t'
  }

  function Backfilled(log: Log, t: Table, currentHour: int, n: nat): Table {
    if n == 0 then t
    else AfterHourly(log, Backfilled(log, t, currentHour, n - 1), currentHour - n * HOUR)
  }
}
