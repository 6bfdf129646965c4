/** Runs of event arrivals and rollup jobs (admin-ui/app/services/rollups.py). */
module RollupRuns {
  import opened Prelude
  import opened Rollups
  import opened RollupProofs

  datatype Db = Db(log: Log, rows: Table)

  datatype Op =
    | Arrive(event: Event)
    | Job(now: int)          // run_rollup_job
    | Backfill(hour: int)    // one hour of backfill_hourly_rollups

  predicate Enabled(op: Op) {
    op.Backfill? ==> op.hour % HOUR == 0
  }

  function Next(db: Db, op: Op): Db {
    match op
    case Arrive(e) => db.(log := db.log + [e])
    case Job(now) => db.(rows := AfterJob(db.log, db.rows, now))
    case Backfill(hour) => db.(rows := AfterHourly(db.log, db.rows, hour))
  }

  function Final(db: Db, ops: seq<Op>): Db
    decreases |ops|
  {
    if ops == [] then db else Final(Next(db, ops[0]), ops[1..])
  }

  // ------------------------------------------------------------------ what single operations do

  lemma HourlyEffect(t: Table, log: Log, hour: int, k: Key)
    requires UniqueKeys(t)
    ensures UniqueKeys(AfterHourly(log, t, hour))
    ensures Lookup(AfterHourly(log, t, hour), k) ==
            if k.bucket == hour && k.granularity == Hourly && Sum(log, GroupScope(k), Total) > 0
            then Some(HourlyRow(log, k)) else Lookup(t, k)
  {
    HourlyRowsLookup(log, hour, k);
    UpsertAllLookup(t, HourlyRows(log, hour), k);
  }

  lemma DailyEffect(t: Table, day: int, k: Key)
    requires UniqueKeys(t)
    ensures UniqueKeys(AfterDaily(t, day))
    ensures Lookup(AfterDaily(t, day), k) ==
            if k.bucket == day && k.granularity == Daily && HasRow(t, DayScope(day, k.who))
            then Some(DailyRow(t, k)) else Lookup(t, k)
  {
    DailyRowsLookup(t, day, k);
    UpsertAllLookup(t, DailyRows(t, day), k);
  }

  lemma HourlyKeepsOk(t: Table, log: Log, hour: int)
    requires TableOk(t, log) && hour % HOUR == 0
    ensures TableOk(AfterHourly(log, t, hour), log)
  {
    var t' := AfterHourly(log, t, hour);
    HourlyEffect(t, log, hour, Key(hour, Hourly, Who(None, None)));
    forall i | 0 <= i < |t'| && t'[i].key.granularity == Hourly
      ensures t'[i].key.bucket % HOUR == 0 && FromPrefix(t'[i], log)
    {
      var k := t'[i].key;
      LookupUnique(t', t'[i]);
      HourlyEffect(t, log, hour, k);
      if t'[i] == HourlyRow(log, k) && k.bucket == hour {
        assert log[..|log|] == log;
      } else {
        LookupMember(t, k);
      }
    }
  }

  lemma DailyKeepsOk(t: Table, log: Log, day: int)
    requires TableOk(t, log)
    ensures TableOk(AfterDaily(t, day), log)
  {
    var t' := AfterDaily(t, day);
    DailyEffect(t, day, Key(day, Daily, Who(None, None)));
    forall i | 0 <= i < |t'| && t'[i].key.granularity == Hourly
      ensures t'[i].key.bucket % HOUR == 0 && FromPrefix(t'[i], log)
    {
      LookupUnique(t', t'[i]);
      DailyEffect(t, day, t'[i].key);
      LookupMember(t, t'[i].key);
    }
  }

  lemma ArrivalKeepsOk(t: Table, log: Log, e: Event)
    requires TableOk(t, log)
    ensures TableOk(t, log + [e])
  {
    forall i | 0 <= i < |t| && t[i].key.granularity == Hourly ensures FromPrefix(t[i], log + [e]) {
      assert FromPrefix(t[i], log);
      var n :| 0 <= n <= |log| && t[i] == HourlyRow(log[..n], t[i].key);
      assert (log + [e])[..n] == log[..n];
    }
  }

  lemma StepKeepsOk(db: Db, op: Op)
    requires TableOk(db.rows, db.log) && Enabled(op)
    ensures TableOk(Next(db, op).rows, Next(db, op).log)
  {
    match op
    case Arrive(e) => ArrivalKeepsOk(db.rows, db.log, e);
    case Backfill(hour) => HourlyKeepsOk(db.rows, db.log, hour);
    case Job(now) =>
      var t1 := AfterHourly(db.log, db.rows, HourOf(now) - HOUR);
      assert TableOk(t1, db.log) by { HourlyKeepsOk(db.rows, db.log, HourOf(now) - HOUR); }
      assert TableOk(AfterDaily(t1, PreviousDay(now)), db.log) by { DailyKeepsOk(t1, db.log, PreviousDay(now)); }
  }

  /** In every run: one row per key (null clients and nodes included), aligned hours, and each
      hourly row the exact aggregate of the events that had arrived when it was computed. */
  lemma {:induction false} EveryRunKeepsTableOk(db: Db, ops: seq<Op>)
    requires TableOk(db.rows, db.log)
    requires forall op :: op in ops ==> Enabled(op)
    ensures TableOk(Final(db, ops).rows, Final(db, ops).log)
    decreases |ops|
  {
    if ops != [] {
      StepKeepsOk(db, ops[0]);
      EveryRunKeepsTableOk(Next(db, ops[0]), ops[1..]);
    }
  }

  /** Re-running an hour or a day changes nothing and adds no second row. */
  lemma RerunChangesNothing(t: Table, log: Log, hour: int, day: int)
    requires UniqueKeys(t)
    ensures var t' := AfterHourly(log, t, hour);
            UpsertAll(t', HourlyRows(log, hour)) == t' && UniqueKeys(t')
    ensures var t' := AfterDaily(t, day);
            UpsertAll(t', DailyRows(t', day)) == t' && UniqueKeys(t')
  {
    var k := Key(0, Hourly, Who(None, None));
    HourlyRowsLookup(log, hour, k);
    HourlyEffect(t, log, hour, k);
    UpsertAllIdempotent(t, HourlyRows(log, hour));
    DailyRowsLookup(t, day, k);
    DailyEffect(t, day, k);
    var t' := AfterDaily(t, day);
    forall r | r in DailyRows(t', day) ensures r in t' {
      DailyRowsLookup(t', day, r.key);
      LookupUnique(DailyRows(t', day), r);
      DailySeesHourlyOnly(t, t', day, r.key);
      DailyEffect(t, day, r.key);
      LookupMember(t', r.key);
    }
    UpsertAllPresent(t', DailyRows(t', day));
  }

  // The daily aggregate reads hourly rows only, and an upsert of daily rows leaves those alone.

  function HourlyOnly(t: Table): Table {
    if t == [] then []
    else HourlyOnly(t[..|t| - 1]) + (if t[|t| - 1].key.granularity == Hourly then [t[|t| - 1]] else [])
  }

  lemma {:induction false} AggregatesOfHourlyOnly(t: Table, s: Scope, m: Metric)
    requires IsCount(m)
    ensures RowSum(t, s, m) == RowSum(HourlyOnly(t), s, m)
    ensures AvgSum(t, s) == AvgSum(HourlyOnly(t), s)
    ensures UniqueSum(t, s) == UniqueSum(HourlyOnly(t), s)
  {
    if t != [] {
      var u, r := t[..|t| - 1], t[|t| - 1];
      var h := HourlyOnly(u);
      AggregatesOfHourlyOnly(u, s, m);
      if r.key.granularity == Hourly {
        assert (h + [r])[..|h|] == h;
      } else {
        assert h + [] == h;
      }
    }
  }

  lemma {:induction false} HasRowOfHourlyOnly(t: Table, s: Scope)
    ensures HasRow(t, s) <==> HasRow(HourlyOnly(t), s)
  {
    if t != [] {
      var u, r := t[..|t| - 1], t[|t| - 1];
      HasRowOfHourlyOnly(u, s);
      HasRowSnoc(u, r, s);
      assert t == u + [r];
      if r.key.granularity == Hourly {
        HasRowSnoc(HourlyOnly(u), r, s);
      } else {
        assert HourlyOnly(u) + [] == HourlyOnly(u);
      }
    }
  }

  lemma HasRowSnoc(t: Table, r: Row, s: Scope)
    ensures HasRow(t + [r], s) <==> HasRow(t, s) || RowInScope(r, s)
  {
    var w := t + [r];
    if HasRow(t, s) {
      var i :| 0 <= i < |t| && RowInScope(t[i], s);
      assert RowInScope(w[i], s);
    }
    if RowInScope(r, s) { assert RowInScope(w[|t|], s); }
  }

  lemma {:induction false} HourlyOnlyConcat(a: Table, b: Table)
    ensures HourlyOnly(a + b) == HourlyOnly(a) + HourlyOnly(b)
    decreases |b|
  {
    if b == [] {
      assert a + b == a;
    } else {
      var c := b[..|b| - 1];
      assert (a + b)[..|a + b| - 1] == a + c;
      HourlyOnlyConcat(a, c);
    }
  }

  lemma {:induction false} UpsertDailyKeepsHourly(t: Table, r: Row)
    requires r.key.granularity == Daily
    ensures HourlyOnly(Upsert(t, r)) == HourlyOnly(t)
  {
    if t == [] {
      assert HourlyOnly([r]) == [];
    } else {
      assert t == [t[0]] + t[1..];
      HourlyOnlyConcat([t[0]], t[1..]);
      if t[0].key == r.key {
        HourlyOnlyConcat([r], t[1..]);
        assert HourlyOnly([r]) == [] == HourlyOnly([t[0]]);
      } else {
        UpsertDailyKeepsHourly(t[1..], r);
        HourlyOnlyConcat([t[0]], Upsert(t[1..], r));
      }
    }
  }

  lemma {:induction false} UpsertAllDailyKeepsHourly(t: Table, rows: seq<Row>)
    requires forall r :: r in rows ==> r.key.granularity == Daily
    ensures HourlyOnly(UpsertAll(t, rows)) == HourlyOnly(t)
    decreases |rows|
  {
    if rows != [] {
      UpsertDailyKeepsHourly(t, rows[0]);
      UpsertAllDailyKeepsHourly(Upsert(t, rows[0]), rows[1..]);
    }
  }

  lemma DailySeesHourlyOnly(t: Table, t': Table, day: int, k: Key)
    requires UniqueKeys(t) && t' == AfterDaily(t, day)
    ensures DailyRow(t', k) == DailyRow(t, k)
    ensures HasRow(t', DayScope(day, k.who)) <==> HasRow(t, DayScope(day, k.who))
  {
    forall r | r in DailyRows(t, day) ensures r.key.granularity == Daily {
      DailyRowsLookup(t, day, r.key);
      LookupUnique(DailyRows(t, day), r);
    }
    UpsertAllDailyKeepsHourly(t, DailyRows(t, day));
    var s := DayScope(k.bucket, k.who);
    forall m | IsCount(m) ensures RowSum(t', s, m) == RowSum(t, s, m) {
      AggregatesOfHourlyOnly(t, s, m);
      AggregatesOfHourlyOnly(t', s, m);
    }
    AggregatesOfHourlyOnly(t, s, Total);
    AggregatesOfHourlyOnly(t', s, Total);
    HasRowOfHourlyOnly(t, DayScope(day, k.who));
    HasRowOfHourlyOnly(t', DayScope(day, k.who));
  }

  // ------------------------------------------------------------------ punctual runs

  /** One job in each hour, and no event after its own hour's job. `frontier` is the end of the
      last hour that was rolled up. */
  predicate Punctual(frontier: int, ops: seq<Op>)
    decreases |ops|
  {
    ops == [] ||
    match ops[0]
    case Arrive(e) => e.ts >= frontier && Punctual(frontier, ops[1..])
    case Job(now) => HourOf(now) == frontier + HOUR && Punctual(frontier + HOUR, ops[1..])
    case Backfill(_) => false
  }

  function Frontier(frontier: int, ops: seq<Op>): int
    decreases |ops|
  {
    if ops == [] then frontier
    else Frontier(if ops[0].Job? then frontier + HOUR else frontier, ops[1..])
  }

  /** The daily row of a (client, node) counts every event of the day. */
  ghost predicate DailyExact(t: Table, log: Log, day: int, who: Who) {
    var r := Lookup(t, Key(day, Daily, who));
    var s := DayScope(day, who);
    && (Sum(log, s, Total) > 0 ==> r.Some?)
    && (r.Some? ==> CountsAre(r.value, log, s))
  }

  ghost predicate CountsAre(r: Row, log: Log, s: Scope) {
    forall m :: IsCount(m) ==> Get(r, m) == Sum(log, s, m)
  }

  ghost predicate DailyRowsBefore(t: Table, frontier: int) {
    forall i :: 0 <= i < |t| && t[i].key.granularity == Daily ==> t[i].key.bucket + DAY <= frontier
  }

  ghost predicate PunctualInv(db: Db, start: int, frontier: int) {
    && start % HOUR == 0 && frontier % HOUR == 0 && start <= frontier
    && TableOk(db.rows, db.log)
    && Complete(db.rows, db.log, Scope(start, frontier, None))
    && DailyRowsBefore(db.rows, frontier)
    && DaysExact(db.rows, db.log, start, frontier)
  }

  /** Every day that ended inside the run has exact daily rows. */
  ghost predicate DaysExact(t: Table, log: Log, start: int, frontier: int) {
    forall day, who {:trigger DailyExact(t, log, day, who)} ::
      day % DAY == 0 && start <= day && day + DAY <= frontier ==> DailyExact(t, log, day, who)
  }

  lemma {:induction false} SumUnaffected(log: Log, e: Event, s: Scope, m: Metric)
    requires !InScope(e, s)
    ensures Sum(log + [e], s, m) == Sum(log, s, m)
  {
  }

  lemma HourFits(b: int, frontier: int)
    requires b % HOUR == 0 && frontier % HOUR == 0 && b < frontier
    ensures b + HOUR <= frontier
  {
  }

  lemma LateArrival(db: Db, e: Event, start: int, frontier: int)
    requires PunctualInv(db, start, frontier) && e.ts >= frontier
    ensures PunctualInv(Next(db, Arrive(e)), start, frontier)
  {
    var t, log, log' := db.rows, db.log, db.log + [e];
    var s := Scope(start, frontier, None);
    ArrivalKeepsOk(t, log, e);
    forall i | 0 <= i < |log'| && InScope(log'[i], s) ensures Lookup(t, KeyOf(log'[i])).Some? {
      assert log'[i] == log[i];
    }
    forall i | 0 <= i < |t| && RowInScope(t[i], s) ensures UpToDate(t[i], log') {
      assert UpToDate(t[i], log);
      HourFits(t[i].key.bucket, frontier);
      SumUnaffected(log, e, GroupScope(t[i].key), Total);
    }
    forall day, who | day % DAY == 0 && start <= day && day + DAY <= frontier
      ensures DailyExact(t, log', day, who)
    {
      assert DailyExact(t, log, day, who);
      forall m ensures Sum(log', DayScope(day, who), m) == Sum(log, DayScope(day, who), m) {
        SumUnaffected(log, e, DayScope(day, who), m);
      }
    }
  }

  lemma HourlyCovers(t: Table, log: Log, start: int, frontier: int, i: nat)
    requires start % HOUR == 0 && frontier % HOUR == 0 && UniqueKeys(t)
    requires AllCovered(log, t, Scope(start, frontier, None))
    requires i < |log| && InScope(log[i], Scope(start, frontier + HOUR, None))
    ensures Lookup(AfterHourly(log, t, frontier), KeyOf(log[i])).Some?
  {
    var k := KeyOf(log[i]);
    HourlyEffect(t, log, frontier, k);
    if log[i].ts >= frontier {
      HourOfUnique(log[i].ts, frontier);
      assert InScope(log[i], GroupScope(k));
      SumPositive(log, GroupScope(k));
    } else {
      assert InScope(log[i], Scope(start, frontier, None));
    }
  }

  lemma LookupAfterHourly(t: Table, log: Log, hour: int, r: Row)
    requires UniqueKeys(t) && r in AfterHourly(log, t, hour) && r.key.granularity == Hourly
    ensures (r.key.bucket == hour && Sum(log, GroupScope(r.key), Total) > 0 && r.total == Sum(log, GroupScope(r.key), Total))
            || r in t
  {
    HourlyEffect(t, log, hour, r.key);
    LookupUnique(AfterHourly(log, t, hour), r);
    LookupMember(t, r.key);
  }

  lemma NewHourReplaces(t: Table, log: Log, hour: int, r: Row)
    requires UniqueKeys(t) && r in AfterHourly(log, t, hour)
    requires r.key.granularity == Hourly && r.key.bucket == hour && Sum(log, GroupScope(r.key), Total) > 0
    ensures r.total == Sum(log, GroupScope(r.key), Total)
  {
    HourlyEffect(t, log, hour, r.key);
    LookupUnique(AfterHourly(log, t, hour), r);
  }

  lemma HourlyUpdates(t: Table, log: Log, start: int, frontier: int, r: Row)
    requires start % HOUR == 0 && frontier % HOUR == 0 && TableOk(t, log)
    requires AllUpToDate(t, log, Scope(start, frontier, None))
    requires r in AfterHourly(log, t, frontier) && RowInScope(r, Scope(start, frontier + HOUR, None))
    ensures UpToDate(r, log)
  {
    var n := Sum(log, GroupScope(r.key), Total);
    assert (r.key.bucket == frontier && n > 0 && r.total == n) || r in t by {
      LookupAfterHourly(t, log, frontier, r);
    }
    if r in t {
      var i :| 0 <= i < |t| && t[i] == r;
      if r.key.bucket < frontier {
        assert RowInScope(t[i], Scope(start, frontier, None));
      } else {
        RowBounds(r, log, Total);
        assert r.total <= n;
        assert r.total == n by { if n > 0 { NewHourReplaces(t, log, frontier, r); } }
      }
    }
  }

  /** After the hourly part of a punctual job, the new hour is complete as well. */
  lemma HourlyCompletes(t: Table, log: Log, start: int, frontier: int)
    requires start % HOUR == 0 && frontier % HOUR == 0 && start <= frontier
    requires TableOk(t, log) && Complete(t, log, Scope(start, frontier, None))
    ensures Complete(AfterHourly(log, t, frontier), log, Scope(start, frontier + HOUR, None))
  {
    var t' := AfterHourly(log, t, frontier);
    var s' := Scope(start, frontier + HOUR, None);
    forall i | 0 <= i < |log| && InScope(log[i], s') ensures Lookup(t', KeyOf(log[i])).Some? {
      HourlyCovers(t, log, start, frontier, i);
    }
    forall i | 0 <= i < |t'| && RowInScope(t'[i], s') ensures UpToDate(t'[i], log) {
      HourlyUpdates(t, log, start, frontier, t'[i]);
    }
  }

  lemma CompleteForOne(t: Table, log: Log, start: int, frontier: int, day: int, who: Who)
    requires Complete(t, log, Scope(start, frontier, None)) && start <= day && day + DAY <= frontier
    ensures Complete(t, log, DayScope(day, who))
  {
  }

  lemma DailyRowExact(t: Table, log: Log, day: int, who: Who)
    requires TableOk(t, log) && day % DAY == 0 && Complete(t, log, DayScope(day, who))
    ensures CountsAre(DailyRow(t, Key(day, Daily, who)), log, DayScope(day, who))
  {
    var s := DayScope(day, who);
    forall m | IsCount(m)
      ensures Get(DailyRow(t, Key(day, Daily, who)), m) == Sum(log, s, m)
    {
      RowsVersusRaw(t, log, s, m);
    }
  }

  lemma CoveredEventHasRow(t: Table, log: Log, s: Scope)
    requires Aligned(s) && AllCovered(log, t, s) && Sum(log, s, Total) > 0
    ensures HasRow(t, s)
  {
    SumPositive(log, s);
    var i :| 0 <= i < |log| && InScope(log[i], s);
    LookupMember(t, KeyOf(log[i]));
    var j :| 0 <= j < |t| && t[j].key == KeyOf(log[i]);
    HourInScope(log[i].ts, s.lo, s.hi);
    assert RowInScope(t[j], s);
  }

  lemma ExactByRow(t: Table, log: Log, day: int, who: Who)
    requires Lookup(t, Key(day, Daily, who)).Some?
    requires CountsAre(Lookup(t, Key(day, Daily, who)).value, log, DayScope(day, who))
    ensures DailyExact(t, log, day, who)
  {
  }

  lemma ExactByLookup(t: Table, t': Table, log: Log, day: int, who: Who)
    requires Lookup(t', Key(day, Daily, who)) == Lookup(t, Key(day, Daily, who))
    requires DailyExact(t, log, day, who)
      || (Lookup(t, Key(day, Daily, who)).None? && Sum(log, DayScope(day, who), Total) == 0)
    ensures DailyExact(t', log, day, who)
  {
  }

  /** The daily job over complete hours writes the exact day. */
  lemma DailyBecomesExact(t: Table, t': Table, log: Log, day: int, who: Who)
    requires TableOk(t, log) && day % DAY == 0 && Complete(t, log, DayScope(day, who)) && t' == AfterDaily(t, day)
    requires Lookup(t, Key(day, Daily, who)).None? || DailyExact(t, log, day, who)
    ensures DailyExact(t', log, day, who)
  {
    var k, s := Key(day, Daily, who), DayScope(day, who);
    if HasRow(t, s) {
      assert Lookup(t', k).Some? && CountsAre(Lookup(t', k).value, log, s) by {
        DailyEffect(t, day, k);
        DailyRowExact(t, log, day, who);
      }
      ExactByRow(t', log, day, who);
    } else {
      assert Lookup(t', k) == Lookup(t, k) by { DailyEffect(t, day, k); }
      DayAligned(day, who);
      NoRowNoEvents(t, log, s);
      ExactByLookup(t, t', log, day, who);
    }
  }

  lemma DayAligned(day: int, who: Who)
    requires day % DAY == 0
    ensures Aligned(DayScope(day, who))
  {
    var d := day / DAY;
    assert day == HOUR * (24 * d) && day + DAY == HOUR * (24 * d + 24);
    HourMultiple(24 * d);
    HourMultiple(24 * d + 24);
  }

  lemma HourMultiple(x: int)
    ensures (HOUR * x) % HOUR == 0
  {
  }

  lemma NoRowNoEvents(t: Table, log: Log, s: Scope)
    requires Aligned(s) && AllCovered(log, t, s) && !HasRow(t, s)
    ensures Sum(log, s, Total) == 0
  {
    if Sum(log, s, Total) > 0 { CoveredEventHasRow(t, log, s); }
  }

  lemma DailyKeepsComplete(t: Table, log: Log, day: int, s: Scope)
    requires TableOk(t, log) && Complete(t, log, s)
    ensures Complete(AfterDaily(t, day), log, s)
  {
    var t' := AfterDaily(t, day);
    DailyKeepsOk(t, log, day);
    forall i | 0 <= i < |log| && InScope(log[i], s) ensures Lookup(t', KeyOf(log[i])).Some? {
      DailyEffect(t, day, KeyOf(log[i]));
    }
    forall i | 0 <= i < |t'| && RowInScope(t'[i], s) ensures UpToDate(t'[i], log) {
      LookupUnique(t', t'[i]);
      DailyEffect(t, day, t'[i].key);
      LookupMember(t, t'[i].key);
    }
  }

  function PreviousDay(now: int): int {
    now - now % DAY - DAY
  }

  lemma HourWithinDay(now: int)
    ensures HourOf(now) % HOUR == 0
    ensures now - now % DAY <= HourOf(now) <= now
  {
  }

  /** A day that has ended by the current hour had ended by the previous one, unless the current
      hour is the first after midnight and the day is the one the job now aggregates. */
  lemma Midnight(now: int, day: int)
    requires day % DAY == 0
    ensures PreviousDay(now) + DAY <= HourOf(now)
    ensures day + DAY <= HourOf(now) ==>
              day + DAY <= HourOf(now) - HOUR || (day == PreviousDay(now) && now % DAY < 2 * HOUR)
  {
    HourWithinDay(now);
    var q, p := now / DAY, day / DAY;
    assert now - now % DAY == q * DAY && day == p * DAY;
    if day + DAY <= HourOf(now) && HourOf(now) - HOUR < day + DAY {
      assert p + 1 <= q by { assert (p + 1) * DAY <= now; }
      assert q <= p + 1;
    }
  }

  lemma HourlyKeepsDailyBefore(t: Table, log: Log, frontier: int, hour: int)
    requires UniqueKeys(t) && DailyRowsBefore(t, frontier)
    ensures DailyRowsBefore(AfterHourly(log, t, hour), frontier)
  {
    var t' := AfterHourly(log, t, hour);
    HourlyEffect(t, log, hour, Key(0, Hourly, Who(None, None)));
    forall i | 0 <= i < |t'| && t'[i].key.granularity == Daily ensures t'[i].key.bucket + DAY <= frontier {
      LookupUnique(t', t'[i]);
      HourlyEffect(t, log, hour, t'[i].key);
      LookupMember(t, t'[i].key);
    }
  }

  lemma DailyKeepsDailyBefore(t: Table, day: int, frontier: int)
    requires UniqueKeys(t) && DailyRowsBefore(t, frontier) && day + DAY <= frontier
    ensures DailyRowsBefore(AfterDaily(t, day), frontier)
  {
    var t' := AfterDaily(t, day);
    DailyEffect(t, day, Key(0, Hourly, Who(None, None)));
    forall i | 0 <= i < |t'| && t'[i].key.granularity == Daily ensures t'[i].key.bucket + DAY <= frontier {
      LookupUnique(t', t'[i]);
      DailyEffect(t, day, t'[i].key);
      LookupMember(t, t'[i].key);
    }
  }

  lemma JobKeepsDailyBefore(t: Table, log: Log, now: int, frontier: int)
    requires UniqueKeys(t) && DailyRowsBefore(t, frontier) && HourOf(now) == frontier + HOUR
    ensures DailyRowsBefore(AfterJob(log, t, now), frontier + HOUR)
  {
    var t1 := AfterHourly(log, t, frontier);
    assert UniqueKeys(t1) by { HourlyEffect(t, log, frontier, Key(0, Hourly, Who(None, None))); }
    assert DailyRowsBefore(t1, frontier) by { HourlyKeepsDailyBefore(t, log, frontier, frontier); }
    assert PreviousDay(now) + DAY <= frontier + HOUR by { Midnight(now, 0); }
    assert DailyRowsBefore(t1, frontier + HOUR);
    DailyKeepsDailyBefore(t1, PreviousDay(now), frontier + HOUR);
  }

  lemma NoDailyRowYet(t: Table, frontier: int, day: int, who: Who)
    requires DailyRowsBefore(t, frontier) && day + DAY > frontier
    ensures Lookup(t, Key(day, Daily, who)).None?
  {
    LookupMember(t, Key(day, Daily, who));
  }

  /** The hourly part of a job leaves daily rows alone. */
  lemma HourlyLeavesDay(t: Table, log: Log, start: int, frontier: int, day: int, who: Who)
    requires PunctualInv(Db(log, t), start, frontier)
    requires day % DAY == 0 && start <= day
    ensures Lookup(AfterHourly(log, t, frontier), Key(day, Daily, who)).None?
            || DailyExact(AfterHourly(log, t, frontier), log, day, who)
  {
    var t1 := AfterHourly(log, t, frontier);
    assert Lookup(t1, Key(day, Daily, who)) == Lookup(t, Key(day, Daily, who)) by {
      HourlyEffect(t, log, frontier, Key(day, Daily, who));
    }
    if day + DAY <= frontier {
      assert DailyExact(t, log, day, who);
      ExactByLookup(t, t1, log, day, who);
    } else {
      NoDailyRowYet(t, frontier, day, who);
    }
  }

  lemma JobLeavesDay(t: Table, log: Log, now: int, day: int, who: Who)
    requires UniqueKeys(t) && !(day == PreviousDay(now) && now % DAY < 2 * HOUR)
    ensures Lookup(AfterJob(log, t, now), Key(day, Daily, who)) == Lookup(t, Key(day, Daily, who))
  {
    var k, hour := Key(day, Daily, who), HourOf(now) - HOUR;
    HourlyEffect(t, log, hour, k);
    DailyEffect(AfterHourly(log, t, hour), PreviousDay(now), k);
  }

  lemma JobMakesExact(t: Table, log: Log, now: int, start: int, frontier: int, day: int, who: Who)
    requires PunctualInv(Db(log, t), start, frontier) && HourOf(now) == frontier + HOUR
    requires day % DAY == 0 && start <= day && day + DAY <= frontier + HOUR
    ensures DailyExact(AfterJob(log, t, now), log, day, who)
  {
    var t1, t2 := AfterHourly(log, t, frontier), AfterJob(log, t, now);
    HourlyLeavesDay(t, log, start, frontier, day, who);
    assert TableOk(t1, log) by { HourlyKeepsOk(t, log, frontier); }
    Midnight(now, day);
    if day == PreviousDay(now) && now % DAY < 2 * HOUR {
      assert Complete(t1, log, DayScope(day, who)) by {
        HourlyCompletes(t, log, start, frontier);
        CompleteForOne(t1, log, start, frontier + HOUR, day, who);
      }
      DailyBecomesExact(t1, t2, log, day, who);
    } else {
      assert DailyExact(t, log, day, who);
      JobLeavesDay(t, log, now, day, who);
      ExactByLookup(t, t2, log, day, who);
    }
  }

  lemma JobCompletes(t: Table, log: Log, now: int, start: int, frontier: int)
    requires PunctualInv(Db(log, t), start, frontier) && HourOf(now) == frontier + HOUR
    ensures Complete(AfterJob(log, t, now), log, Scope(start, frontier + HOUR, None))
  {
    var t1, s := AfterHourly(log, t, frontier), Scope(start, frontier + HOUR, None);
    assert TableOk(t1, log) by { HourlyKeepsOk(t, log, frontier); }
    assert Complete(t1, log, s) by { HourlyCompletes(t, log, start, frontier); }
    DailyKeepsComplete(t1, log, PreviousDay(now), s);
  }

  lemma PunctualJob(db: Db, now: int, start: int, frontier: int)
    requires PunctualInv(db, start, frontier) && HourOf(now) == frontier + HOUR
    ensures PunctualInv(Next(db, Job(now)), start, frontier + HOUR)
  {
    var t, log := db.rows, db.log;
    var t2 := AfterJob(log, t, now);
    var s := Scope(start, frontier + HOUR, None);
    assert TableOk(t2, log) by { StepKeepsOk(db, Job(now)); }
    assert Complete(t2, log, s) by { JobCompletes(t, log, now, start, frontier); }
    assert DailyRowsBefore(t2, frontier + HOUR) by { JobKeepsDailyBefore(t, log, now, frontier); }
    assert DaysExact(t2, log, start, frontier + HOUR) by {
      forall day, who | day % DAY == 0 && start <= day && day + DAY <= frontier + HOUR
        ensures DailyExact(t2, log, day, who)
      {
        JobMakesExact(t, log, now, start, frontier, day, who);
      }
    }
  }

  lemma {:induction false} PunctualRunKeeps(db: Db, ops: seq<Op>, start: int, frontier: int)
    requires PunctualInv(db, start, frontier) && Punctual(frontier, ops)
    ensures PunctualInv(Final(db, ops), start, Frontier(frontier, ops))
    decreases |ops|
  {
    if ops != [] {
      match ops[0]
      case Arrive(e) =>
        LateArrival(db, e, start, frontier);
        PunctualRunKeeps(Next(db, ops[0]), ops[1..], start, frontier);
      case Job(now) =>
        PunctualJob(db, now, start, frontier);
        PunctualRunKeeps(Next(db, ops[0]), ops[1..], start, frontier + HOUR);
    }
  }

  /** If the job runs once in every hour and no event arrives after its hour's job, then from the
      job just past midnight on, the daily rows of every ended day are the raw counts of that day,
      and every rolled-up hour is complete. */
  lemma EveryEndedDayIsExact(ops: seq<Op>, start: int, day: int, who: Who)
    requires start % HOUR == 0 && Punctual(start, ops)
    requires day % DAY == 0 && start <= day && day + DAY <= Frontier(start, ops)
    ensures var db := Final(Db([], []), ops);
            DailyExact(db.rows, db.log, day, who)
            && Complete(db.rows, db.log, Scope(start, Frontier(start, ops), None))
  {
    var empty := Db([], []);
    assert PunctualInv(empty, start, start);
    PunctualRunKeeps(empty, ops, start, start);
  }

  // ------------------------------------------------------------------ the backfill

  /** Each of the last n hours is rolled up from the raw events; every other key keeps its row. */
  lemma {:induction false} BackfilledLookup(log: Log, t: Table, currentHour: int, n: nat, k: Key)
    requires UniqueKeys(t) && currentHour % HOUR == 0
    ensures UniqueKeys(Backfilled(log, t, currentHour, n))
    ensures Lookup(Backfilled(log, t, currentHour, n), k) ==
            if k.granularity == Hourly && k.bucket % HOUR == 0 && currentHour - n * HOUR <= k.bucket < currentHour
               && Sum(log, GroupScope(k), Total) > 0
            then Some(HourlyRow(log, k)) else Lookup(t, k)
  {
    if n > 0 {
      BackfilledLookup(log, t, currentHour, n - 1, k);
      HourlyEffect(Backfilled(log, t, currentHour, n - 1), log, currentHour - n * HOUR, k);
      LastHour(currentHour, n, k.bucket);
    }
  }

  /** Among aligned hours the oldest of n is the only one that n - 1 leave out. */
  lemma LastHour(currentHour: int, n: nat, b: int)
    requires currentHour % HOUR == 0 && n > 0
    ensures (currentHour - n * HOUR) % HOUR == 0
    ensures b % HOUR == 0 && currentHour - n * HOUR <= b < currentHour - (n - 1) * HOUR <==> b == currentHour - n * HOUR
  {
    HourMultiple(currentHour / HOUR - n);
    assert currentHour == HOUR * (currentHour / HOUR);
    assert currentHour - n * HOUR == HOUR * (currentHour / HOUR - n);
    assert (n - 1) * HOUR == n * HOUR - HOUR;
  }

  lemma {:induction false} BackfillKeepsOk(log: Log, t: Table, currentHour: int, n: nat)
    requires TableOk(t, log) && currentHour % HOUR == 0
    ensures TableOk(Backfilled(log, t, currentHour, n), log)
  {
    if n > 0 {
      BackfillKeepsOk(log, t, currentHour, n - 1);
      LastHour(currentHour, n, 0);
      HourlyKeepsOk(Backfilled(log, t, currentHour, n - 1), log, currentHour - n * HOUR);
    }
  }

  /** After a backfill of n hours those hours are complete, whatever the table held. */
  lemma BackfillCompletes(log: Log, t: Table, currentHour: int, n: nat)
    requires TableOk(t, log) && currentHour % HOUR == 0
    ensures TableOk(Backfilled(log, t, currentHour, n), log)
    ensures Complete(Backfilled(log, t, currentHour, n), log, Scope(currentHour - n * HOUR, currentHour, None))
  {
    var t', s := Backfilled(log, t, currentHour, n), Scope(currentHour - n * HOUR, currentHour, None);
    BackfillKeepsOk(log, t, currentHour, n);
    forall i | 0 <= i < |log| && InScope(log[i], s) ensures Lookup(t', KeyOf(log[i])).Some? {
      BackfillCovers(log, t, currentHour, n, i);
    }
    forall i | 0 <= i < |t'| && RowInScope(t'[i], s) ensures UpToDate(t'[i], log) {
      LookupUnique(t', t'[i]);
      BackfillRefreshes(log, t, currentHour, n, t'[i]);
    }
  }

  lemma BackfillCovers(log: Log, t: Table, currentHour: int, n: nat, i: nat)
    requires UniqueKeys(t) && currentHour % HOUR == 0
    requires i < |log| && InScope(log[i], Scope(currentHour - n * HOUR, currentHour, None))
    ensures Lookup(Backfilled(log, t, currentHour, n), KeyOf(log[i])).Some?
  {
    var k := KeyOf(log[i]);
    BackfilledLookup(log, t, currentHour, n, k);
    assert (currentHour - n * HOUR) % HOUR == 0 by { if n > 0 { LastHour(currentHour, n, 0); } }
    HourInScope(log[i].ts, currentHour - n * HOUR, currentHour);
    HourOfUnique(log[i].ts, k.bucket);
    assert InScope(log[i], GroupScope(k));
    SumPositive(log, GroupScope(k));
  }

  lemma BackfillRefreshes(log: Log, t: Table, currentHour: int, n: nat, r: Row)
    requires TableOk(t, log) && currentHour % HOUR == 0
    requires Lookup(Backfilled(log, t, currentHour, n), r.key) == Some(r)
    requires RowInScope(r, Scope(currentHour - n * HOUR, currentHour, None)) && r.key.bucket % HOUR == 0
    ensures UpToDate(r, log)
  {
    BackfilledLookup(log, t, currentHour, n, r.key);
    if Sum(log, GroupScope(r.key), Total) == 0 {
      LookupMember(t, r.key);
      assert FromPrefix(r, log);
      RowBounds(r, log, Total);
    }
  }

  /** A job before 02:00 rolls up the day that ended, for every client and node with an hourly row. */
  lemma JobRollsDay(t: Table, log: Log, now: int, who: Who)
    requires UniqueKeys(t) && now % DAY < 2 * HOUR
    ensures var t1, k := AfterHourly(log, t, HourOf(now) - HOUR), Key(now - now % DAY - DAY, Daily, who);
            Lookup(AfterJob(log, t, now), k) ==
              if HasRow(t1, DayScope(k.bucket, who)) then Some(DailyRow(t1, k)) else Lookup(t1, k)
  {
    var t1, k := AfterHourly(log, t, HourOf(now) - HOUR), Key(now - now % DAY - DAY, Daily, who);
    assert AfterJob(log, t, now) == AfterDaily(t1, k.bucket);
    assert UniqueKeys(t1) by { HourlyEffect(t, log, HourOf(now) - HOUR, k); }
    DailyEffect(t1, k.bucket, k);
  }
}
