/** The agent's metrics queue and push loop (sync-agent/buffer.py, sync-agent/agent.py). The SQLite
    table is the list of its rows in id order; AUTOINCREMENT never reuses an id. */
module MetricsQueue {
  import opened Prelude

  /** `metrics` is absent when the stored JSON does not parse. */
  datatype Row = Row(id: nat, timestamp: int, metrics: Option<string>)

  type Queue = seq<Row>

  datatype PostOutcome = Accepted | AcceptedButLost | Refused

  ghost predicate Ascending(q: Queue) {
    forall i, j :: 0 <= i < j < |q| ==> q[i].id < q[j].id
  }

  /** The rows that parse. */
  function Items(q: Queue): Queue {
    if q == [] then []
    else
      var r := q[|q| - 1];
      Items(q[..|q| - 1]) + (if r.metrics.Some? then [r] else [])
  }

  /** The limit applies to rows; those that do not parse are then skipped. */
  function Peeked(q: Queue, limit: nat): Queue {
    Items(Take(q, limit))
  }

  /** How many posts succeed before the first that does not. */
  function AckedPrefix(outcomes: seq<PostOutcome>): nat {
    if outcomes == [] || outcomes[0] != Accepted then 0 else 1 + AckedPrefix(outcomes[1..])
  }

  function Ids(items: Queue): set<nat> {
    set i | 0 <= i < |items| :: items[i].id
  }

  function WithoutIds(q: Queue, ids: set<nat>): Queue {
    if q == [] then []
    else
      var r := q[|q| - 1];
      WithoutIds(q[..|q| - 1], ids) + (if r.id in ids then [] else [r])
  }

  function Pruned(q: Queue, cutoff: int): Queue {
    if q == [] then []
    else
      var r := q[|q| - 1];
      Pruned(q[..|q| - 1], cutoff) + (if r.timestamp < cutoff then [] else [r])
  }

  function Corrupted(q: Queue, id: nat): (q': Queue)
    ensures |q'| == |q|
  {
    seq(|q|, i requires 0 <= i < |q| => if q[i].id == id then q[i].(metrics := None) else q[i])
  }

  /** `accepted` lists what the primary inserted, in order; `shipped` and `aged` are the ids removed
      after acceptance and for age. */
  datatype State = State(queue: Queue, lastId: nat, accepted: seq<nat>, shipped: set<nat>, aged: set<nat>)

  datatype Step =
    | Put(timestamp: int, metrics: string)
    | Push(limit: nat, outcomes: seq<PostOutcome>, deletes: bool)   // dies before the delete if not
    | Prune(cutoff: int)
    | Corrupt(id: nat)            // the stored JSON no longer parses

  /** Items are posted in order up to the first failure; a lost acknowledgement still inserted. */
  function PostedIds(items: Queue, outcomes: seq<PostOutcome>): seq<nat>
    requires |outcomes| >= |items|
  {
    if items == [] || outcomes[0] == Refused then []
    else if outcomes[0] == AcceptedButLost then [items[0].id]
    else [items[0].id] + PostedIds(items[1..], outcomes[1..])
  }

  predicate Enabled(s: State, step: Step) {
    step.Push? ==> |step.outcomes| >= |Peeked(s.queue, step.limit)|
  }

  function Next(s: State, step: Step): State
    requires Enabled(s, step)
  {
    match step
    case Put(timestamp, metrics) =>
      s.(queue := s.queue + [Row(s.lastId + 1, timestamp, Some(metrics))], lastId := s.lastId + 1)
    case Push(limit, outcomes, deletes) =>
      var items := Peeked(s.queue, limit);
      var done := Ids(Take(items, AckedPrefix(outcomes)));
      var s' := s.(accepted := s.accepted + PostedIds(items, outcomes));
      if deletes then s'.(queue := WithoutIds(s.queue, done), shipped := s.shipped + done) else s'
    case Prune(cutoff) =>
      s.(queue := Pruned(s.queue, cutoff),
         aged := s.aged + (set i | 0 <= i < |s.queue| && s.queue[i].timestamp < cutoff :: s.queue[i].id))
    case Corrupt(id) => s.(queue := Corrupted(s.queue, id))
  }

  ghost predicate Queued(q: Queue, id: nat) {
    exists i :: 0 <= i < |q| && q[i].id == id
  }

  ghost predicate IdsOk(q: Queue, lastId: nat) {
    Ascending(q) && forall i :: 0 <= i < |q| ==> 1 <= q[i].id <= lastId
  }

  /** Shipped ids were accepted, and each id ever queued is queued, shipped or aged. */
  ghost predicate Settled(s: State) {
    && (forall x :: x in s.shipped ==> x in s.accepted && x <= s.lastId)
    && (forall id :: 1 <= id <= s.lastId ==> Queued(s.queue, id) || id in s.shipped || id in s.aged)
  }

  /** What is still queued and parses is newer than anything shipped. */
  ghost predicate Newer(q: Queue, shipped: set<nat>) {
    forall i, x :: 0 <= i < |q| && q[i].metrics.Some? && x in shipped ==> x < q[i].id
  }

  ghost predicate Inv(s: State) {
    IdsOk(s.queue, s.lastId) && Settled(s) && Newer(s.queue, s.shipped)
  }

  lemma {:induction false} WithoutIdsRows(q: Queue, ids: set<nat>)
    requires Ascending(q)
    ensures Ascending(WithoutIds(q, ids))
    ensures forall r :: r in WithoutIds(q, ids) <==> r in q && r.id !in ids
  {
    if q != [] {
      WithoutIdsRows(q[..|q| - 1], ids);
      assert q == q[..|q| - 1] + [q[|q| - 1]];
    }
  }

  lemma {:induction false} PrunedRows(q: Queue, cutoff: int)
    requires Ascending(q)
    ensures Ascending(Pruned(q, cutoff))
    ensures forall r :: r in Pruned(q, cutoff) <==> r in q && r.timestamp >= cutoff
  {
    if q != [] {
      PrunedRows(q[..|q| - 1], cutoff);
      assert q == q[..|q| - 1] + [q[|q| - 1]];
    }
  }

  /** The parsed rows keep their order. */
  lemma {:induction false} ItemsRows(q: Queue)
    requires Ascending(q)
    ensures Ascending(Items(q))
    ensures forall r :: r in Items(q) <==> r in q && r.metrics.Some?
  {
    if q != [] {
      ItemsRows(q[..|q| - 1]);
      assert q == q[..|q| - 1] + [q[|q| - 1]];
    }
  }

  lemma {:induction false} AckedWerePosted(items: Queue, outcomes: seq<PostOutcome>)
    requires |outcomes| >= |items|
    ensures forall x :: x in Ids(Take(items, AckedPrefix(outcomes))) ==> x in PostedIds(items, outcomes)
  {
    if items != [] && outcomes[0] == Accepted {
      AckedWerePosted(items[1..], outcomes[1..]);
      var done := Take(items, AckedPrefix(outcomes));
      assert forall i :: 0 < i < |done| ==> done[i] == Take(items[1..], AckedPrefix(outcomes[1..]))[i - 1];
    }
  }

  /** Whatever is left of the queue and parses is newer than every acknowledged item. */
  lemma LeftIsNewer(q: Queue, limit: nat, n: nat, r: Row, x: nat)
    requires Ascending(q)
    requires x in Ids(Take(Peeked(q, limit), n))
    requires r in q && r.metrics.Some? && r.id !in Ids(Take(Peeked(q, limit), n))
    ensures x < r.id
  {
    var front := Take(q, limit);
    var items := Items(front);
    ItemsRows(front);
    var i :| 0 <= i < |Take(items, n)| && Take(items, n)[i].id == x;
    var y := Take(items, n)[i];
    assert y in items && r !in Take(items, n);
  }

  lemma PushKeeps(s: State, step: Step)
    requires Inv(s) && step.Push? && Enabled(s, step)
    ensures Inv(Next(s, step))
  {
    var s' := Next(s, step);
    var n := AckedPrefix(step.outcomes);
    var done := Ids(Take(Peeked(s.queue, step.limit), n));
    assert forall x :: x in done ==> x in s'.accepted by { AckedWerePosted(Peeked(s.queue, step.limit), step.outcomes); }
    if step.deletes {
      var q' := WithoutIds(s.queue, done);
      assert IdsOk(q', s.lastId) && Newer(q', s.shipped + done) by { DeleteKeepsOrder(s, step.limit, n); }
      assert Settled(s') by {
        forall x | x in done ensures x <= s.lastId { PeekedIdKnown(s, step.limit, n, x); }
        forall id | 1 <= id <= s.lastId ensures Queued(q', id) || id in s'.shipped || id in s'.aged {
          if Queued(s.queue, id) && id !in done { StillQueued(s.queue, done, id); }
        }
      }
    }
  }

  lemma StillQueued(q: Queue, ids: set<nat>, id: nat)
    requires Ascending(q) && Queued(q, id) && id !in ids
    ensures Queued(WithoutIds(q, ids), id)
  {
    WithoutIdsRows(q, ids);
    var i :| 0 <= i < |q| && q[i].id == id;
    assert q[i] in WithoutIds(q, ids);
  }

  lemma DeleteKeepsOrder(s: State, limit: nat, n: nat)
    requires Inv(s)
    ensures var done := Ids(Take(Peeked(s.queue, limit), n));
            IdsOk(WithoutIds(s.queue, done), s.lastId) && Newer(WithoutIds(s.queue, done), s.shipped + done)
  {
    var done := Ids(Take(Peeked(s.queue, limit), n));
    var q' := WithoutIds(s.queue, done);
    WithoutIdsRows(s.queue, done);
    forall i | 0 <= i < |q'| ensures q'[i] in s.queue && q'[i].id !in done {
      assert q'[i] in q';
    }
    forall i, x | 0 <= i < |q'| && q'[i].metrics.Some? && x in s.shipped + done ensures x < q'[i].id {
      if x in done { LeftIsNewer(s.queue, limit, n, q'[i], x); }
    }
  }

  lemma PeekedIdKnown(s: State, limit: nat, n: nat, x: nat)
    requires Inv(s) && x in Ids(Take(Peeked(s.queue, limit), n))
    ensures x <= s.lastId
  {
    ItemsRows(Take(s.queue, limit));
    var items := Peeked(s.queue, limit);
    var i :| 0 <= i < |Take(items, n)| && Take(items, n)[i].id == x;
    assert items[i] in s.queue;
  }

  lemma PruneKeeps(s: State, cutoff: int)
    requires Inv(s)
    ensures Inv(Next(s, Prune(cutoff)))
  {
    var s' := Next(s, Prune(cutoff));
    PrunedRows(s.queue, cutoff);
    forall i | 0 <= i < |s'.queue| ensures s'.queue[i] in s.queue {
      assert s'.queue[i] in s'.queue;
    }
    forall id | 1 <= id <= s.lastId ensures Queued(s'.queue, id) || id in s'.shipped || id in s'.aged {
      if Queued(s.queue, id) {
        var i :| 0 <= i < |s.queue| && s.queue[i].id == id;
        if s.queue[i].timestamp >= cutoff { assert s.queue[i] in s'.queue; }
      }
    }
  }

  lemma PutKeeps(s: State, step: Step)
    requires Inv(s) && step.Put?
    ensures Inv(Next(s, step))
  {
    var s' := Next(s, step);
    forall id | 1 <= id <= s'.lastId ensures Queued(s'.queue, id) || id in s'.shipped || id in s'.aged {
      if id == s'.lastId {
        assert s'.queue[|s.queue|].id == id;
      } else if Queued(s.queue, id) {
        var i :| 0 <= i < |s.queue| && s.queue[i].id == id;
        assert s'.queue[i].id == id;
      }
    }
  }

  lemma CorruptKeeps(s: State, id: nat)
    requires Inv(s)
    ensures Inv(Next(s, Corrupt(id)))
  {
    var s' := Next(s, Corrupt(id));
    forall x | 1 <= x <= s'.lastId ensures Queued(s'.queue, x) || x in s'.shipped || x in s'.aged {
      if Queued(s.queue, x) {
        var i :| 0 <= i < |s.queue| && s.queue[i].id == x;
        assert s'.queue[i].id == x;
      }
    }
  }

  lemma StepKeeps(s: State, step: Step)
    requires Inv(s) && Enabled(s, step)
    ensures Inv(Next(s, step))
  {
    match step
    case Put(_, _) => PutKeeps(s, step);
    case Push(_, _, _) => PushKeeps(s, step);
    case Prune(cutoff) => PruneKeeps(s, cutoff);
    case Corrupt(id) => CorruptKeeps(s, id);
  }

  ghost predicate Runs(s: State, steps: seq<Step>)
    decreases |steps|
  {
    steps == [] || (Enabled(s, steps[0]) && Runs(Next(s, steps[0]), steps[1..]))
  }

  ghost function Final(s: State, steps: seq<Step>): State
    requires Runs(s, steps)
    decreases |steps|
  {
    if steps == [] then s else Final(Next(s, steps[0]), steps[1..])
  }

  /** In every run of puts, pushes that fail or die anywhere, prunes and damage to rows: a sample
      leaves the queue only after the primary accepted it or for age, and every queued sample that
      parses is newer than every sample removed after acceptance. A crash between steps changes
      nothing on disk. */
  lemma {:induction false} EveryRunKeeps(s: State, steps: seq<Step>)
    requires Inv(s) && Runs(s, steps)
    ensures Inv(Final(s, steps))
    decreases |steps|
  {
    if steps != [] {
      StepKeeps(s, steps[0]);
      EveryRunKeeps(Next(s, steps[0]), steps[1..]);
    }
  }

  // ------------------------------------------------------------------ the order of all queued ids

  const EMPTY: State := State([], 0, [], {}, {})

  ghost predicate AllParse(q: Queue) {
    forall i :: 0 <= i < |q| ==> q[i].metrics.Some?
  }

  /** Every queued id, parsed or not, is greater than every id removed after acceptance. */
  ghost predicate Ordered(s: State) {
    forall i, x :: 0 <= i < |s.queue| && x in s.shipped ==> x < s.queue[i].id
  }

  lemma StepParses(s: State, step: Step)
    requires Inv(s) && AllParse(s.queue) && Enabled(s, step) && !step.Corrupt?
    ensures AllParse(Next(s, step).queue)
  {
    var q' := Next(s, step).queue;
    match step
    case Put(_, _) =>
    case Push(limit, outcomes, deletes) =>
      WithoutIdsRows(s.queue, Ids(Take(Peeked(s.queue, limit), AckedPrefix(outcomes))));
      assert forall i :: 0 <= i < |q'| ==> q'[i] in q';
    case Prune(cutoff) =>
      PrunedRows(s.queue, cutoff);
      assert forall i :: 0 <= i < |q'| ==> q'[i] in q';
  }

  lemma {:induction false} ParsedRunKeeps(s: State, steps: seq<Step>)
    requires Inv(s) && AllParse(s.queue) && Runs(s, steps) && forall i :: 0 <= i < |steps| ==> !steps[i].Corrupt?
    ensures Inv(Final(s, steps)) && AllParse(Final(s, steps).queue)
    decreases |steps|
  {
    if steps != [] {
      StepKeeps(s, steps[0]);
      StepParses(s, steps[0]);
      ParsedRunKeeps(Next(s, steps[0]), steps[1..]);
    }
  }

  /** In every run from the empty queue in which no row is damaged, every id still queued is greater
      than every id removed after acceptance. */
  lemma EveryRunIsOrdered(steps: seq<Step>)
    requires Runs(EMPTY, steps) && forall i :: 0 <= i < |steps| ==> !steps[i].Corrupt?
    ensures Ordered(Final(EMPTY, steps))
  {
    ParsedRunKeeps(EMPTY, steps);
  }

  /** Damaged rows have nothing but damaged rows behind them. */
  ghost predicate DamagedLast(q: Queue) {
    forall i, j :: 0 <= i < j < |q| && q[i].metrics.None? ==> q[j].metrics.None?
  }

  ghost predicate PushKeepsOrder(s: State, limit: nat, outcomes: seq<PostOutcome>) {
    Enabled(s, Push(limit, outcomes, true)) ==> Ordered(Next(s, Push(limit, outcomes, true)))
  }

  lemma {:induction false} AllAcked(outcomes: seq<PostOutcome>)
    requires forall i :: 0 <= i < |outcomes| ==> outcomes[i] == Accepted
    ensures AckedPrefix(outcomes) == |outcomes|
  {
    if outcomes != [] { AllAcked(outcomes[1..]); }
  }

  lemma ItemsAtMost(q: Queue)
    ensures |Items(q)| <= |q|
  {
  }

  /** When all posts are acknowledged, exactly what was peeked is shipped and leaves the queue. */
  lemma AllAcceptedPush(s: State, limit: nat)
    requires Ascending(s.queue)
    ensures var push := Push(limit, seq(|s.queue|, _ => Accepted), true);
            && Enabled(s, push)
            && Next(s, push).shipped == s.shipped + Ids(Peeked(s.queue, limit))
            && (forall r :: r in Next(s, push).queue <==> r in s.queue && r.id !in Ids(Peeked(s.queue, limit)))
  {
    var items, outcomes := Peeked(s.queue, limit), seq(|s.queue|, _ => Accepted);
    ItemsAtMost(Take(s.queue, limit));
    AllAcked(outcomes);
    assert Take(items, |s.queue|) == items;
    WithoutIdsRows(s.queue, Ids(items));
  }

  /** A push that ships the row at j past a damaged row at i. */
  lemma PushBreaksOrder(s: State, limit: nat, i: nat, j: nat)
    requires Inv(s) && i < j < |Take(s.queue, limit)| && s.queue[i].metrics.None? && s.queue[j].metrics.Some?
    ensures !PushKeepsOrder(s, limit, seq(|s.queue|, _ => Accepted))
  {
    var q, front, items := s.queue, Take(s.queue, limit), Peeked(s.queue, limit);
    AllAcceptedPush(s, limit);
    var s' := Next(s, Push(limit, seq(|q|, _ => Accepted), true));
    ItemsRows(front);
    assert front[j] == q[j] && q[j] in items;
    assert q[j].id in s'.shipped;
    assert q[i].id !in Ids(items) by {
      if q[i].id in Ids(items) { RowOfId(q, q[i], items); }
    }
    assert q[i] in s'.queue;
  }

  lemma DamagedLastKeepsOrder(s: State, limit: nat, outcomes: seq<PostOutcome>)
    requires Inv(s) && Ordered(s) && DamagedLast(Take(s.queue, limit))
    ensures PushKeepsOrder(s, limit, outcomes)
  {
    var step := Push(limit, outcomes, true);
    if Enabled(s, step) {
      var q, s', n := s.queue, Next(s, step), AckedPrefix(outcomes);
      var done := Ids(Take(Peeked(q, limit), n));
      WithoutIdsRows(q, done);
      forall k, x | 0 <= k < |s'.queue| && x in s'.shipped ensures x < s'.queue[k].id {
        var r := s'.queue[k];
        assert r in s'.queue;
        if x in done {
          if r.metrics.Some? {
            LeftIsNewer(q, limit, n, r, x);
          } else {
            var y := PeekedRow(q, limit, n, x);
            DamagedIsNewer(q, limit, r, y);
          }
        }
      }
    }
  }

  lemma DamagedIsNewer(q: Queue, limit: nat, r: Row, y: Row)
    requires Ascending(q) && DamagedLast(Take(q, limit))
    requires r in q && r.metrics.None? && y in Take(q, limit) && y.metrics.Some?
    ensures y.id < r.id
  {
    var i :| 0 <= i < |q| && q[i] == r;
    var j :| 0 <= j < |Take(q, limit)| && Take(q, limit)[j] == y;
    assert q[j] == y;
    if i < |Take(q, limit)| { assert Take(q, limit)[i] == r; }
  }

  lemma PeekedRow(q: Queue, limit: nat, n: nat, x: nat) returns (y: Row)
    requires Ascending(q) && x in Ids(Take(Peeked(q, limit), n))
    ensures y in Take(q, limit) && y.id == x && y.metrics.Some?
  {
    ItemsRows(Take(q, limit));
    var items := Peeked(q, limit);
    var i :| 0 <= i < |Take(items, n)| && Take(items, n)[i].id == x;
    y := items[i];
    assert y in items;
  }

  /** With damaged rows the order survives every push of a given limit (the agent's is 50) exactly
      when, among the rows within the limit, none that parses lies behind a damaged one. */
  lemma OrderSurvivesIff(s: State, limit: nat)
    requires Inv(s) && Ordered(s)
    ensures (forall outcomes :: PushKeepsOrder(s, limit, outcomes)) <==> DamagedLast(Take(s.queue, limit))
  {
    var front := Take(s.queue, limit);
    if DamagedLast(front) {
      forall outcomes ensures PushKeepsOrder(s, limit, outcomes) {
        DamagedLastKeepsOrder(s, limit, outcomes);
      }
    } else {
      var i, j :| 0 <= i < j < |front| && front[i].metrics.None? && front[j].metrics.Some?;
      PushBreaksOrder(s, limit, i, j);
    }
  }

  // ------------------------------------------------------------------ exactly once

  /** No queued row is at the primary already. */
  ghost predicate Unsent(s: State) {
    forall i :: 0 <= i < |s.queue| ==> s.queue[i].id !in s.accepted
  }

  /** The primary inserted a sample whose acknowledgement the agent did not get. */
  predicate AckLost(s: State, step: Step) {
    step.Push?
    && var n := AckedPrefix(step.outcomes);
       n < |Peeked(s.queue, step.limit)| && n < |step.outcomes| && step.outcomes[n] == AcceptedButLost
  }

  /** The agent died between an accepted post and the delete. */
  predicate DiedBeforeDelete(s: State, step: Step) {
    step.Push? && !step.deletes
    && Peeked(s.queue, step.limit) != [] && step.outcomes != [] && step.outcomes[0] != Refused
  }

  predicate Faulty(s: State, step: Step) {
    AckLost(s, step) || DiedBeforeDelete(s, step)
  }

  lemma {:induction false} PostedOnce(items: Queue, outcomes: seq<PostOutcome>)
    requires |outcomes| >= |items| && Ascending(items)
    ensures NoDuplicates(PostedIds(items, outcomes))
    ensures forall x :: x in PostedIds(items, outcomes) ==> x in Ids(items)
    decreases |items|
  {
    if items != [] && outcomes[0] == Accepted {
      PostedOnce(items[1..], outcomes[1..]);
      assert forall x :: x in Ids(items) <==> x == items[0].id || x in Ids(items[1..]);
      assert items[0].id !in Ids(items[1..]);
    }
  }

  /** What was inserted: the acknowledged items, and one more if its acknowledgement was lost. */
  lemma {:induction false} PostedAre(items: Queue, outcomes: seq<PostOutcome>, x: nat)
    requires |outcomes| >= |items|
    ensures var n := AckedPrefix(outcomes);
            x in PostedIds(items, outcomes) <==>
              x in Ids(Take(items, n)) || (n < |items| && outcomes[n] == AcceptedButLost && x == items[n].id)
    decreases |items|
  {
    if items != [] && outcomes[0] == Accepted {
      var rest, n := items[1..], AckedPrefix(outcomes);
      PostedAre(rest, outcomes[1..], x);
      assert Take(items, n)[1..] == Take(rest, n - 1);
    } else if items != [] {
      assert Take(items, 0) == [];
    }
  }

  lemma IdsSnoc(items: Queue, r: Row)
    ensures Ids(items + [r]) == Ids(items) + {r.id}
  {
    assert (items + [r])[|items|] == r;
    forall x | x in Ids(items) ensures x in Ids(items + [r]) {
      var i :| 0 <= i < |items| && items[i].id == x;
      assert (items + [r])[i].id == x;
    }
  }

  lemma PeekedAscending(q: Queue, limit: nat)
    requires Ascending(q)
    ensures Ascending(Peeked(q, limit)) && forall r :: r in Peeked(q, limit) ==> r in q && r.metrics.Some?
  {
    ItemsRows(Take(q, limit));
  }

  lemma RowOfId(q: Queue, r: Row, items: Queue)
    requires Ascending(q) && r in q && r.id in Ids(items) && forall y :: y in items ==> y in q
    ensures r in items
  {
    var i :| 0 <= i < |items| && items[i].id == r.id;
    assert items[i] in items;
  }

  /** What the primary has after a push. */
  lemma AcceptedAfter(s: State, step: Step, x: nat)
    requires Inv(s) && step.Push? && Enabled(s, step)
    ensures var items, n := Peeked(s.queue, step.limit), AckedPrefix(step.outcomes);
            x in Next(s, step).accepted <==>
              x in s.accepted || x in Ids(Take(items, n)) || (AckLost(s, step) && x == items[n].id)
  {
    PeekedAscending(s.queue, step.limit);
    PostedAre(Peeked(s.queue, step.limit), step.outcomes, x);
  }

  lemma LostAckLeavesSent(s: State, step: Step)
    requires Inv(s) && step.Push? && Enabled(s, step) && AckLost(s, step)
    ensures !Unsent(Next(s, step))
  {
    var items, n, s' := Peeked(s.queue, step.limit), AckedPrefix(step.outcomes), Next(s, step);
    PeekedAscending(s.queue, step.limit);
    var r := items[n];
    assert r in items && r in s.queue;
    AcceptedAfter(s, step, r.id);
    assert r in s'.queue by {
      WithoutIdsRows(s.queue, Ids(Take(items, n)));
    }
  }

  lemma DeathLeavesSent(s: State, step: Step)
    requires Inv(s) && step.Push? && Enabled(s, step) && DiedBeforeDelete(s, step) && !AckLost(s, step)
    ensures !Unsent(Next(s, step))
  {
    var items, n := Peeked(s.queue, step.limit), AckedPrefix(step.outcomes);
    PeekedAscending(s.queue, step.limit);
    assert items[0] in items && items[0] in s.queue;
    assert n > 0;
    assert Take(items, n)[0] == items[0];
    AcceptedAfter(s, step, items[0].id);
  }

  lemma CleanPushLeavesUnsent(s: State, step: Step)
    requires Inv(s) && Unsent(s) && step.Push? && Enabled(s, step) && !Faulty(s, step)
    ensures Unsent(Next(s, step))
  {
    var items, n, s' := Peeked(s.queue, step.limit), AckedPrefix(step.outcomes), Next(s, step);
    var done := Ids(Take(items, n));
    WithoutIdsRows(s.queue, done);
    forall i | 0 <= i < |s'.queue| ensures s'.queue[i].id !in s'.accepted {
      var r := s'.queue[i];
      assert r in s'.queue && r in s.queue;
      AcceptedAfter(s, step, r.id);
    }
  }

  /** From a queue of samples the primary does not have, a push leaves one that it has exactly when
      an acknowledgement was lost or the agent died before the delete. */
  lemma PushLeavesSentIff(s: State, step: Step)
    requires Inv(s) && Unsent(s) && step.Push? && Enabled(s, step)
    ensures Unsent(Next(s, step)) <==> !Faulty(s, step)
  {
    if AckLost(s, step) {
      LostAckLeavesSent(s, step);
    } else if DiedBeforeDelete(s, step) {
      DeathLeavesSent(s, step);
    } else {
      CleanPushLeavesUnsent(s, step);
    }
  }

  /** The primary has no sample twice, and none that is still queued. */
  ghost predicate Once(s: State) {
    && NoDuplicates(s.accepted)
    && (forall x :: x in s.accepted ==> x <= s.lastId)
    && Unsent(s)
  }

  lemma NoDuplicatesConcat(a: seq<nat>, b: seq<nat>)
    ensures NoDuplicates(a + b) <==> NoDuplicates(a) && NoDuplicates(b) && forall x :: x in a ==> x !in b
  {
    if NoDuplicates(a + b) {
      forall i, j | 0 <= i < j < |a| ensures a[i] != a[j] { assert (a + b)[i] != (a + b)[j]; }
      forall i, j | 0 <= i < j < |b| ensures b[i] != b[j] { assert (a + b)[|a| + i] != (a + b)[|a| + j]; }
    }
    forall x | x in a && x in b ensures !NoDuplicates(a + b) {
      var i :| 0 <= i < |a| && a[i] == x;
      var j :| 0 <= j < |b| && b[j] == x;
      assert (a + b)[i] == (a + b)[|a| + j];
    }
    if NoDuplicates(a) && NoDuplicates(b) && forall x :: x in a ==> x !in b {
      forall i, j | 0 <= i < j < |a + b| ensures (a + b)[i] != (a + b)[j] {
        if i < |a| <= j { assert a[i] in a && b[j - |a|] in b; }
      }
    }
  }

  lemma PushInsertsOnce(s: State, step: Step)
    requires Inv(s) && Once(s) && step.Push? && Enabled(s, step)
    ensures NoDuplicates(Next(s, step).accepted)
    ensures forall x :: x in Next(s, step).accepted ==> x <= s.lastId
  {
    var q, items := s.queue, Peeked(s.queue, step.limit);
    var posted := PostedIds(items, step.outcomes);
    PeekedAscending(q, step.limit);
    PostedOnce(items, step.outcomes);
    forall x | x in posted ensures x <= s.lastId && x !in s.accepted {
      var i :| 0 <= i < |items| && items[i].id == x;
      assert items[i] in items;
    }
    NoDuplicatesConcat(s.accepted, posted);
  }

  lemma StepKeepsOnce(s: State, step: Step)
    requires Inv(s) && Once(s) && Enabled(s, step) && !Faulty(s, step)
    ensures Once(Next(s, step))
  {
    var s' := Next(s, step);
    match step
    case Put(_, _) =>
    case Push(_, _, _) =>
      PushInsertsOnce(s, step);
      PushLeavesSentIff(s, step);
    case Prune(cutoff) =>
      PrunedRows(s.queue, cutoff);
      assert forall i :: 0 <= i < |s'.queue| ==> s'.queue[i] in s'.queue && s'.queue[i] in s.queue;
    case Corrupt(id) =>
      assert forall i :: 0 <= i < |s'.queue| ==> s'.queue[i].id == s.queue[i].id;
  }

  ghost predicate FaultFree(s: State, steps: seq<Step>)
    requires Runs(s, steps)
    decreases |steps|
  {
    steps != [] ==> !Faulty(s, steps[0]) && FaultFree(Next(s, steps[0]), steps[1..])
  }

  lemma {:induction false} FaultFreeRunKeeps(s: State, steps: seq<Step>)
    requires Inv(s) && Once(s) && Runs(s, steps) && FaultFree(s, steps)
    ensures Inv(Final(s, steps)) && Once(Final(s, steps))
    decreases |steps|
  {
    if steps != [] {
      StepKeeps(s, steps[0]);
      StepKeepsOnce(s, steps[0]);
      FaultFreeRunKeeps(Next(s, steps[0]), steps[1..]);
    }
  }

  /** In every run from the empty queue without those two faults, whatever posts are refused, rows
      damaged or aged, each sample ever put is queued, aged, or inserted exactly once. */
  lemma FaultFreeRunsDeliverOnce(steps: seq<Step>)
    requires Runs(EMPTY, steps) && FaultFree(EMPTY, steps)
    ensures var s := Final(EMPTY, steps);
            && NoDuplicates(s.accepted)
            && forall id :: 1 <= id <= s.lastId ==> Queued(s.queue, id) || id in s.aged || id in s.accepted
  {
    FaultFreeRunKeeps(EMPTY, steps);
  }

  /** None of the rows a push would post was inserted before. */
  ghost predicate PeekedUnsent(s: State, limit: nat) {
    forall r :: r in Peeked(s.queue, limit) ==> r.id !in s.accepted
  }

  ghost predicate PushIsNew(s: State, step: Step) {
    step.Push? && Enabled(s, step) ==> NoDuplicates(Next(s, step).accepted)
  }

  /** Once a fault has left an inserted sample queued, a later push may insert it again: no push of a
      given limit can duplicate exactly when no row it would post was inserted before. */
  lemma DuplicateIff(s: State, limit: nat)
    requires Inv(s) && NoDuplicates(s.accepted)
    ensures (forall outcomes, deletes :: PushIsNew(s, Push(limit, outcomes, deletes))) <==> PeekedUnsent(s, limit)
  {
    if PeekedUnsent(s, limit) {
      forall outcomes, deletes ensures PushIsNew(s, Push(limit, outcomes, deletes)) {
        if Enabled(s, Push(limit, outcomes, deletes)) { FreshPush(s, Push(limit, outcomes, deletes)); }
      }
    } else {
      var r :| r in Peeked(s.queue, limit) && r.id in s.accepted;
      RepeatedPush(s, limit, r);
    }
  }

  lemma FreshPush(s: State, step: Step)
    requires Inv(s) && NoDuplicates(s.accepted) && step.Push? && Enabled(s, step)
    requires PeekedUnsent(s, step.limit)
    ensures NoDuplicates(Next(s, step).accepted)
  {
    var items := Peeked(s.queue, step.limit);
    var posted := PostedIds(items, step.outcomes);
    PeekedAscending(s.queue, step.limit);
    PostedOnce(items, step.outcomes);
    forall x | x in posted ensures x !in s.accepted {
      var i :| 0 <= i < |items| && items[i].id == x;
      assert items[i] in items;
    }
    NoDuplicatesConcat(s.accepted, posted);
  }

  lemma RepeatedPush(s: State, limit: nat, r: Row)
    requires Inv(s) && r in Peeked(s.queue, limit) && r.id in s.accepted
    ensures !PushIsNew(s, Push(limit, seq(|s.queue|, _ => Accepted), true))
  {
    var items, outcomes := Peeked(s.queue, limit), seq(|s.queue|, _ => Accepted);
    AllAcceptedPush(s, limit);
    AllAcked(outcomes);
    ItemsAtMost(Take(s.queue, limit));
    assert Take(items, |s.queue|) == items;
    var i :| 0 <= i < |items| && items[i] == r;
    PostedAre(items, outcomes, r.id);
    NoDuplicatesConcat(s.accepted, PostedIds(items, outcomes));
  }

  /** Unlike the event pipeline, a retry after a lost acknowledgement inserts the sample again. */
  lemma RetryDuplicates(r: Row, lastId: nat, accepted: seq<nat>)
    requires r.metrics.Some? && 1 <= r.id <= lastId
    ensures var s := State([r], lastId, accepted, {}, {});
            var lost, again := Push(1, [AcceptedButLost], true), Push(1, [Accepted], true);
            && Enabled(s, lost) && Enabled(Next(s, lost), again)
            && Next(Next(s, lost), again).accepted == accepted + [r.id, r.id]
  {
    var q := [r];
    var s := State(q, lastId, accepted, {}, {});
    assert q[..0] == [] && q[1..] == [] && Take(q, 1) == q;
    assert Items(q) == Items([]) + [r];
    assert Peeked(q, 1) == q;
    assert PostedIds(q, [AcceptedButLost]) == [r.id];
    assert PostedIds(q, [Accepted]) == [r.id];
    assert Take(q, AckedPrefix([AcceptedButLost])) == [];
    assert WithoutIds(q, Ids([])) == q;
    var s1 := Next(s, Push(1, [AcceptedButLost], true));
    assert s1.queue == q && s1.accepted == accepted + [r.id];
    assert accepted + [r.id] + [r.id] == accepted + [r.id, r.id];
  }

  lemma ItemsSnoc(q: Queue, r: Row)
    ensures Items(q + [r]) == Items(q) + (if r.metrics.Some? then [r] else [])
  {
  }

  lemma WithoutIdsSnoc(q: Queue, r: Row, ids: set<nat>)
    ensures WithoutIds(q + [r], ids) == WithoutIds(q, ids) + (if r.id in ids then [] else [r])
  {
  }

  lemma PushPastDamaged(s: State, a: Row, b: Row)
    requires s.queue == [a, b] && a.metrics.None? && b.metrics.Some? && a.id != b.id
    ensures var push := Push(2, [Accepted], true);
            Enabled(s, push) && Next(s, push).queue == [a] && Next(s, push).shipped == s.shipped + {b.id}
  {
    var q := s.queue;
    ItemsSnoc([], a);
    ItemsSnoc([a], b);
    assert [] + [a] == [a] && [a] + [b] == q && Take(q, 2) == q;
    assert Peeked(q, 2) == [b];
    AllAcked([Accepted]);
    assert Take([b], 1) == [b];
    assert Ids([b]) == {b.id} by { assert [b][0].id == b.id; }
    WithoutIdsSnoc([], a, {b.id});
    WithoutIdsSnoc([a], b, {b.id});
  }

  /** Why damage matters: of two samples the older is damaged, skipped and stays, while the newer
      is shipped past it. */
  lemma CorruptedRowStaysBehind(t: int, older: string, newer: string) returns (steps: seq<Step>)
    ensures Runs(EMPTY, steps)
    ensures var s := Final(EMPTY, steps);
            2 in s.shipped && s.queue == [Row(1, t, None)] && !Ordered(s)
  {
    var a, b := Row(1, t, None), Row(2, t, Some(newer));
    var s1 := Next(EMPTY, Put(t, older));
    var s2 := Next(s1, Put(t, newer));
    var s3 := Next(s2, Corrupt(1));
    assert s2.queue == [a.(metrics := Some(older)), b] && s3.queue == [a, b];
    var push := Push(2, [Accepted], true);
    PushPastDamaged(s3, a, b);
    var s4 := Next(s3, push);
    assert s4.queue[0].id == 1;
    RunsCons(s3, push, []);
    RunsCons(s2, Corrupt(1), [push] + []);
    RunsCons(s1, Put(t, newer), [Corrupt(1)] + ([push] + []));
    RunsCons(EMPTY, Put(t, older), [Put(t, newer)] + ([Corrupt(1)] + ([push] + [])));
    steps := [Put(t, older)] + ([Put(t, newer)] + ([Corrupt(1)] + ([push] + [])));
  }

  lemma RunsCons(s: State, step: Step, rest: seq<Step>)
    requires Enabled(s, step) && Runs(Next(s, step), rest)
    ensures Runs(s, [step] + rest) && Final(s, [step] + rest) == Final(Next(s, step), rest)
  {
  }

  /** Head-of-line blocking: the push finds nothing to send exactly when the rows within its limit
      all fail to parse, whatever waits behind them. */
  lemma {:induction false} NothingToSendIff(q: Queue)
    ensures Items(q) == [] <==> forall i :: 0 <= i < |q| ==> q[i].metrics.None?
  {
    if q != [] {
      NothingToSendIff(q[..|q| - 1]);
      assert q == q[..|q| - 1] + [q[|q| - 1]];
      if Items(q) == [] {
        assert forall i :: 0 <= i < |q| - 1 ==> q[i] == q[..|q| - 1][i];
      } else if Items(q[..|q| - 1]) != [] {
        var i :| 0 <= i < |q[..|q| - 1]| && q[..|q| - 1][i].metrics.Some?;
        assert q[i].metrics.Some?;
      }
    }
  }

  // ------------------------------------------------------------------ the queue, in place

  class MetricsBuffer {
    var queue: Queue
    var lastId: nat

    constructor ()
      ensures queue == [] && lastId == 0
    {
      queue := [];
      lastId := 0;
    }

    method Put(metrics: string, timestamp: int)
      modifies this
      ensures queue == old(queue) + [Row(old(lastId) + 1, timestamp, Some(metrics))] && lastId == old(lastId) + 1
    {
      lastId := lastId + 1;
      queue := queue + [Row(lastId, timestamp, Some(metrics))];
    }

    method Peek(limit: nat) returns (results: Queue)
      ensures results == Peeked(queue, limit)
    {
      results := [];
      var rows := Take(queue, limit);
      for i := 0 to |rows|
        invariant results == Items(rows[..i])
      {
        assert rows[..i + 1][..i] == rows[..i];
        if rows[i].metrics.Some? {
          results := results + [rows[i]];
        }
      }
      assert rows[..|rows|] == rows;
    }

    method Delete(ids: set<nat>)
      modifies this`queue
      ensures queue == WithoutIds(old(queue), ids)
    {
      queue := WithoutIds(queue, ids);
    }

    /** The push loop of the agent: it stops at the first failure and deletes what was accepted. */
    method PushPending(limit: nat, outcomes: seq<PostOutcome>) returns (pushed: nat)
      requires |outcomes| >= |Peeked(queue, limit)|
      modifies this`queue
      ensures pushed == Min(AckedPrefix(outcomes), |Peeked(old(queue), limit)|)
      ensures pushed > 0 ==> queue == WithoutIds(old(queue), Ids(Take(Peeked(old(queue), limit), AckedPrefix(outcomes))))
      ensures pushed == 0 ==> queue == old(queue)
    {
      var pending := Peek(limit);
      var done: set<nat> := {};
      pushed := 0;
      while pushed < |pending| && outcomes[pushed] == Accepted
        invariant pushed <= |pending|
        invariant done == Ids(pending[..pushed])
        invariant AckedPrefix(outcomes) == pushed + AckedPrefix(outcomes[pushed..])
        invariant queue == old(queue)
      {
        assert outcomes[pushed..][1..] == outcomes[pushed + 1..];
        IdsSnoc(pending[..pushed], pending[pushed]);
        assert pending[..pushed + 1] == pending[..pushed] + [pending[pushed]];
        done := done + {pending[pushed].id};
        pushed := pushed + 1;
      }
      assert Take(pending, AckedPrefix(outcomes)) == pending[..pushed];
      if pushed > 0 {
        Delete(done);
      }
    }
  }
}
