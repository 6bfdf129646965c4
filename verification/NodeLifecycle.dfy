/** Node states: heartbeats and the other contacts (admin-ui/app/routers/node_sync.py) and the
    periodic transitions (admin-ui/app/services/scheduler.py). Times and limits are in minutes. */
module NodeLifecycle {
  import opened Prelude

  datatype Status = Pending | Active | Stale | Offline | Quarantine | Error

  datatype Node = Node(status: Status, lastSeen: Option<int>)

  datatype Limits = Limits(stale: int, offline: int, quarantine: int)

  ghost predicate Ordered(l: Limits) {
    0 <= l.stale <= l.offline <= l.quarantine
  }

  /** A contact is a registration, an ingest or a metrics push. */
  datatype Op = Heartbeat(now: int) | Tick(now: int) | Contact(now: int)

  function AfterHeartbeat(n: Node, l: Limits, now: int): Node {
    var status :=
      if n.status == Error || n.status == Quarantine then n.status
      else if (n.status == Offline || n.status == Stale) && n.lastSeen.Some? && now - n.lastSeen.value > l.quarantine
      then Quarantine
      else Active;
    Node(status, Some(now))
  }

  predicate SeenBefore(n: Node, limit: int) {
    n.lastSeen.Some? && n.lastSeen.value < limit
  }

  /** The two bulk updates, in order: one tick can take a node from active to offline. */
  function AfterTick(n: Node, l: Limits, now: int): Node {
    var m := if n.status == Active && SeenBefore(n, now - l.stale) then n.(status := Stale) else n;
    if m.status == Stale && SeenBefore(m, now - l.offline) then m.(status := Offline) else m
  }

  /** Register, ingest and metrics set a node active whatever its state was. */
  function AfterContact(n: Node, now: int): Node {
    n.(status := Active, lastSeen := Some(now))
  }

  function Next(n: Node, l: Limits, op: Op): Node {
    match op
    case Heartbeat(now) => AfterHeartbeat(n, l, now)
    case Tick(now) => AfterTick(n, l, now)
    case Contact(now) => AfterContact(n, now)
  }

  function Final(n: Node, l: Limits, ops: seq<Op>): Node {
    if ops == [] then n else Next(Final(n, l, ops[..|ops| - 1]), l, ops[|ops| - 1])
  }

  /** The job over the whole table: two passes, as the two UPDATE statements. */
  method NodeStateTransitions(nodes: seq<Node>, l: Limits, now: int) returns (after: seq<Node>, toStale: nat, toOffline: nat)
    ensures |after| == |nodes|
    ensures forall i :: 0 <= i < |nodes| ==> after[i] == AfterTick(nodes[i], l, now)
    ensures forall i :: 0 <= i < |nodes| ==> !(after[i].status == Active && SeenBefore(after[i], now - l.stale))
    ensures forall i :: 0 <= i < |nodes| ==> !(after[i].status == Stale && SeenBefore(after[i], now - l.offline))
    ensures toStale == |TrueAt(GoesStale(nodes, l, now))| && toOffline == |TrueAt(GoesOffline(nodes, l, now))|
  {
    after, toStale, toOffline := nodes, 0, 0;
    for i := 0 to |nodes|
      invariant |after| == |nodes|
      invariant forall k :: 0 <= k < i ==>
        after[k] == if nodes[k].status == Active && SeenBefore(nodes[k], now - l.stale) then nodes[k].(status := Stale) else nodes[k]
      invariant forall k :: i <= k < |nodes| ==> after[k] == nodes[k]
      invariant toStale == |TrueAt(GoesStale(nodes, l, now)[..i])|
    {
      FlagStep(GoesStale(nodes, l, now), i);
      if after[i].status == Active && SeenBefore(after[i], now - l.stale) {
        after := after[i := after[i].(status := Stale)];
        toStale := toStale + 1;
      }
    }
    assert GoesStale(nodes, l, now)[..|nodes|] == GoesStale(nodes, l, now);
    var middle := after;
    for i := 0 to |nodes|
      invariant |after| == |nodes|
      invariant forall k :: 0 <= k < i ==> after[k] == AfterTick(nodes[k], l, now)
      invariant forall k :: i <= k < |nodes| ==> after[k] == middle[k]
      invariant toOffline == |TrueAt(GoesOffline(nodes, l, now)[..i])|
    {
      FlagStep(GoesOffline(nodes, l, now), i);
      if after[i].status == Stale && SeenBefore(after[i], now - l.offline) {
        after := after[i := after[i].(status := Offline)];
        toOffline := toOffline + 1;
      }
    }
    assert GoesOffline(nodes, l, now)[..|nodes|] == GoesOffline(nodes, l, now);
  }

  /** The nodes each of the two updates reports. */
  ghost function GoesStale(nodes: seq<Node>, l: Limits, now: int): (flags: seq<bool>)
    ensures |flags| == |nodes|
  {
    seq(|nodes|, i requires 0 <= i < |nodes| => nodes[i].status == Active && SeenBefore(nodes[i], now - l.stale))
  }

  ghost function GoesOffline(nodes: seq<Node>, l: Limits, now: int): (flags: seq<bool>)
    ensures |flags| == |nodes|
  {
    seq(|nodes|, i requires 0 <= i < |nodes| =>
      nodes[i].status != Offline && AfterTick(nodes[i], l, now).status == Offline)
  }

  ghost predicate NoContact(ops: seq<Op>) {
    forall i :: 0 <= i < |ops| ==> !ops[i].Contact?
  }

  /** Over any run of heartbeats and ticks, error and quarantine are never left. */
  lemma {:induction false} QuarantineIsSticky(n: Node, l: Limits, ops: seq<Op>)
    requires n.status == Error || n.status == Quarantine
    requires NoContact(ops)
    ensures Final(n, l, ops).status == n.status
  {
    if ops != [] { QuarantineIsSticky(n, l, ops[..|ops| - 1]); }
  }

  /** The status after every prefix of the run. */
  ghost predicate Stays(n: Node, l: Limits, ops: seq<Op>) {
    forall k {:trigger ops[..k]} :: 0 <= k <= |ops| ==> Final(n, l, ops[..k]).status == n.status
  }

  /** Over any run at all, error or quarantine lasts exactly when the node makes no contact other
      than heartbeats. */
  lemma StaysIff(n: Node, l: Limits, ops: seq<Op>)
    requires n.status == Error || n.status == Quarantine
    ensures Stays(n, l, ops) <==> NoContact(ops)
  {
    if NoContact(ops) {
      forall k | 0 <= k <= |ops| ensures Final(n, l, ops[..k]).status == n.status {
        QuarantineIsSticky(n, l, ops[..k]);
      }
    } else {
      var i :| 0 <= i < |ops| && ops[i].Contact?;
      var k := i + 1;
      assert ops[..k][..i] == ops[..i];
      assert Final(n, l, ops[..k]).status == Active;
    }
  }

  /** At this point of the run a heartbeat finds the node stale or offline after a gap over the
      quarantine limit. */
  ghost predicate LateReturn(n: Node, l: Limits, ops: seq<Op>, i: nat)
    requires i < |ops|
  {
    var m := Final(n, l, ops[..i]);
    ops[i].Heartbeat? && m.status in {Stale, Offline} && m.lastSeen.Some? && ops[i].now - m.lastSeen.value > l.quarantine
  }

  ghost predicate Quarantined(n: Node, l: Limits, ops: seq<Op>) {
    exists i :: 0 <= i < |ops| && LateReturn(n, l, ops, i) && NoContact(ops[i..])
  }

  lemma QuarantinedSnoc(n: Node, l: Limits, ops: seq<Op>, op: Op)
    ensures Quarantined(n, l, ops + [op]) <==>
              !op.Contact? && (Quarantined(n, l, ops) || LateReturn(n, l, ops + [op], |ops|))
  {
    var all := ops + [op];
    forall i | 0 <= i < |ops|
      ensures LateReturn(n, l, all, i) <==> LateReturn(n, l, ops, i)
      ensures NoContact(all[i..]) <==> NoContact(ops[i..]) && !op.Contact?
    {
      assert all[..i] == ops[..i] && all[i..] == ops[i..] + [op];
      assert NoContact(all[i..]) ==> NoContact(ops[i..]) by {
        assert forall j :: 0 <= j < |ops[i..]| ==> ops[i..][j] == all[i..][j];
      }
      if NoContact(all[i..]) { assert !all[i..][|ops| - i].Contact?; }
    }
    assert all[|ops|..] == [op];
    if NoContact(all[|ops|..]) { assert ![op][0].Contact?; }
  }

  /** After any run, a node that was not in quarantine is in it exactly when some heartbeat was a
      late return and no other contact has followed. */
  lemma {:induction false} QuarantineEntry(n: Node, l: Limits, ops: seq<Op>)
    requires n.status != Quarantine
    ensures Final(n, l, ops).status == Quarantine <==> Quarantined(n, l, ops)
  {
    if ops != [] {
      var u, op := ops[..|ops| - 1], ops[|ops| - 1];
      assert ops == u + [op];
      QuarantineEntry(n, l, u);
      QuarantinedSnoc(n, l, u, op);
    }
  }

  // ------------------------------------------------------------------ a silent node that returns

  ghost predicate OnlyTicks(ops: seq<Op>) {
    forall i :: 0 <= i < |ops| ==> ops[i].Tick?
  }

  ghost predicate TickPast(ops: seq<Op>, limit: int) {
    exists i :: 0 <= i < |ops| && ops[i].now > limit
  }

  lemma {:induction false} SilentRun(l: Limits, seen: int, ops: seq<Op>)
    requires Ordered(l) && OnlyTicks(ops)
    ensures var n := Final(Node(Active, Some(seen)), l, ops);
            && n.lastSeen == Some(seen)
            && (TickPast(ops, seen + l.stale) ==> n.status in {Stale, Offline})
            && (!TickPast(ops, seen + l.stale) ==> n.status == Active)
  {
    if ops != [] {
      var u, op := ops[..|ops| - 1], ops[|ops| - 1];
      SilentRun(l, seen, u);
      var limit := seen + l.stale;
      assert TickPast(ops, limit) <==> TickPast(u, limit) || op.now > limit by {
        if TickPast(u, limit) {
          var i :| 0 <= i < |u| && u[i].now > limit;
          assert ops[i].now > limit;
        }
        if op.now > limit { assert ops[|ops| - 1].now > limit; }
        if i :| 0 <= i < |ops| && ops[i].now > limit && i < |u| { assert u[i].now > limit; }
      }
    }
  }

  /** An active node that falls silent is quarantined on its return exactly when the gap exceeds the
      quarantine limit and some tick noticed the silence past the stale limit; without such a tick
      it is active again, however long it was gone. */
  lemma ReturnIsQuarantinedIff(l: Limits, seen: int, ticks: seq<Op>, now: int)
    requires Ordered(l) && OnlyTicks(ticks)
    ensures AfterHeartbeat(Final(Node(Active, Some(seen)), l, ticks), l, now).status == Quarantine
            <==> now - seen > l.quarantine && TickPast(ticks, seen + l.stale)
  {
    SilentRun(l, seen, ticks);
  }

  /** A node was last seen at its latest heartbeat or other contact; ticks do not touch that. */
  lemma {:induction false} LastSeenIs(n: Node, l: Limits, ops: seq<Op>)
    ensures OnlyTicks(ops) ==> Final(n, l, ops).lastSeen == n.lastSeen
    ensures forall i :: 0 <= i < |ops| && !ops[i].Tick? && OnlyTicks(ops[i + 1..]) ==>
              Final(n, l, ops).lastSeen == Some(ops[i].now)
  {
    if ops != [] {
      var m := |ops| - 1;
      LastSeenIs(n, l, ops[..m]);
      forall i | 0 <= i < m && !ops[i].Tick? && OnlyTicks(ops[i + 1..])
        ensures Final(n, l, ops).lastSeen == Some(ops[i].now)
      {
        assert ops[i + 1..][m - i - 1] == ops[m];
        var rest := ops[..m][i + 1..];
        forall j | 0 <= j < |rest| ensures rest[j].Tick? {
          assert rest[j] == ops[i + 1..][j];
        }
        assert ops[..m][i] == ops[i];
      }
      if OnlyTicks(ops) {
        forall j | 0 <= j < m ensures ops[..m][j].Tick? { assert ops[..m][j] == ops[j]; }
      }
    }
  }

  /** A heartbeat leaves a node in error or quarantine, sends it there after a long absence that a
      tick noticed, and otherwise makes it active. */
  lemma HeartbeatStatus(n: Node, l: Limits, now: int)
    ensures var status := AfterHeartbeat(n, l, now).status;
            && (n.status in {Error, Quarantine} ==> status == n.status)
            && (n.status in {Pending, Active} ==> status == Active)
            && (n.status in {Stale, Offline} && (n.lastSeen.None? || now <= n.lastSeen.value + l.quarantine) ==> status == Active)
  {
  }
}
