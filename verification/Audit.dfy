/** Forward zones with their audit log and its rollbacks (admin-ui/app/routers/forward_zones.py,
    admin-ui/app/routers/audit.py, admin-ui/app/services/config_audit.py). The log holds the
    forward-zone records; a change's id is its position. */
module Audit {
  import opened Prelude
  import Text

  datatype Zone = Zone(domain: string, servers: string, description: Option<string>, enabled: bool, node: Option<int>)

  datatype Action = Create | Toggle | Delete | RollbackRestore | RollbackUpdate | RollbackDelete

  datatype Change = Change(entityId: nat, action: Action, before: Option<Zone>, after: Option<Zone>)

  type Table = map<nat, Zone>

  /** `nextId` is the table's id sequence, which never goes back. */
  datatype State = State(zones: Table, nextId: nat, log: seq<Change>)

  datatype Op =
    | AddOp(domain: string, servers: string, description: string, node: Option<int>)
    | ToggleOp(id: nat)
    | DeleteOp(id: nat)
    | RollbackOp(change: nat)

  datatype Outcome =
    | Ok
    | DomainTaken          // the unique constraint, or the explicit check of a restore
    | NotFound
    | CannotRollBack

  predicate DomainUsed(t: Table, domain: string) {
    exists id :: id in t && t[id].domain == domain
  }

  function NewZone(domain: string, servers: string, description: string, node: Option<int>): Zone {
    var d := Text.Strip(description, Text.PySpace);
    Zone(Text.NormalName(domain),
         Text.Strip(servers, Text.PySpace), if d == "" then None else Some(d), true, node)
  }

  /** A new row under the next id. The sequence moves even when the insert is refused. */
  function Insert(s: State, z: Zone, action: Action): (State, Outcome) {
    if DomainUsed(s.zones, z.domain) then (s.(nextId := s.nextId + 1), DomainTaken)
    else (State(s.zones[s.nextId := z], s.nextId + 1, s.log + [Change(s.nextId, action, None, Some(z))]), Ok)
  }

  function Update(s: State, id: nat, z: Zone, action: Action): State
    requires id in s.zones
  {
    s.(zones := s.zones[id := z], log := s.log + [Change(id, action, Some(s.zones[id]), Some(z))])
  }

  function Remove(s: State, id: nat, action: Action): State
    requires id in s.zones
  {
    s.(zones := s.zones - {id}, log := s.log + [Change(id, action, Some(s.zones[id]), None)])
  }

  /** A restore checks the domain before it inserts, so it consumes no id when refused. */
  function Restore(s: State, z: Zone): (State, Outcome) {
    if DomainUsed(s.zones, z.domain) then (s, DomainTaken) else Insert(s, z, RollbackRestore)
  }

  /** rollback_change: a delete is re-created, a toggle is set back, a creation is deleted; the
      records that rollbacks write cannot themselves be rolled back. The node is not set back. */
  function Rollback(s: State, change: nat): (State, Outcome) {
    if change >= |s.log| then (s, NotFound)
    else
      var c := s.log[change];
      if c.action == Delete && c.before.Some? then Restore(s, c.before.value)
      else if c.action in {Create, Toggle} && c.before.Some? then
        if c.entityId !in s.zones then (s, NotFound)
        else
          var now := s.zones[c.entityId];
          (Update(s, c.entityId, c.before.value.(node := now.node), RollbackUpdate), Ok)
      else if c.action == Create && c.before.None? then
        if c.entityId !in s.zones then (s, NotFound) else (Remove(s, c.entityId, RollbackDelete), Ok)
      else (s, CannotRollBack)
  }

  function Next(s: State, op: Op): (State, Outcome) {
    match op
    case AddOp(domain, servers, description, node) => Insert(s, NewZone(domain, servers, description, node), Create)
    case ToggleOp(id) =>
      if id in s.zones then (Update(s, id, s.zones[id].(enabled := !s.zones[id].enabled), Toggle), Ok) else (s, NotFound)
    case DeleteOp(id) => if id in s.zones then (Remove(s, id, Delete), Ok) else (s, NotFound)
    case RollbackOp(change) => Rollback(s, change)
  }

  // ------------------------------------------------------------------ replay

  function Apply(t: Table, c: Change): Table {
    if c.after.Some? then t[c.entityId := c.after.value] else t - {c.entityId}
  }

  /** The table that the log alone describes. */
  function Replay(log: seq<Change>): Table {
    if log == [] then map[] else Apply(Replay(log[..|log| - 1]), log[|log| - 1])
  }

  lemma ReplaySnoc(log: seq<Change>, c: Change)
    ensures Replay(log + [c]) == Apply(Replay(log), c)
  {
  }

  ghost predicate UniqueDomains(t: Table) {
    forall i, j :: i in t && j in t && t[i].domain == t[j].domain ==> i == j
  }

  /** A record shows the same domain for an entity as the live row: no operation renames. */
  ghost predicate Faithful(c: Change, t: Table) {
    c.entityId in t && c.before.Some? ==> c.before.value.domain == t[c.entityId].domain
  }

  ghost predicate Inv(s: State) {
    && Replay(s.log) == s.zones
    && UniqueDomains(s.zones)
    && (forall id :: id in s.zones ==> id < s.nextId)
    && (forall k :: 0 <= k < |s.log| ==> s.log[k].entityId < s.nextId)
    && (forall k :: 0 <= k < |s.log| ==> Faithful(s.log[k], s.zones))
  }

  lemma InsertKeeps(s: State, z: Zone, action: Action)
    requires Inv(s)
    ensures Inv(Insert(s, z, action).0)
  {
    var s' := Insert(s, z, action).0;
    if !DomainUsed(s.zones, z.domain) {
      ReplaySnoc(s.log, Change(s.nextId, action, None, Some(z)));
      forall k | 0 <= k < |s'.log| ensures Faithful(s'.log[k], s'.zones) {
        if k < |s.log| { assert Faithful(s.log[k], s.zones); }
      }
    }
  }

  lemma UpdateKeeps(s: State, id: nat, z: Zone, action: Action)
    requires Inv(s) && id in s.zones && z.domain == s.zones[id].domain
    ensures Inv(Update(s, id, z, action))
  {
  }

  lemma RemoveKeeps(s: State, id: nat, action: Action)
    requires Inv(s) && id in s.zones
    ensures Inv(Remove(s, id, action))
  {
  }

  lemma StepKeeps(s: State, op: Op)
    requires Inv(s)
    ensures Inv(Next(s, op).0)
  {
    match op
    case AddOp(domain, servers, description, node) => InsertKeeps(s, NewZone(domain, servers, description, node), Create);
    case ToggleOp(id) =>
      if id in s.zones { UpdateKeeps(s, id, s.zones[id].(enabled := !s.zones[id].enabled), Toggle); }
    case DeleteOp(id) => if id in s.zones { RemoveKeeps(s, id, Delete); }
    case RollbackOp(change) => RollbackKeeps(s, change);
  }

  lemma RollbackKeeps(s: State, change: nat)
    requires Inv(s)
    ensures Inv(Rollback(s, change).0)
  {
    if change < |s.log| {
      var c := s.log[change];
      assert Faithful(c, s.zones);
      if c.action == Delete && c.before.Some? {
        InsertKeeps(s, c.before.value, RollbackRestore);
      } else if c.action in {Create, Toggle} && c.before.Some? {
        if c.entityId in s.zones {
          UpdateKeeps(s, c.entityId, c.before.value.(node := s.zones[c.entityId].node), RollbackUpdate);
        }
      } else if c.action == Create && c.entityId in s.zones {
        RemoveKeeps(s, c.entityId, RollbackDelete);
      }
    }
  }

  function Final(s: State, ops: seq<Op>): State
    decreases |ops|
  {
    if ops == [] then s else Final(Next(s, ops[0]).0, ops[1..])
  }

  const EMPTY: State := State(map[], 1, [])

  lemma {:induction false} RunKeeps(s: State, ops: seq<Op>)
    requires Inv(s)
    ensures Inv(Final(s, ops))
    decreases |ops|
  {
    if ops != [] {
      StepKeeps(s, ops[0]);
      RunKeeps(Next(s, ops[0]).0, ops[1..]);
    }
  }

  /** After any run, replaying the log from nothing rebuilds the zone table, and no two zones share
      a domain. */
  lemma EveryRunReplays(ops: seq<Op>)
    ensures Replay(Final(EMPTY, ops).log) == Final(EMPTY, ops).zones
    ensures UniqueDomains(Final(EMPTY, ops).zones)
  {
    RunKeeps(EMPTY, ops);
  }

  // ------------------------------------------------------------------ what a rollback restores

  /** Rolling back a delete, at any later point, brings back every column under an id never used
      before, exactly when no live zone has taken the domain. */
  lemma RollbackOfDelete(s: State, change: nat)
    requires Inv(s) && change < |s.log| && s.log[change].action == Delete && s.log[change].before.Some?
    ensures var z, r := s.log[change].before.value, Rollback(s, change);
            if DomainUsed(s.zones, z.domain) then r == (s, DomainTaken)
            else r.1 == Ok && r.0.zones == s.zones[s.nextId := z] && s.nextId !in s.zones
                 && forall k :: 0 <= k < |s.log| ==> s.log[k].entityId != s.nextId
  {
  }

  /** A rollback right after the operation it targets undoes it: a toggle or a creation exactly, a
      deletion up to the row's id. */
  lemma RollbackUndoes(s: State, op: Op)
    requires Inv(s) && !op.RollbackOp? && Next(s, op).1 == Ok
    ensures var s' := Next(s, op).0;
            var u := Rollback(s', |s.log|);
            && u.1 == Ok
            && (op.ToggleOp? || op.AddOp? ==> u.0.zones == s.zones)
            && (op.DeleteOp? ==> op.id in s.zones && u.0.zones == (s.zones - {op.id})[s'.nextId := s.zones[op.id]])
  {
  }

  /** Deleting a node cascades to its zones without writing records, so afterwards the log still
      describes the table exactly when the node had no zone. */
  lemma NodeDeletionBreaksReplayIff(s: State, node: int)
    requires Inv(s)
    ensures Replay(s.log) == WithoutNode(s.zones, node) <==> forall id :: id in s.zones ==> s.zones[id].node != Some(node)
  {
  }

  function WithoutNode(t: Table, node: int): Table {
    map id | id in t && t[id].node != Some(node) :: t[id]
  }

  // ------------------------------------------------------------------ the handlers, in place

  class ZoneAdmin {
    var zones: Table
    var nextId: nat
    var log: seq<Change>

    function View(): State
      reads this
    {
      State(zones, nextId, log)
    }

    ghost predicate Valid()
      reads this
    {
      Inv(View())
    }

    constructor ()
      ensures View() == EMPTY && Valid()
    {
      zones := map[];
      nextId := 1;
      log := [];
      new;
      RunKeeps(EMPTY, []);
    }

    method Add(domain: string, servers: string, description: string, node: Option<int>) returns (r: Outcome)
      requires Valid()
      modifies this
      ensures Valid() && (View(), r) == Next(old(View()), AddOp(domain, servers, description, node))
    {
      StepKeeps(View(), AddOp(domain, servers, description, node));
      var zone := NewZone(domain, servers, description, node);
      var id := nextId;
      nextId := nextId + 1;
      if DomainUsed(zones, zone.domain) {
        return DomainTaken;
      }
      zones := zones[id := zone];
      log := log + [Change(id, Create, None, Some(zone))];
      return Ok;
    }

    method Toggle(id: nat) returns (r: Outcome)
      requires Valid()
      modifies this
      ensures Valid() && (View(), r) == Next(old(View()), ToggleOp(id))
    {
      StepKeeps(View(), ToggleOp(id));
      if id !in zones {
        return NotFound;
      }
      var before := zones[id];
      var after := before.(enabled := !before.enabled);
      zones := zones[id := after];
      log := log + [Change(id, Action.Toggle, Some(before), Some(after))];
      return Ok;
    }

    method Delete(id: nat) returns (r: Outcome)
      requires Valid()
      modifies this
      ensures Valid() && (View(), r) == Next(old(View()), DeleteOp(id))
    {
      StepKeeps(View(), DeleteOp(id));
      if id !in zones {
        return NotFound;
      }
      log := log + [Change(id, Action.Delete, Some(zones[id]), None)];
      zones := zones - {id};
      return Ok;
    }

    method RollbackChange(change: nat) returns (r: Outcome)
      requires Valid()
      modifies this
      ensures Valid() && (View(), r) == Next(old(View()), RollbackOp(change))
    {
      StepKeeps(View(), RollbackOp(change));
      if change >= |log| {
        return NotFound;
      }
      var c := log[change];
      if c.action == Action.Delete && c.before.Some? {
        var data := c.before.value;
        if DomainUsed(zones, data.domain) {
          return DomainTaken;
        }
        var id := nextId;
        nextId := nextId + 1;
        zones := zones[id := data];
        log := log + [Change(id, RollbackRestore, None, Some(data))];
        return Ok;
      }
      if (c.action == Create || c.action == Action.Toggle) && c.before.Some? {
        if c.entityId !in zones {
          return NotFound;
        }
        var before := zones[c.entityId];
        var data := c.before.value;
        var after := Zone(data.domain, data.servers, data.description, data.enabled, before.node);
        zones := zones[c.entityId := after];
        log := log + [Change(c.entityId, RollbackUpdate, Some(before), Some(after))];
        return Ok;
      }
      if c.action == Create {
        if c.entityId !in zones {
          return NotFound;
        }
        log := log + [Change(c.entityId, RollbackDelete, Some(zones[c.entityId]), None)];
        zones := zones - {c.entityId};
        return Ok;
      }
      return CannotRollBack;
    }
  }

  // ------------------------------------------------------------------ what the handlers store

  /** A toggle flips the flag and nothing else; a second one flips it back. */
  lemma ToggleFlips(s: State, id: nat)
    requires id in s.zones
    ensures var t := Next(s, ToggleOp(id)).0;
            && t.zones.Keys == s.zones.Keys && t.zones[id].enabled != s.zones[id].enabled
            && t.zones[id].domain == s.zones[id].domain && t.zones[id].servers == s.zones[id].servers
            && t.zones[id].description == s.zones[id].description && t.zones[id].node == s.zones[id].node
            && (forall k :: k in s.zones && k != id ==> t.zones[k] == s.zones[k])
            && Next(t, ToggleOp(id)).0.zones == s.zones
  {
  }

  /** A new zone is enabled, under an id never used before, with its domain in stored form, its servers
      without outer white space, and no description when the text is blank. */
  lemma AddStores(s: State, a: string, x: string, dots: string, b: string,
                  servers: string, w: string, v: string, description: string, node: Option<int>)
    requires Inv(s) && Text.Run(a, Text.PySpace) && Text.Run(b, Text.PySpace) && Text.Run(dots, Text.Chars("."))
    requires x != "" && !Text.IsPySpace(x[0]) && !Text.IsPySpace(x[|x| - 1]) && x[|x| - 1] != '.'
    requires Text.Run(w, Text.PySpace) && Text.Run(v, Text.PySpace)
    requires servers != "" && !Text.IsPySpace(servers[0]) && !Text.IsPySpace(servers[|servers| - 1])
    ensures var r := Next(s, AddOp(a + ((x + dots) + b), w + (servers + v), description, node));
            if DomainUsed(s.zones, Text.Lower(x)) then r.1 == DomainTaken && r.0.zones == s.zones
            else
              && r.1 == Ok && s.nextId !in s.zones && r.0.zones.Keys == s.zones.Keys + {s.nextId}
              && r.0.zones[s.nextId].domain == Text.Lower(x) && r.0.zones[s.nextId].servers == servers
              && r.0.zones[s.nextId].enabled && r.0.zones[s.nextId].node == node
              && (r.0.zones[s.nextId].description.None? <==> Text.Run(description, Text.PySpace))
  {
    Text.NormalNameOf(a, x, dots, b);
    Text.StripBetween(w, servers, v);
    Text.RStripRun("", v, Text.PySpace);
    assert "" + v == v && servers + "" == servers;
    BlankIff(description);
  }

  lemma BlankIff(s: string)
    ensures Text.Strip(s, Text.PySpace) == "" <==> Text.Run(s, Text.PySpace)
  {
    var a, y, b := Text.StripForm(s);
    if y != "" { assert s[|a|] == y[0]; }
    if y == "" { assert s == a + b; }
  }
}
