/** The primary's ingest endpoint (admin-ui/app/routers/node_sync.py): the JSON form a node posts
    and the idempotent insert into dns_query_events, whose only unique key is event_id. */
module Ingest {
  import opened Prelude
  import opened EventBuffer
  import Text

  datatype Row = Row(
    eventId: Option<string>, eventSeq: nat, ts: Timestamp, clientIP: string, qname: string,
    qtype: int, rcode: int, blocked: bool, blockReason: Option<string>, latencyMs: Option<int>,
    isInternal: bool)

  type Table = seq<Row>

  /** A field tagged `omitempty` is absent from the JSON when empty, and null at the primary. */
  function OmitEmpty(s: string): Option<string> {
    if s == "" then None else Some(s)
  }

  /** The row built from one posted event. */
  function ToRow(e: Event): Row {
    Row(OmitEmpty(e.eventId), e.eventSeq, e.ts, e.clientIP,
        Text.NormalName(e.qname),
        e.qtype, e.rcode, e.blocked, OmitEmpty(e.blockReason),
        if e.latencyMs == 0 then None else Some(e.latencyMs), e.isInternal)
  }

  /** The stored name is the posted one in lower case, without the white space around it and the dots
      at its end; a name already in that form is stored as it is. */
  ghost predicate StoredAs(stored: string, posted: string) {
    exists a, x, dots, b :: SplitName(posted, a, x, dots, b) && stored == Text.Lower(x)
  }

  ghost predicate SplitName(posted: string, a: string, x: string, dots: string, b: string) {
    && posted == a + ((x + dots) + b)
    && Text.Run(a, Text.PySpace) && Text.Run(b, Text.PySpace) && Text.Run(dots, Text.Chars("."))
    && (x == "" || (!Text.IsPySpace(x[0]) && x[|x| - 1] != '.' && (dots != "" || !Text.IsPySpace(x[|x| - 1]))))
  }

  /** The row holds what the event says, column by column. */
  ghost predicate Holds(r: Row, e: Event) {
    && (if e.eventId == "" then r.eventId == None else r.eventId == Some(e.eventId))
    && r.eventSeq == e.eventSeq && r.ts == e.ts && r.clientIP == e.clientIP
    && r.qtype == e.qtype && r.rcode == e.rcode && r.blocked == e.blocked && r.isInternal == e.isInternal
    && (if e.blockReason == "" then r.blockReason == None else r.blockReason == Some(e.blockReason))
    && (if e.latencyMs == 0 then r.latencyMs == None else r.latencyMs == Some(e.latencyMs))
    && StoredAs(r.qname, e.qname)
  }

  lemma ToRowHolds(e: Event)
    ensures Holds(ToRow(e), e)
  {
    var a, x, dots, b := Text.NormalNameForm(e.qname);
    assert SplitName(e.qname, a, x, dots, b);
  }

  /** There is only one such name; it is in lower case, and it is the posted one if that was in form
      already. */
  lemma StoredAsIsUnique(stored: string, posted: string)
    requires StoredAs(stored, posted)
    ensures stored == Text.NormalName(posted) && Text.IsLower(stored)
    ensures Text.InForm(posted) ==> stored == posted
  {
    var a, x, dots, b :| SplitName(posted, a, x, dots, b) && stored == Text.Lower(x);
    if x != "" {
      Text.NormalNameOf(a, x, dots, b);
    } else {
      Text.NormalNameOfNothing(a, dots, b);
      assert x + dots == dots;
    }
    if Text.InForm(posted) { Text.NormalNameFixed(posted); }
  }

  predicate HasId(t: Table, id: string) {
    exists i :: 0 <= i < |t| && t[i].eventId == Some(id)
  }

  /** ON CONFLICT (event_id) DO NOTHING: a null id conflicts with nothing. */
  function InsertRow(t: Table, r: Row): Table {
    if r.eventId.Some? && HasId(t, r.eventId.value) then t else t + [r]
  }

  function InsertAll(t: Table, events: seq<Event>): Table
    decreases |events|
  {
    if events == [] then t else InsertAll(InsertRow(t, ToRow(events[0])), events[1..])
  }

  ghost predicate UniqueIds(t: Table) {
    forall i, j :: 0 <= i < j < |t| && t[i].eventId.Some? ==> t[i].eventId != t[j].eventId
  }

  /** The primary knows the event: by its id, or by its row when it has none. */
  ghost predicate AtPrimary(t: Table, e: Event) {
    if e.eventId != "" then HasId(t, e.eventId) else ToRow(e) in t
  }

  /** The insert statement only appends. */
  lemma {:induction false} InsertAllExtends(t: Table, events: seq<Event>)
    ensures t <= InsertAll(t, events)
    decreases |events|
  {
    if events != [] { InsertAllExtends(InsertRow(t, ToRow(events[0])), events[1..]); }
  }

  /** No id is ever stored twice, whatever is posted. */
  lemma {:induction false} InsertAllUnique(t: Table, events: seq<Event>)
    requires UniqueIds(t)
    ensures UniqueIds(InsertAll(t, events))
    decreases |events|
  {
    if events != [] { InsertAllUnique(InsertRow(t, ToRow(events[0])), events[1..]); }
  }

  /** Every posted event is known afterwards. */
  lemma {:induction false} InsertAllContents(t: Table, events: seq<Event>)
    ensures forall e :: e in events ==> AtPrimary(InsertAll(t, events), e)
    decreases |events|
  {
    if events != [] {
      var t' := InsertRow(t, ToRow(events[0]));
      InsertAllContents(t', events[1..]);
      assert AtPrimary(t', events[0]) by {
        if t' != t { assert t'[|t|] == ToRow(events[0]); }
      }
      InsertAllExtends(t', events[1..]);
      forall e | e in events ensures AtPrimary(InsertAll(t, events), e) {
        if e != events[0] { assert e in events[1..]; }
      }
    }
  }

  /** Every row was there before or belongs to a posted event. */
  lemma {:induction false} InsertAllOrigin(t: Table, events: seq<Event>, r: Row)
    requires r in InsertAll(t, events) && r !in t
    ensures exists e :: e in events && r == ToRow(e)
    decreases |events|
  {
    if r != ToRow(events[0]) {
      var t' := InsertRow(t, ToRow(events[0]));
      InsertAllOrigin(t', events[1..], r);
      var e :| e in events[1..] && r == ToRow(e);
      assert e in events;
    } else {
      assert events[0] in events;
    }
  }

  lemma {:induction false} InsertAllAppend(t: Table, a: seq<Event>, b: seq<Event>)
    ensures InsertAll(t, a + b) == InsertAll(InsertAll(t, a), b)
    decreases |a|
  {
    if a == [] {
      assert a + b == b;
    } else {
      assert (a + b)[0] == a[0] && (a + b)[1..] == a[1..] + b;
      InsertAllAppend(InsertRow(t, ToRow(a[0])), a[1..], b);
    }
  }

  lemma {:induction false} IdComesFrom(t: Table, events: seq<Event>, id: string)
    requires id != "" && !HasId(t, id) && forall e :: e in events ==> e.eventId != id
    ensures !HasId(InsertAll(t, events), id)
    decreases |events|
  {
    if events != [] {
      assert events[0] in events && ToRow(events[0]).eventId != Some(id);
      IdComesFrom(InsertRow(t, ToRow(events[0])), events[1..], id);
    }
  }

  /** After a request the row of an event whose id was unknown holds that event, column by column, if
      it is the first of the request with its id; and no other row has that id. */
  lemma NewRowHolds(t: Table, events: seq<Event>, i: nat) returns (k: nat)
    requires UniqueIds(t) && i < |events| && events[i].eventId != "" && !HasId(t, events[i].eventId)
    requires forall j :: 0 <= j < i ==> events[j].eventId != events[i].eventId
    ensures var t' := InsertAll(t, events);
            && k < |t'| && Holds(t'[k], events[i])
            && forall j :: 0 <= j < |t'| && t'[j].eventId == Some(events[i].eventId) ==> j == k
  {
    var e := events[i];
    var a, b := events[..i], events[i + 1..];
    assert events == a + ([e] + b);
    var t1 := InsertAll(t, a);
    IdComesFrom(t, a, e.eventId);
    InsertAllAppend(t, a, [e] + b);
    assert ([e] + b)[1..] == b;
    var t2 := t1 + [ToRow(e)];
    assert InsertAll(t, events) == InsertAll(t2, b);
    InsertAllExtends(t2, b);
    InsertAllUnique(t, events);
    ToRowHolds(e);
    k := |t1|;
    assert InsertAll(t, events)[k] == t2[k];
  }

  lemma {:induction false} KnownEventsAddNothing(t: Table, events: seq<Event>)
    requires forall e :: e in events ==> e.eventId != "" && HasId(t, e.eventId)
    ensures InsertAll(t, events) == t
    decreases |events|
  {
    if events != [] { KnownEventsAddNothing(t, events[1..]); }
  }

  lemma {:induction false} AnonymousEventsAlwaysAdd(t: Table, events: seq<Event>, e: Event)
    requires e in events && e.eventId == ""
    ensures |InsertAll(t, events)| > |t|
    decreases |events|
  {
    var t' := InsertRow(t, ToRow(events[0]));
    InsertAllExtends(t', events[1..]);
    if events[0] != e {
      AnonymousEventsAlwaysAdd(t', events[1..], e);
    }
  }

  /** A repeated request has no further effect exactly when each of its events carries an id. */
  lemma RetryIsIdempotentIff(t: Table, events: seq<Event>)
    ensures InsertAll(InsertAll(t, events), events) == InsertAll(t, events)
            <==> forall e :: e in events ==> e.eventId != ""
  {
    var t' := InsertAll(t, events);
    InsertAllContents(t, events);
    if forall e :: e in events ==> e.eventId != "" {
      KnownEventsAddNothing(t', events);
    } else {
      var e :| e in events && e.eventId == "";
      AnonymousEventsAlwaysAdd(t', events, e);
    }
  }

  class Primary {
    var table: Table

    constructor ()
      ensures table == []
    {
      table := [];
    }

    /** Builds the rows in a loop, then runs one insert statement over them. */
    method Ingest(events: seq<Event>) returns (received: nat)
      modifies this
      ensures table == InsertAll(old(table), events)
      ensures received == |table| - |old(table)|
    {
      if events == [] {
        return 0;
      }
      var rows := BuildRows(events);
      var before := |table|;
      InsertRows(events, rows);
      InsertAllExtends(old(table), events);
      received := |table| - before;
    }

    static method BuildRows(events: seq<Event>) returns (rows: seq<Row>)
      ensures |rows| == |events|
      ensures forall j :: 0 <= j < |events| ==> rows[j] == ToRow(events[j])
    {
      rows := [];
      for i := 0 to |events|
        invariant |rows| == i
        invariant forall j :: 0 <= j < i ==> rows[j] == ToRow(events[j])
      {
        rows := rows + [ToRow(events[i])];
      }
    }

    method InsertRows(ghost events: seq<Event>, rows: seq<Row>)
      requires |rows| == |events|
      requires forall j :: 0 <= j < |events| ==> rows[j] == ToRow(events[j])
      modifies this
      ensures table == InsertAll(old(table), events)
    {
      assert events[0..] == events;
      for i := 0 to |rows|
        invariant InsertAll(old(table), events) == InsertAll(table, events[i..])
      {
        table := InsertRow(table, rows[i]);
      }
      assert events[|rows|..] == [];
    }
  }
}
