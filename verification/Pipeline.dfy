/** The store-and-forward pipeline from a node's accepted events to the primary's table
    (dnstap-processor/cmd/dnstap-processor/main.go, internal/buffer/buffer.go,
    admin-ui/app/routers/node_sync.py).

    Faults are steps of their own: a flush or delete that does not commit, a request that the
    network loses, delays past the client's timeout or delivers more than once, an
    acknowledgement that never arrives, and a crash between any two steps. The primary's table
    starts with whatever earlier runs left there, and other nodes post to it at any time. */
module Pipeline {
  import opened Prelude
  import opened EventBuffer
  import opened Ingest

  datatype State = State(
    bucket: Bucket, counter: nat,
    batch: seq<Event>,            // accepted, still in memory
    peeked: seq<Event>,           // the request being forwarded; empty when there is none
    acked: bool,                  // the primary answered 2xx to it
    sent: set<seq<Event>>,        // requests the network may still deliver
    committed: set<seq<Event>>,   // requests the primary has committed at least once
    table: Table,
    buffered: set<Event>,         // every event a committed batch ever stored
    pruned: set<Event>,           // every event removed for age
    others: set<Row>)             // rows found at start, and those of other nodes' posts

  datatype Step =
    | Accept(event: Event)
    | FlushOk
    | FlushFailed(bumps: nat)     // the transaction is lost, and the batch with it
    | Peek(limit: nat)
    | Send
    | Commit(request: seq<Event>)
    | OtherPost(request: seq<Event>)
    | Ack
    | DeleteOk
    | DeleteFailed
    | Prune(cutoff: int)
    | GiveUp                      // timeout or non-2xx answer
    | Crash                       // and reopen

  ghost predicate Init(s: State) {
    && BucketOk(s.bucket, s.counter)
    && s.counter == MaxKey(s.bucket)
    && s.batch == [] && s.peeked == [] && !s.acked
    && s.sent == {} && s.committed == {} && s.pruned == {}
    && UniqueIds(s.table) && s.others == RowSet(s.table)
    && s.buffered == EventSet(Decoded(s.bucket))
  }

  ghost function RowSet(rs: seq<Row>): set<Row> {
    set r | r in rs
  }

  /** The rows of a request. */
  ghost function RowsOf(es: seq<Event>): set<Row> {
    set e | e in es :: ToRow(e)
  }

  ghost function EventSet(es: seq<Event>): set<Event> {
    set e | e in es
  }

  predicate Enabled(s: State, step: Step) {
    match step
    case FlushFailed(bumps) => bumps <= |s.batch|
    case Send => s.peeked != []
    case Commit(request) => request in s.sent
    case Ack => s.peeked != [] && s.peeked in s.committed
    case DeleteOk => s.peeked != [] && s.acked
    case DeleteFailed => s.peeked != [] && s.acked
    case _ => true
  }

  ghost function Next(s: State, step: Step): State
    requires Enabled(s, step)
  {
    match step
    case Accept(event) => s.(batch := s.batch + [event])
    case FlushOk =>
      var added := Stamped(s.batch, s.counter);
      s.(bucket := s.bucket + added, counter := s.counter + |s.batch|, batch := [],
         buffered := s.buffered + EventSet(Decoded(added)))
    case FlushFailed(bumps) => s.(counter := s.counter + bumps, batch := [])
    case Peek(limit) => s.(peeked := Take(Decoded(s.bucket), limit), acked := false)
    case Send => s.(sent := s.sent + {s.peeked})
    case Commit(request) =>
      s.(table := InsertAll(s.table, request), committed := s.committed + {request})
    case OtherPost(request) =>
      s.(table := InsertAll(s.table, request), others := s.others + RowsOf(request))
    case Ack => s.(acked := true)
    case DeleteOk =>
      s.(bucket := After(s.bucket, s.peeked[|s.peeked| - 1].eventSeq), peeked := [], acked := false)
    case DeleteFailed => s.(peeked := [], acked := false)
    case Prune(cutoff) =>
      s.(bucket := Pruned(s.bucket, cutoff),
         pruned := s.pruned + set e | e in Decoded(s.bucket) && e.ts.Stamp? && e.ts.ns < cutoff)
    case GiveUp => s.(peeked := [], acked := false)
    case Crash => s.(counter := MaxKey(s.bucket), batch := [], peeked := [], acked := false)
  }

  ghost predicate Runs(s: State, steps: seq<Step>)
    decreases |steps|
  {
    steps == [] || (Enabled(s, steps[0]) && Runs(Next(s, steps[0]), steps[1..]))
  }

  ghost function Final(s: State, steps: seq<Step>): State
    requires Runs(s, steps)
    decreases |steps|
  {
    if steps == [] then s else Final(Next(s, steps[0]), steps[1..])
  }

  // ------------------------------------------------------------------ what every run keeps

  /** Each event ever buffered is at the primary, still in the buffer, or was pruned. */
  ghost predicate NothingLost(s: State) {
    forall e :: e in s.buffered ==> e in Decoded(s.bucket) || e in s.pruned || AtPrimary(s.table, e)
  }

  /** The primary holds no id twice, and besides the others' rows only rows of buffered events. */
  ghost predicate ExactlyOnce(s: State) {
    && UniqueIds(s.table)
    && forall r :: r in s.table ==> Accounted(s, r)
  }

  ghost predicate Accounted(s: State, r: Row) {
    r in s.others || exists e :: e in s.buffered && r == ToRow(e)
  }

  /** Any entry the pending delete would remove was part of the request it follows. */
  ghost predicate DeleteIsCovered(s: State) {
    s.peeked != [] ==>
      var last := s.peeked[|s.peeked| - 1].eventSeq;
      && last <= s.counter
      && forall i :: 0 <= i < |s.bucket| && s.bucket[i].key <= last && s.bucket[i].rec.Json?
           ==> s.bucket[i].rec.event in s.peeked
  }

  ghost predicate RequestsKnown(s: State) {
    && (forall e :: e in s.peeked ==> e in s.buffered)
    && (forall q, e :: q in s.sent && e in q ==> e in s.buffered)
    && (forall q, e :: q in s.committed && e in q ==> AtPrimary(s.table, e))
    && (s.acked ==> s.peeked in s.committed)
  }

  ghost predicate Inv(s: State) {
    && BucketOk(s.bucket, s.counter)
    && (forall e :: e in Decoded(s.bucket) ==> e in s.buffered)
    && NothingLost(s)
    && ExactlyOnce(s)
    && DeleteIsCovered(s)
    && RequestsKnown(s)
  }

  lemma StampedOk(b: Bucket, counter: nat, events: seq<Event>)
    requires BucketOk(b, counter)
    ensures BucketOk(b + Stamped(events, counter), counter + |events|)
  {
  }

  lemma MaxKeyOk(b: Bucket, counter: nat)
    requires BucketOk(b, counter)
    ensures BucketOk(b, MaxKey(b)) && MaxKey(b) <= counter
  {
  }

  lemma DecodedWithout(b: Bucket, ks: set<nat>, e: Event)
    ensures e in Decoded(WithoutKeys(b, ks)) <==> exists i :: 0 <= i < |b| && b[i].rec == Json(e) && b[i].key !in ks
  {
    var c := WithoutKeys(b, ks);
    DecodedMember(c, e);
    if i :| 0 <= i < |c| && c[i].rec == Json(e) {
      WithoutKeysMember(b, ks, c[i]);
      var j :| 0 <= j < |b| && b[j] == c[i];
      assert b[j].rec == Json(e);
    }
    if i :| 0 <= i < |b| && b[i].rec == Json(e) && b[i].key !in ks {
      WithoutKeysMember(b, ks, b[i]);
      var j :| 0 <= j < |c| && c[j] == b[i];
      assert c[j].rec == Json(e);
    }
  }

  lemma FlushKeeps(s: State)
    requires Inv(s)
    ensures Inv(Next(s, FlushOk))
  {
    var s' := Next(s, FlushOk);
    var added := Stamped(s.batch, s.counter);
    assert BucketOk(s'.bucket, s'.counter) by { StampedOk(s.bucket, s.counter, s.batch); }
    assert Decoded(s'.bucket) == Decoded(s.bucket) + Decoded(added) by { DecodedConcat(s.bucket, added); }
    assert NothingLost(s');
    assert ExactlyOnce(s') by { InsertStaysExactlyOnce(s, s', []); }
    assert DeleteIsCovered(s') by {
      assert forall i :: |s.bucket| <= i < |s'.bucket| ==> s'.bucket[i].key > s.counter;
    }
  }

  lemma PrefixDecodes(b: Bucket, n: nat, i: nat, counter: nat)
    requires BucketOk(b, counter) && 0 < n <= |b| && i < |b| && b[i].key <= b[n - 1].key && b[i].rec.Json?
    ensures b[i].rec.event in Decoded(b[..n])
  {
    assert i < n;
    DecodedMember(b[..n], b[i].rec.event);
    assert b[..n][i].rec == Json(b[i].rec.event);
  }

  /** Everything decodable up to the last peeked sequence number was peeked. */
  lemma PeekCovers(b: Bucket, limit: nat, counter: nat)
    requires BucketOk(b, counter)
    ensures
      var peeked := Take(Decoded(b), limit);
      && (forall e :: e in peeked ==> e in Decoded(b))
      && (peeked != [] ==>
            var last := peeked[|peeked| - 1].eventSeq;
            && last <= counter
            && forall i :: 0 <= i < |b| && b[i].key <= last && b[i].rec.Json? ==> b[i].rec.event in peeked)
  {
    var peeked := Take(Decoded(b), limit);
    if peeked != [] {
      var n := PeekPrefix(b, limit);
      forall i | 0 <= i < |b| && b[i].key <= b[n - 1].key && b[i].rec.Json?
        ensures b[i].rec.event in peeked
      {
        PrefixDecodes(b, n, i, counter);
      }
    }
  }

  lemma PeekKeeps(s: State, limit: nat)
    requires Inv(s)
    ensures Inv(Next(s, Step.Peek(limit)))
  {
    var s' := Next(s, Step.Peek(limit));
    PeekCovers(s.bucket, limit, s.counter);
    assert ExactlyOnce(s') by {
      forall r | r in s'.table ensures Accounted(s', r) { assert Accounted(s, r); }
    }
  }

  lemma CommitKeeps(s: State, request: seq<Event>)
    requires Inv(s) && request in s.sent
    ensures Inv(Next(s, Commit(request)))
  {
    var s' := Next(s, Commit(request));
    InsertKeepsKnown(s.table, request);
    assert NothingLost(s');
    assert RequestsKnown(s');
    assert ExactlyOnce(s') by { InsertStaysExactlyOnce(s, s', request); }
    assert DeleteIsCovered(s');
  }

  lemma OtherPostKeeps(s: State, request: seq<Event>)
    requires Inv(s)
    ensures Inv(Next(s, OtherPost(request)))
  {
    var s' := Next(s, OtherPost(request));
    InsertKeepsKnown(s.table, request);
    assert NothingLost(s');
    assert RequestsKnown(s');
    assert ExactlyOnce(s') by { InsertStaysExactlyOnce(s, s', request); }
    assert DeleteIsCovered(s');
  }

  /** Whatever is inserted, what the primary knew it still knows, and the request besides. */
  lemma InsertKeepsKnown(t: Table, request: seq<Event>)
    ensures forall e :: AtPrimary(t, e) || e in request ==> AtPrimary(InsertAll(t, request), e)
  {
    var t' := InsertAll(t, request);
    assert t <= t' by { InsertAllExtends(t, request); }
    assert forall e :: AtPrimary(t, e) ==> AtPrimary(t', e);
    InsertAllContents(t, request);
  }

  lemma InsertStaysExactlyOnce(s: State, s': State, request: seq<Event>)
    requires ExactlyOnce(s) && s'.table == InsertAll(s.table, request)
    requires s.buffered <= s'.buffered && s.others <= s'.others
    requires forall e :: e in request ==> e in s'.buffered || ToRow(e) in s'.others
    ensures ExactlyOnce(s')
  {
    InsertAllUnique(s.table, request);
    forall r | r in s'.table ensures Accounted(s', r) {
      if r in s.table {
        assert Accounted(s, r);
      } else {
        InsertAllOrigin(s.table, request, r);
        var e :| e in request && r == ToRow(e);
        assert e in s'.buffered || r in s'.others;
      }
    }
  }

  /** What a removal must respect for NothingLost to survive it. */
  lemma RemovalKeeps(s: State, s': State, ks: set<nat>)
    requires Inv(s)
    requires s' == s.(bucket := WithoutKeys(s.bucket, ks), peeked := s'.peeked, acked := s'.acked, pruned := s'.pruned)
    requires s'.peeked == s.peeked || s'.peeked == []
    requires s'.acked ==> s.acked && s'.peeked == s.peeked
    requires s.pruned <= s'.pruned
    requires forall i :: 0 <= i < |s.bucket| && s.bucket[i].rec.Json? && s.bucket[i].key in ks
               ==> s.bucket[i].rec.event in s'.pruned || AtPrimary(s.table, s.bucket[i].rec.event)
    ensures Inv(s')
  {
    WithoutKeysKeepsOk(s.bucket, ks, s.counter);
    forall e | e in Decoded(s'.bucket) ensures e in s'.buffered {
      DecodedWithout(s.bucket, ks, e);
      DecodedMember(s.bucket, e);
    }
    forall e | e in s'.buffered
      ensures e in Decoded(s'.bucket) || e in s'.pruned || AtPrimary(s'.table, e)
    {
      if e in Decoded(s.bucket) && e !in Decoded(s'.bucket) {
        DecodedMember(s.bucket, e);
        var i :| 0 <= i < |s.bucket| && s.bucket[i].rec == Json(e);
        DecodedWithout(s.bucket, ks, e);
      }
    }
    forall r | r in s'.table ensures Accounted(s', r) { assert Accounted(s, r); }
    forall i | 0 <= i < |s'.bucket| ensures s'.bucket[i] in s.bucket {
      WithoutKeysMember(s.bucket, ks, s'.bucket[i]);
    }
    assert DeleteIsCovered(s');
  }

  lemma DeleteKeeps(s: State)
    requires Inv(s) && Enabled(s, DeleteOk)
    ensures Inv(Next(s, DeleteOk))
  {
    var last := s.peeked[|s.peeked| - 1].eventSeq;
    RemovalKeeps(s, Next(s, DeleteOk), KeysUpTo(s.bucket, last));
  }

  lemma PruneKeeps(s: State, cutoff: int)
    requires Inv(s)
    ensures Inv(Next(s, Step.Prune(cutoff)))
  {
    var s' := Next(s, Step.Prune(cutoff));
    forall i | 0 <= i < |s.bucket| && s.bucket[i].rec.Json? && s.bucket[i].key in ExpiredKeys(s.bucket, cutoff)
      ensures s.bucket[i].rec.event in s'.pruned
    {
      var j :| 0 <= j < |s.bucket| && Expired(s.bucket[j], cutoff) && s.bucket[j].key == s.bucket[i].key;
      assert i == j;
      DecodedMember(s.bucket, s.bucket[i].rec.event);
    }
    RemovalKeeps(s, s', ExpiredKeys(s.bucket, cutoff));
  }

  lemma StepKeeps(s: State, step: Step)
    requires Inv(s) && Enabled(s, step)
    ensures Inv(Next(s, step))
  {
    var s' := Next(s, step);
    match step
    case FlushOk => FlushKeeps(s);
    case Peek(limit) => PeekKeeps(s, limit);
    case Commit(request) => CommitKeeps(s, request);
    case OtherPost(request) => OtherPostKeeps(s, request);
    case DeleteOk => DeleteKeeps(s);
    case Prune(cutoff) => PruneKeeps(s, cutoff);
    case Crash =>
      MaxKeyOk(s.bucket, s.counter);
      assert forall r :: r in s'.table ==> Accounted(s, r) ==> Accounted(s', r);
    case _ =>
      assert forall r :: r in s'.table ==> Accounted(s, r) ==> Accounted(s', r);
  }

  lemma InitInv(s: State)
    requires Init(s)
    ensures Inv(s)
  {
  }

  lemma {:induction false} RunKeeps(s: State, steps: seq<Step>)
    requires Inv(s) && Runs(s, steps)
    ensures Inv(Final(s, steps))
    decreases |steps|
  {
    if steps != [] {
      StepKeeps(s, steps[0]);
      RunKeeps(Next(s, steps[0]), steps[1..]);
    }
  }

  /** At-least-once delivery over an idempotent insert has an exactly-once effect: in every run,
      nothing buffered is lost except by age, no id is stored twice, and no row appears that was
      not buffered, found at start or posted by another node. */
  lemma EveryRunIsSafe(s: State, steps: seq<Step>)
    requires Init(s) && Runs(s, steps)
    ensures NothingLost(Final(s, steps))
    ensures ExactlyOnce(Final(s, steps))
    ensures BucketOk(Final(s, steps).bucket, Final(s, steps).counter)
  {
    InitInv(s);
    RunKeeps(s, steps);
  }

  // ------------------------------------------------------------------ what the rows hold

  /** An id belongs to one event, and rows of others under that id hold it too. */
  ghost predicate IdsTell(buffered: set<Event>, others: set<Row>) {
    && (forall e, f :: e in buffered && f in buffered && e.eventId == f.eventId && e.eventId != "" ==> e == f)
    && (forall e, r :: e in buffered && r in others && e.eventId != "" && r.eventId == Some(e.eventId) ==> Holds(r, e))
  }

  ghost predicate StoredFully(t: Table, e: Event) {
    exists r :: r in t && Holds(r, e)
  }

  /** Where an id tells its event, an event at the primary is there column by column. */
  lemma AtPrimaryIsStored(s: State, e: Event)
    requires ExactlyOnce(s) && IdsTell(s.buffered, s.others) && e in s.buffered && AtPrimary(s.table, e)
    ensures StoredFully(s.table, e)
  {
    ToRowHolds(e);
    if e.eventId != "" {
      var i :| 0 <= i < |s.table| && s.table[i].eventId == Some(e.eventId);
      var r := s.table[i];
      assert r in s.table && Accounted(s, r);
      if r !in s.others {
        var f :| f in s.buffered && r == ToRow(f);
        assert f == e;
      }
    }
  }
}
