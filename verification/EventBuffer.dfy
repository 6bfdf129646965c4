/** The node's durable event queue (dnstap-processor/internal/buffer/buffer.go).

    A bucket is the list of its entries in key order, which is how bbolt's cursor walks it.
    A failed transaction leaves the bucket as it was; what it did to the in-memory counter stays. */
module EventBuffer {
  import opened Prelude

  /** The `ts` field: a time in nanoseconds, or text that RFC 3339 parsing refuses. */
  datatype Timestamp = Stamp(ns: int) | Unparsed(text: string)

  datatype Event = Event(
    eventSeq: nat, ts: Timestamp, clientIP: string, qname: string, qtype: int, rcode: int,
    blocked: bool, latencyMs: int, eventId: string, blockReason: string, isInternal: bool)

  /** A stored value: the JSON of an event, or bytes that do not decode. */
  datatype Record = Json(event: Event) | Undecodable(raw: string)

  datatype Entry = Entry(key: nat, rec: Record)

  type Bucket = seq<Entry>

  ghost predicate Sorted(b: Bucket) {
    forall i, j :: 0 <= i < j < |b| ==> b[i].key < b[j].key
  }

  /** The buffer invariant: keys ascend, none exceeds the counter, and a decodable value
      carries its own key as `event_seq`. */
  ghost predicate BucketOk(b: Bucket, counter: nat) {
    && Sorted(b)
    && forall i :: 0 <= i < |b| ==>
         b[i].key <= counter && (b[i].rec.Json? ==> b[i].rec.event.eventSeq == b[i].key)
  }

  /** The decodable events, in key order. */
  function Decoded(b: Bucket): seq<Event> {
    if b == [] then []
    else (if b[0].rec.Json? then [b[0].rec.event] else []) + Decoded(b[1..])
  }

  /** The entries a committed batch adds: consecutive sequence numbers after the counter. */
  function Stamped(events: seq<Event>, counter: nat): (b: Bucket)
    ensures |b| == |events|
  {
    seq(|events|, i requires 0 <= i < |events| =>
      Entry(counter + 1 + i, Json(events[i].(eventSeq := counter + 1 + i))))
  }

  function WithoutKeys(b: Bucket, ks: set<nat>): Bucket {
    if b == [] then []
    else (if b[0].key in ks then [] else [b[0]]) + WithoutKeys(b[1..], ks)
  }

  function KeysUpTo(b: Bucket, upTo: nat): set<nat> {
    set i | 0 <= i < |b| && b[i].key <= upTo :: b[i].key
  }

  /** What Delete leaves behind. */
  function After(b: Bucket, upTo: nat): Bucket {
    WithoutKeys(b, KeysUpTo(b, upTo))
  }

  /** What Prune drops: undecodable values, and events stamped before the cutoff. */
  predicate Expired(e: Entry, cutoff: int) {
    match e.rec
    case Undecodable(_) => true
    case Json(ev) => ev.ts.Stamp? && ev.ts.ns < cutoff
  }

  function ExpiredKeys(b: Bucket, cutoff: int): set<nat> {
    set i | 0 <= i < |b| && Expired(b[i], cutoff) :: b[i].key
  }

  function Pruned(b: Bucket, cutoff: int): Bucket {
    WithoutKeys(b, ExpiredKeys(b, cutoff))
  }

  /** bucket.Put: replaces the value under an existing key, or inserts in key order. */
  function BucketPut(b: Bucket, e: Entry): Bucket {
    if b == [] || e.key < b[0].key then [e] + b
    else if e.key == b[0].key then [e] + b[1..]
    else [b[0]] + BucketPut(b[1..], e)
  }

  function KeySet(ks: seq<nat>): set<nat> {
    set k | k in ks
  }

  /** The counter Open starts from: the last key, or 0 on an empty bucket. */
  function MaxKey(b: Bucket): nat {
    if b == [] then 0 else b[|b| - 1].key
  }

  // ------------------------------------------------------------------ facts about buckets

  lemma {:induction false} PutAppends(b: Bucket, e: Entry)
    requires forall i :: 0 <= i < |b| ==> b[i].key < e.key
    ensures BucketPut(b, e) == b + [e]
  {
    if b != [] {
      PutAppends(b[1..], e);
      assert b == [b[0]] + b[1..];
    }
  }

  lemma {:induction false} DecodedMember(b: Bucket, e: Event)
    ensures e in Decoded(b) <==> exists i :: 0 <= i < |b| && b[i].rec == Json(e)
  {
    if b != [] {
      DecodedMember(b[1..], e);
      if i :| 0 <= i < |b| && b[i].rec == Json(e) {
        if i > 0 { assert b[1..][i - 1].rec == Json(e); }
      }
      if i :| 0 <= i < |b[1..]| && b[1..][i].rec == Json(e) {
        assert b[i + 1].rec == Json(e);
      }
    }
  }

  lemma {:induction false} DecodedConcat(a: Bucket, b: Bucket)
    ensures Decoded(a + b) == Decoded(a) + Decoded(b)
  {
    if a == [] {
      assert a + b == b;
    } else {
      var head := if a[0].rec.Json? then [a[0].rec.event] else [];
      DecodedConcat(a[1..], b);
      assert Decoded(a + b) == head + Decoded(a[1..] + b) by {
        assert (a + b)[0] == a[0] && (a + b)[1..] == a[1..] + b;
      }
      assert Decoded(a) == head + Decoded(a[1..]);
    }
  }

  lemma {:induction false} WithoutKeysMember(b: Bucket, ks: set<nat>, e: Entry)
    ensures e in WithoutKeys(b, ks) <==> e in b && e.key !in ks
  {
    if b != [] {
      WithoutKeysMember(b[1..], ks, e);
      assert b == [b[0]] + b[1..];
    }
  }

  lemma {:induction false} WithoutKeysTwice(b: Bucket, ks: set<nat>, ls: set<nat>)
    ensures WithoutKeys(WithoutKeys(b, ks), ls) == WithoutKeys(b, ks + ls)
  {
    if b != [] {
      WithoutKeysTwice(b[1..], ks, ls);
      if b[0].key !in ks {
        assert ([b[0]] + WithoutKeys(b[1..], ks))[1..] == WithoutKeys(b[1..], ks);
      } else {
        assert [] + WithoutKeys(b[1..], ks) == WithoutKeys(b[1..], ks);
      }
    }
  }

  lemma {:induction false} WithoutKeysKeepsOk(b: Bucket, ks: set<nat>, counter: nat)
    requires BucketOk(b, counter)
    ensures BucketOk(WithoutKeys(b, ks), counter)
  {
    if b != [] {
      var t := WithoutKeys(b[1..], ks);
      WithoutKeysKeepsOk(b[1..], ks, counter);
      forall i | 0 <= i < |t| ensures b[0].key < t[i].key {
        WithoutKeysMember(b[1..], ks, t[i]);
      }
    }
  }

  lemma {:induction false} WithoutAbsentKeys(b: Bucket, ks: set<nat>)
    requires forall i :: 0 <= i < |b| ==> b[i].key !in ks
    ensures WithoutKeys(b, ks) == b
  {
    if b != [] {
      WithoutAbsentKeys(b[1..], ks);
      assert b == [b[0]] + b[1..];
    }
  }

  lemma {:induction false} WithoutPrefix(b: Bucket, n: nat, ks: set<nat>)
    requires n <= |b|
    requires forall i :: 0 <= i < |b| ==> (b[i].key in ks <==> i < n)
    ensures WithoutKeys(b, ks) == b[n..]
  {
    if n == 0 {
      WithoutAbsentKeys(b, ks);
    } else {
      WithoutPrefix(b[1..], n - 1, ks);
      assert b[1..][n - 1..] == b[n..];
    }
  }

  /** Delete keeps exactly the tail that lies above the bound. */
  lemma AfterIsTail(b: Bucket, n: nat, upTo: nat)
    requires Sorted(b) && n <= |b|
    requires forall i :: 0 <= i < |b| ==> (b[i].key <= upTo <==> i < n)
    ensures After(b, upTo) == b[n..]
  {
    forall i | 0 <= i < |b| ensures b[i].key in KeysUpTo(b, upTo) <==> i < n {}
    WithoutPrefix(b, n, KeysUpTo(b, upTo));
  }

  // ---------------------------------------------------------- what a peek then delete removes

  /** Where the peeked events stop: the shortest prefix of the bucket that decodes to them. */
  lemma {:induction false} PeekPrefix(b: Bucket, limit: nat) returns (n: nat)
    requires Decoded(b) != [] && limit > 0
    ensures 0 < n <= |b|
    ensures Decoded(b[..n]) == Take(Decoded(b), limit)
    ensures b[n - 1].rec.Json? && Decoded(b[..n])[|Decoded(b[..n])| - 1] == b[n - 1].rec.event
  {
    var rest := b[1..];
    if b[0].rec.Json? && (limit == 1 || Decoded(rest) == []) {
      n := 1;
      assert b[..1] == [b[0]];
    } else {
      var m := PeekPrefix(rest, if b[0].rec.Json? then limit - 1 else limit);
      n := m + 1;
      assert b[..n] == [b[0]] + rest[..m];
      DecodedConcat([b[0]], rest[..m]);
      DecodedConcat([b[0]], rest);
      assert b == [b[0]] + rest;
    }
  }

  /** The central fact about shipping: with any number of later puts `newer` between the peek
      and the delete, Delete(last peeked seq) removes exactly the peeked events among the
      decodable ones, and leaves every newer entry. */
  lemma DeleteRemovesExactlyPeeked(b: Bucket, newer: Bucket, limit: nat, counter: nat, counter': nat)
    requires BucketOk(b, counter) && BucketOk(b + newer, counter')
    requires forall i :: 0 <= i < |newer| ==> newer[i].key > counter
    requires Take(Decoded(b), limit) != []
    ensures
      var peeked := Take(Decoded(b), limit);
      var kept := After(b + newer, peeked[|peeked| - 1].eventSeq);
      && Decoded(b + newer) == peeked + Decoded(kept)
      && |newer| <= |kept| <= |b + newer| - |peeked|
      && kept[|kept| - |newer|..] == newer
  {
    var n := PeekPrefix(b, limit);
    var last := b[n - 1].key;
    var all := b + newer;
    assert forall i :: 0 <= i < |b| ==> all[i] == b[i];
    forall i | 0 <= i < |all| ensures all[i].key <= last <==> i < n {
      if i >= n { assert all[n - 1].key < all[i].key; }
      if i < n - 1 { assert all[i].key < all[n - 1].key; }
    }
    assert After(all, last) == all[n..] by { AfterIsTail(all, n, last); }
    assert Decoded(all) == Decoded(b[..n]) + Decoded(all[n..]) by {
      assert all == all[..n] + all[n..] && all[..n] == b[..n];
      DecodedConcat(all[..n], all[n..]);
    }
    assert |Decoded(b[..n])| <= n by { DecodedAtMost(b[..n]); }
  }

  lemma {:induction false} DecodedAtMost(b: Bucket)
    ensures |Decoded(b)| <= |b|
  {
    if b != [] { DecodedAtMost(b[1..]); }
  }

  /** One acknowledged forward with no put in between. */
  function AckedForward(b: Bucket, limit: nat): Bucket {
    var peeked := Take(Decoded(b), limit);
    if peeked == [] then b else After(b, peeked[|peeked| - 1].eventSeq)
  }

  function AckedForwards(b: Bucket, limit: nat, ticks: nat): Bucket
    decreases ticks
  {
    if ticks == 0 then b else AckedForwards(AckedForward(b, limit), limit, ticks - 1)
  }

  lemma AckedForwardStep(b: Bucket, limit: nat, counter: nat)
    requires BucketOk(b, counter)
    ensures BucketOk(AckedForward(b, limit), counter)
    ensures Decoded(b) == Take(Decoded(b), limit) + Decoded(AckedForward(b, limit))
  {
    var peeked := Take(Decoded(b), limit);
    if peeked != [] {
      var last := peeked[|peeked| - 1].eventSeq;
      assert Decoded(b) == peeked + Decoded(After(b, last)) by {
        assert b + [] == b;
        DeleteRemovesExactlyPeeked(b, [], limit, counter, counter);
      }
      assert BucketOk(After(b, last), counter) by { WithoutKeysKeepsOk(b, KeysUpTo(b, last), counter); }
    }
  }

  lemma DrainArithmetic(n: nat, limit: nat, ticks: nat)
    requires ticks > 0
    ensures Max(0, Max(0, n - limit) - limit * (ticks - 1)) == Max(0, n - limit * ticks)
  {
  }

  /** Bounded drain: undecodable values never block the queue, and once posts are acknowledged
      every decodable event is gone after enough ticks. */
  lemma {:induction false} Drains(b: Bucket, limit: nat, counter: nat, ticks: nat)
    requires BucketOk(b, counter)
    ensures BucketOk(AckedForwards(b, limit, ticks), counter)
    ensures |Decoded(AckedForwards(b, limit, ticks))| == Max(0, |Decoded(b)| - limit * ticks)
    decreases ticks
  {
    if ticks > 0 {
      var b' := AckedForward(b, limit);
      assert BucketOk(b', counter) && |Decoded(b')| == Max(0, |Decoded(b)| - limit) by {
        AckedForwardStep(b, limit, counter);
      }
      Drains(b', limit, counter, ticks - 1);
      DrainArithmetic(|Decoded(b)|, limit, ticks);
    }
  }

  /** Pruning leaves exactly the decodable events that are not stamped before the cutoff, those with
      an unreadable time among them. */
  lemma PrunedMember(b: Bucket, cutoff: int, e: Entry)
    requires Sorted(b)
    ensures e in Pruned(b, cutoff) <==>
              e in b && e.rec.Json? && (e.rec.event.ts.Unparsed? || e.rec.event.ts.ns >= cutoff)
  {
    WithoutKeysMember(b, ExpiredKeys(b, cutoff), e);
    if e in b {
      var i :| 0 <= i < |b| && b[i] == e;
      if e.key in ExpiredKeys(b, cutoff) {
        var j :| 0 <= j < |b| && Expired(b[j], cutoff) && b[j].key == e.key;
        assert i == j;
      }
    }
  }

  // ------------------------------------------------------------------ the buffer object

  /** How far a batch of `n` advances the counter: up to the put that fails, if one does. */
  function NumbersUsed(n: nat, putFails: Option<nat>): (used: nat)
    ensures used <= n
  {
    if putFails.Some? && putFails.value < n then putFails.value + 1 else n
  }

  class Buffer {
    var bucket: Bucket
    var counter: nat
    const maxAge: int

    ghost predicate Valid()
      reads this
    {
      BucketOk(bucket, counter)
    }

    /** Reopening resumes from the last key, so an emptied bucket restarts at 1. */
    constructor Open(disk: Bucket, maxAge: int)
      requires BucketOk(disk, MaxKey(disk))
      ensures Valid()
      ensures bucket == disk && counter == MaxKey(disk) && this.maxAge == maxAge
    {
      bucket := disk;
      counter := MaxKey(disk);
      this.maxAge := maxAge;
    }

    method NextSeq() returns (r: nat)
      modifies this`counter
      ensures r == counter == old(counter) + 1
    {
      counter := counter + 1;
      r := counter;
    }

    /** One transaction for the whole batch. `putFails` names the put that fails, if any;
        `commits` says whether the commit itself succeeds. */
    method PutBatch(events: seq<Event>, putFails: Option<nat>, commits: bool) returns (ok: bool)
      requires Valid()
      modifies this
      ensures Valid()
      ensures ok <==> commits && !(putFails.Some? && putFails.value < |events|)
      ensures ok ==> bucket == old(bucket) + Stamped(events, old(counter))
      ensures ok ==> counter == old(counter) + |events|
      ensures !ok ==> bucket == old(bucket) && counter == old(counter) + NumbersUsed(|events|, putFails)
    {
      var tx := bucket;
      ghost var start := counter;
      var i := 0;
      while i < |events|
        invariant 0 <= i <= |events|
        invariant bucket == old(bucket)
        invariant counter == start + i
        invariant tx == bucket + Stamped(events, start)[..i]
        invariant putFails.Some? && putFails.value < |events| ==> i <= putFails.value
      {
        var s := NextSeq();
        if putFails == Some(i) {
          return false;
        }
        var entry := Entry(s, Json(events[i].(eventSeq := s)));
        PutAppends(tx, entry);
        tx := BucketPut(tx, entry);
        i := i + 1;
      }
      if !commits {
        return false;
      }
      assert Stamped(events, start)[..|events|] == Stamped(events, start);
      bucket := tx;
      return true;
    }

    /** At most `limit` decodable events from the front; nothing changes. */
    method Peek(limit: nat) returns (events: seq<Event>)
      ensures events == Take(Decoded(bucket), limit)
    {
      events := [];
      var i := 0;
      while i < |bucket| && |events| < limit
        invariant 0 <= i <= |bucket|
        invariant |events| <= limit
        invariant Decoded(bucket) == events + Decoded(bucket[i..])
      {
        assert bucket[i..][1..] == bucket[i + 1..];
        if bucket[i].rec.Json? {
          events := events + [bucket[i].rec.event];
        }
        i := i + 1;
      }
    }

    /** The cursor stops at the first key above the bound; a failed commit removes nothing. */
    method Delete(upTo: nat, commits: bool) returns (ok: bool)
      requires Valid()
      modifies this`bucket
      ensures Valid()
      ensures ok == commits
      ensures bucket == if ok then After(old(bucket), upTo) else old(bucket)
    {
      var tx := bucket;
      var i := 0;
      while i < |bucket| && bucket[i].key <= upTo
        invariant 0 <= i <= |bucket|
        invariant bucket == old(bucket)
        invariant forall j :: 0 <= j < i ==> bucket[j].key <= upTo
        invariant tx == bucket[i..]
      {
        WithoutPrefix(tx, 1, {bucket[i].key});
        tx := WithoutKeys(tx, {bucket[i].key});
        i := i + 1;
      }
      AfterIsTail(bucket, i, upTo);
      WithoutKeysKeepsOk(bucket, KeysUpTo(bucket, upTo), counter);
      if !commits {
        return false;
      }
      bucket := tx;
      return true;
    }

    method Count() returns (n: nat)
      ensures n == |bucket|
    {
      n := |bucket|;
    }

    /** First collects the expired keys, then deletes them in one transaction. */
    method Prune(now: int, commits: bool) returns (ok: bool)
      requires Valid()
      modifies this`bucket
      ensures Valid()
      ensures maxAge <= 0 ==> ok && bucket == old(bucket)
      ensures maxAge > 0 && ok ==> bucket == Pruned(old(bucket), now - maxAge)
      ensures !ok || !commits ==> bucket == old(bucket)
      ensures commits ==> ok
    {
      if maxAge <= 0 {
        return true;
      }
      var cutoff := now - maxAge;
      var toDelete: seq<nat> := [];
      var i := 0;
      while i < |bucket|
        invariant 0 <= i <= |bucket|
        invariant forall k :: k in toDelete <==> exists j :: 0 <= j < i && Expired(bucket[j], cutoff) && bucket[j].key == k
      {
        if Expired(bucket[i], cutoff) {
          toDelete := toDelete + [bucket[i].key];
        }
        i := i + 1;
      }
      assert forall k :: k in toDelete <==> k in ExpiredKeys(bucket, cutoff);
      if |toDelete| == 0 {
        WithoutAbsentKeys(bucket, ExpiredKeys(bucket, cutoff));
        return true;
      }
      var tx := bucket;
      WithoutAbsentKeys(bucket, {});
      assert KeySet(toDelete[..0]) == {};
      i := 0;
      while i < |toDelete|
        invariant 0 <= i <= |toDelete|
        invariant bucket == old(bucket)
        invariant tx == WithoutKeys(bucket, KeySet(toDelete[..i]))
      {
        WithoutKeysTwice(bucket, KeySet(toDelete[..i]), {toDelete[i]});
        assert KeySet(toDelete[..i + 1]) == KeySet(toDelete[..i]) + {toDelete[i]};
        tx := WithoutKeys(tx, {toDelete[i]});
        i := i + 1;
      }
      if !commits {
        return false;
      }
      assert KeySet(toDelete[..|toDelete|]) == ExpiredKeys(bucket, cutoff);
      WithoutKeysKeepsOk(bucket, ExpiredKeys(bucket, cutoff), counter);
      bucket := tx;
      return true;
    }
  }
}
