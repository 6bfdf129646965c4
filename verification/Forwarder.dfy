/** The main loop of the dnstap processor (dnstap-processor/cmd/dnstap-processor/main.go):
    its in-memory batch, its counters, and the ticks that flush, forward and prune.
    The loop is a single goroutine, so each tick runs to its end unless the process dies. */
module Forwarder {
  import opened Prelude
  import opened EventBuffer
  import opened Ingest
  import Pipeline

  const MAX_BATCH: nat := 500

  /** How one POST ends: never committed (refused, unreachable), committed but unanswered
      within the timeout, or answered 2xx. */
  datatype PostOutcome = NotCommitted | CommittedNoAck | Acked

  /** The undecodable values of a bucket. */
  function Junk(b: Bucket): nat {
    if b == [] then 0 else (if b[0].rec.Json? then 0 else 1) + Junk(b[1..])
  }

  function JunkUpTo(b: Bucket, upTo: nat): nat {
    if b == [] then 0 else (if !b[0].rec.Json? && b[0].key <= upTo then 1 else 0) + JunkUpTo(b[1..], upTo)
  }

  /** The events stamped before the cutoff. */
  function ExpiredEvents(b: Bucket, cutoff: int): nat {
    if b == [] then 0 else (if b[0].rec.Json? && Expired(b[0], cutoff) then 1 else 0) + ExpiredEvents(b[1..], cutoff)
  }

  // ------------------------------------------------------------------ what one tick does

  datatype LoopState = LoopState(bucket: Bucket, counter: nat, batch: seq<Event>, table: Table)

  predicate PutsSucceed(n: nat, putFails: Option<nat>, commits: bool) {
    commits && !(putFails.Some? && putFails.value < n)
  }

  function AfterFlush(s: LoopState, putFails: Option<nat>, commits: bool): LoopState {
    if s.batch == [] then s
    else if PutsSucceed(|s.batch|, putFails, commits) then
      s.(bucket := s.bucket + Stamped(s.batch, s.counter), counter := s.counter + |s.batch|, batch := [])
    else s.(counter := s.counter + NumbersUsed(|s.batch|, putFails), batch := [])
  }

  function AfterAccept(s: LoopState, ev: Event, putFails: Option<nat>, commits: bool): LoopState {
    var s' := s.(batch := s.batch + [ev]);
    if |s'.batch| >= MAX_BATCH then AfterFlush(s', putFails, commits) else s'
  }

  function AfterForward(s: LoopState, outcome: PostOutcome, deleteCommits: bool): LoopState {
    s.(table := if outcome.NotCommitted? then s.table else InsertAll(s.table, Take(Decoded(s.bucket), MAX_BATCH)),
       bucket := if outcome.Acked? && deleteCommits then AckedForward(s.bucket, MAX_BATCH) else s.bucket)
  }

  function AfterPrune(s: LoopState, maxAge: int, now: int, commits: bool): LoopState {
    if maxAge > 0 && commits then s.(bucket := Pruned(s.bucket, now - maxAge)) else s
  }

  /** The process dies and starts again on the same file. */
  function AfterRestart(s: LoopState): LoopState {
    s.(counter := MaxKey(s.bucket), batch := [])
  }

  /** Conservation: the events that came in are still in the bucket or went out, and so for
      undecodable values. */
  ghost predicate Balanced(events: int, junk: int, b: Bucket, eventsOut: int, junkOut: int) {
    events == |Decoded(b)| + eventsOut && junk == Junk(b) + junkOut
  }

  class Loop {
    const buf: Buffer
    const primary: Primary
    var batch: seq<Event>
    var eventsBuffered: nat
    var eventsShipped: nat
    var eventsDropped: nat
    var bufferPending: nat
    ghost var initialEvents: int
    ghost var initialJunk: int
    ghost var eventsPruned: int
    ghost var junkRemoved: int

    /** Conservation: the events found at start plus those buffered since are pending, shipped
        or pruned; undecodable values are only ever removed. */
    ghost predicate Valid()
      reads this, buf
    {
      && buf.Valid()
      && |batch| <= MAX_BATCH
      && Balanced(initialEvents + eventsBuffered, initialJunk, buf.bucket, eventsShipped + eventsPruned, junkRemoved)
      && junkRemoved >= 0 && eventsPruned >= 0
    }

    ghost function State(): LoopState
      reads this, buf, primary
    {
      LoopState(buf.bucket, buf.counter, batch, primary.table)
    }

    constructor (buf: Buffer, primary: Primary)
      requires buf.Valid()
      ensures Valid() && this.buf == buf && this.primary == primary
      ensures batch == [] && eventsShipped == eventsBuffered == eventsDropped == 0
      ensures bufferPending == |buf.bucket| && State() == LoopState(buf.bucket, buf.counter, [], primary.table)
    {
      this.buf := buf;
      this.primary := primary;
      batch := [];
      eventsBuffered, eventsShipped, eventsDropped := 0, 0, 0;
      bufferPending := |buf.bucket|;
      initialEvents, initialJunk := |Decoded(buf.bucket)|, Junk(buf.bucket);
      eventsPruned, junkRemoved := 0, 0;
    }

    /** An event from either source joins the batch; a full batch is flushed at once. */
    method Accept(ev: Event, putFails: Option<nat>, commits: bool)
      requires Valid() && |batch| < MAX_BATCH
      modifies this, buf
      ensures Valid() && |batch| < 500
      ensures State() == AfterAccept(old(State()), ev, putFails, commits)
    {
      batch := batch + [ev];
      if |batch| >= MAX_BATCH {
        FlushToBuffer(putFails, commits);
      }
    }

    /** The batch is emptied either way: a failed write loses it and counts it as dropped. */
    method FlushToBuffer(putFails: Option<nat>, commits: bool)
      requires Valid()
      modifies this, buf
      ensures Valid() && batch == []
      ensures State() == AfterFlush(old(State()), putFails, commits)
      ensures |old(batch)| > 0 ==> bufferPending == |buf.bucket|
      ensures PutsSucceed(|old(batch)|, putFails, commits) ==>
                eventsBuffered == old(eventsBuffered) + |old(batch)| && eventsDropped == old(eventsDropped)
      ensures !PutsSucceed(|old(batch)|, putFails, commits) ==>
                eventsDropped == old(eventsDropped) + |old(batch)| && eventsBuffered == old(eventsBuffered)
      ensures eventsShipped == old(eventsShipped)
    {
      if |batch| == 0 {
        return;
      }
      var n := |batch|;
      var ok := buf.PutBatch(batch, putFails, commits);
      if !ok {
        eventsDropped := eventsDropped + n;
      } else {
        eventsBuffered := eventsBuffered + n;
        FlushLedger(old(buf.bucket), batch, old(buf.counter));
      }
      batch := [];
      bufferPending := buf.Count();
    }

    /** Peek, post, and only on an acknowledgement delete what was peeked. */
    method ForwardFromBuffer(outcome: PostOutcome, deleteCommits: bool)
      requires Valid()
      modifies this, buf, primary
      ensures Valid() && State() == AfterForward(old(State()), outcome, deleteCommits)
      ensures eventsShipped == old(eventsShipped)
                + if outcome.Acked? && deleteCommits then |Take(Decoded(old(buf.bucket)), MAX_BATCH)| else 0
      ensures eventsBuffered == old(eventsBuffered) && eventsDropped == old(eventsDropped)
    {
      var events := buf.Peek(MAX_BATCH);
      if |events| == 0 {
        return;
      }
      if outcome.NotCommitted? {
        return;
      }
      var _ := primary.Ingest(events);
      if outcome.CommittedNoAck? {
        return;
      }
      DeleteShipped(events, deleteCommits);
    }

    /** The tail of the tick, after a 2xx answer. */
    method DeleteShipped(events: seq<Event>, deleteCommits: bool)
      requires Valid()
      requires events != [] && events == Take(Decoded(buf.bucket), MAX_BATCH)
      modifies this, buf
      ensures Valid() && batch == old(batch)
      ensures deleteCommits ==> buf.bucket == After(old(buf.bucket), events[|events| - 1].eventSeq)
      ensures !deleteCommits ==> buf.bucket == old(buf.bucket)
      ensures eventsShipped == old(eventsShipped) + (if deleteCommits then |events| else 0)
      ensures buf.counter == old(buf.counter)
      ensures eventsBuffered == old(eventsBuffered) && eventsDropped == old(eventsDropped)
    {
      ghost var before := buf.bucket;
      var maxSeq := events[|events| - 1].eventSeq;
      assert Balanced(initialEvents + eventsBuffered, initialJunk, After(before, maxSeq),
                      eventsShipped + |events| + eventsPruned, junkRemoved + JunkUpTo(before, maxSeq)) by {
        ForwardLedger(before, buf.counter, events, maxSeq);
      }
      var ok := buf.Delete(maxSeq, deleteCommits);
      if ok {
        eventsShipped := eventsShipped + |events|;
        bufferPending := buf.Count();
        junkRemoved := junkRemoved + JunkUpTo(before, maxSeq);
      }
    }

    /** What is counted as pruned is what had expired: the events stamped before the cutoff. Every
        undecodable value goes with them. */
    method PruneTick(now: int, commits: bool)
      requires Valid()
      modifies this, buf
      ensures Valid() && State() == AfterPrune(old(State()), buf.maxAge, now, commits)
      ensures eventsBuffered == old(eventsBuffered) && eventsShipped == old(eventsShipped) && eventsDropped == old(eventsDropped)
      ensures commits && buf.maxAge > 0 ==>
                && eventsPruned == old(eventsPruned) + ExpiredEvents(old(buf.bucket), now - buf.maxAge)
                && junkRemoved == old(junkRemoved) + Junk(old(buf.bucket)) && Junk(buf.bucket) == 0
      ensures !(commits && buf.maxAge > 0) ==> eventsPruned == old(eventsPruned) && junkRemoved == old(junkRemoved)
    {
      var _ := buf.Prune(now, commits);
      if commits && buf.maxAge > 0 {
        ghost var before := old(buf.bucket);
        PruneLedger(before, buf.counter, now - buf.maxAge);
        eventsPruned := eventsPruned + ExpiredEvents(before, now - buf.maxAge);
        junkRemoved := junkRemoved + Junk(before);
      }
    }
  }

  // ------------------------------------------------------------------ the ledgers

  /** Events and undecodable values among the given keys. */
  ghost function EventsIn(b: Bucket, ks: set<nat>): nat {
    if b == [] then 0 else (if b[0].rec.Json? && b[0].key in ks then 1 else 0) + EventsIn(b[1..], ks)
  }

  ghost function JunkIn(b: Bucket, ks: set<nat>): nat {
    if b == [] then 0 else (if !b[0].rec.Json? && b[0].key in ks then 1 else 0) + JunkIn(b[1..], ks)
  }

  lemma {:induction false} RemovalLedger(b: Bucket, ks: set<nat>)
    ensures |Decoded(b)| == |Decoded(WithoutKeys(b, ks))| + EventsIn(b, ks)
    ensures Junk(b) == Junk(WithoutKeys(b, ks)) + JunkIn(b, ks)
  {
    if b != [] {
      RemovalLedger(b[1..], ks);
      var rest := WithoutKeys(b[1..], ks);
      if b[0].key !in ks {
        assert ([b[0]] + rest)[1..] == rest;
      } else {
        assert [] + rest == rest;
      }
    }
  }

  lemma {:induction false} ExpiredAre(b: Bucket, ks: set<nat>, cutoff: int)
    requires forall i :: 0 <= i < |b| ==> (b[i].key in ks <==> Expired(b[i], cutoff))
    ensures EventsIn(b, ks) == ExpiredEvents(b, cutoff) && JunkIn(b, ks) == Junk(b)
  {
    if b != [] { ExpiredAre(b[1..], ks, cutoff); }
  }

  lemma {:induction false} JunkUpToIs(b: Bucket, ks: set<nat>, upTo: nat)
    requires forall i :: 0 <= i < |b| ==> (b[i].key in ks <==> b[i].key <= upTo)
    ensures JunkIn(b, ks) == JunkUpTo(b, upTo)
  {
    if b != [] { JunkUpToIs(b[1..], ks, upTo); }
  }

  /** What a committed flush adds to the two sides of the conservation law. */
  lemma FlushLedger(b: Bucket, events: seq<Event>, counter: nat)
    ensures |Decoded(b + Stamped(events, counter))| == |Decoded(b)| + |events|
    ensures Junk(b + Stamped(events, counter)) == Junk(b)
  {
    DecodedConcat(b, Stamped(events, counter));
    JunkConcat(b, Stamped(events, counter));
    StampedDecodes(events, counter);
  }

  /** What pruning takes from them. */
  lemma PruneLedger(b: Bucket, counter: nat, cutoff: int)
    requires BucketOk(b, counter)
    ensures |Decoded(b)| == |Decoded(Pruned(b, cutoff))| + ExpiredEvents(b, cutoff)
    ensures Junk(Pruned(b, cutoff)) == 0
  {
    var ks := ExpiredKeys(b, cutoff);
    forall i | 0 <= i < |b| ensures b[i].key in ks <==> Expired(b[i], cutoff) {
      if b[i].key in ks {
        var j :| 0 <= j < |b| && Expired(b[j], cutoff) && b[j].key == b[i].key;
        assert i == j;
      }
    }
    RemovalLedger(b, ks);
    ExpiredAre(b, ks, cutoff);
  }

  /** What an acknowledged forward does to them: of the events exactly the peeked ones go. */
  lemma ForwardLedger(b: Bucket, counter: nat, peeked: seq<Event>, last: nat)
    requires BucketOk(b, counter) && peeked != [] && peeked == Take(Decoded(b), MAX_BATCH)
    requires last == peeked[|peeked| - 1].eventSeq
    ensures |Decoded(b)| == |peeked| + |Decoded(After(b, last))|
    ensures Junk(b) == Junk(After(b, last)) + JunkUpTo(b, last)
  {
    AckedForwardStep(b, MAX_BATCH, counter);
    RemovalLedger(b, KeysUpTo(b, last));
    JunkUpToIs(b, KeysUpTo(b, last), last);
  }

  lemma {:induction false} JunkConcat(a: Bucket, b: Bucket)
    ensures Junk(a + b) == Junk(a) + Junk(b)
  {
    if a == [] {
      assert a + b == b;
    } else {
      JunkConcat(a[1..], b);
      assert (a + b)[0] == a[0] && (a + b)[1..] == a[1..] + b;
    }
  }

  lemma {:induction false} StampedDecodes(events: seq<Event>, counter: nat)
    ensures |Decoded(Stamped(events, counter))| == |events| && Junk(Stamped(events, counter)) == 0
    decreases |events|
  {
    if events != [] {
      StampedDecodes(events[1..], counter + 1);
      assert Stamped(events, counter)[1..] == Stamped(events[1..], counter + 1);
    }
  }

  // ------------------------------------------------ a run of the loop is a run of the step system

  lemma RunsCons(s: Pipeline.State, step: Pipeline.Step, rest: seq<Pipeline.Step>)
    requires Pipeline.Enabled(s, step) && Pipeline.Runs(Pipeline.Next(s, step), rest)
    ensures Pipeline.Runs(s, [step] + rest)
    ensures Pipeline.Final(s, [step] + rest) == Pipeline.Final(Pipeline.Next(s, step), rest)
  {
  }

  lemma RunsOne(s: Pipeline.State, step: Pipeline.Step)
    requires Pipeline.Enabled(s, step)
    ensures Pipeline.Runs(s, [step]) && Pipeline.Final(s, [step]) == Pipeline.Next(s, step)
  {
  }

  /** Posting the peeked request and ending the tick in `tail`. */
  lemma PostRuns(s: Pipeline.State, peeked: seq<Event>, tail: seq<Pipeline.Step>)
    requires peeked != [] && peeked == Take(Decoded(s.bucket), MAX_BATCH)
    requires var s3 := s.(peeked := peeked, acked := false, sent := s.sent + {peeked},
                          table := InsertAll(s.table, peeked), committed := s.committed + {peeked});
             Pipeline.Runs(s3, tail)
    ensures var s3 := s.(peeked := peeked, acked := false, sent := s.sent + {peeked},
                         table := InsertAll(s.table, peeked), committed := s.committed + {peeked});
            var steps := [Pipeline.Peek(MAX_BATCH)] + ([Pipeline.Send] + ([Pipeline.Commit(peeked)] + tail));
            Pipeline.Runs(s, steps) && Pipeline.Final(s, steps) == Pipeline.Final(s3, tail)
  {
    var s1 := s.(peeked := peeked, acked := false);
    var s2 := s1.(sent := s.sent + {peeked});
    RunsCons(s2, Pipeline.Commit(peeked), tail);
    RunsCons(s1, Pipeline.Send, [Pipeline.Commit(peeked)] + tail);
    RunsCons(s, Pipeline.Peek(MAX_BATCH), [Pipeline.Send] + ([Pipeline.Commit(peeked)] + tail));
  }

  /** Posting it and hearing nothing, with nothing committed. */
  lemma LostRun(s: Pipeline.State, peeked: seq<Event>) returns (steps: seq<Pipeline.Step>)
    requires peeked != [] && peeked == Take(Decoded(s.bucket), MAX_BATCH)
    ensures Pipeline.Runs(s, steps)
    ensures Pipeline.Final(s, steps) == s.(peeked := [], acked := false, sent := s.sent + {peeked})
  {
    var s1 := s.(peeked := peeked, acked := false);
    RunsOne(s1.(sent := s.sent + {peeked}), Pipeline.GiveUp);
    RunsCons(s1, Pipeline.Send, [Pipeline.GiveUp]);
    RunsCons(s, Pipeline.Peek(MAX_BATCH), [Pipeline.Send] + [Pipeline.GiveUp]);
    steps := [Pipeline.Peek(MAX_BATCH)] + ([Pipeline.Send] + [Pipeline.GiveUp]);
  }

  /** A run of the loop so far: what it holds, and what its ticks did. `buffered` are the events that
      flushes wrote, `pruned` those that expired, `sent` the requests that were posted, `others` the
      rows that were at the primary before or that other nodes posted. */
  datatype Trace = Trace(
    loop: LoopState, buffered: set<Event>, pruned: set<Event>, sent: set<seq<Event>>, others: set<Row>)

  /** What the loop can do next with the faults that may strike, and what happens around it: the
      network delivers an earlier request late or again, and other nodes post. */
  datatype Tick =
    | Accept(ev: Event, putFails: Option<nat>, commits: bool)
    | Flush(putFails: Option<nat>, commits: bool)
    | Forward(outcome: PostOutcome, deleteCommits: bool)
    | Prune(now: int, commits: bool)
    | Restart
    | LateCommit(request: seq<Event>)
    | OtherPost(request: seq<Event>)

  /** The events a flush writes, with their sequence numbers. */
  ghost function Flushed(ls: LoopState, putFails: Option<nat>, commits: bool): set<Event> {
    if PutsSucceed(|ls.batch|, putFails, commits)
    then set i | 0 <= i < |ls.batch| :: ls.batch[i].(eventSeq := ls.counter + 1 + i)
    else {}
  }

  /** The events in the file that have expired. */
  ghost function ExpiredBy(ls: LoopState, maxAge: int, now: int, commits: bool): set<Event> {
    if maxAge > 0 && commits
    then set e | e in Decoded(ls.bucket) && e.ts.Stamp? && e.ts.ns < now - maxAge
    else {}
  }

  ghost function AfterTick(tr: Trace, maxAge: int, tick: Tick): Trace {
    var ls := tr.loop;
    match tick
    case Accept(ev, putFails, commits) =>
      var full := ls.(batch := ls.batch + [ev]);
      tr.(loop := AfterAccept(ls, ev, putFails, commits),
          buffered := tr.buffered + if |full.batch| >= MAX_BATCH then Flushed(full, putFails, commits) else {})
    case Flush(putFails, commits) =>
      tr.(loop := AfterFlush(ls, putFails, commits), buffered := tr.buffered + Flushed(ls, putFails, commits))
    case Forward(outcome, deleteCommits) =>
      var request := Take(Decoded(ls.bucket), MAX_BATCH);
      tr.(loop := AfterForward(ls, outcome, deleteCommits), sent := tr.sent + if request == [] then {} else {request})
    case Prune(now, commits) =>
      tr.(loop := AfterPrune(ls, maxAge, now, commits), pruned := tr.pruned + ExpiredBy(ls, maxAge, now, commits))
    case Restart => tr.(loop := AfterRestart(ls))
    case LateCommit(request) =>
      if request in tr.sent then tr.(loop := ls.(table := InsertAll(ls.table, request))) else tr
    case OtherPost(request) =>
      tr.(loop := ls.(table := InsertAll(ls.table, request)), others := tr.others + Pipeline.RowsOf(request))
  }

  ghost function AfterTicks(tr: Trace, maxAge: int, ticks: seq<Tick>): Trace {
    if ticks == [] then tr else AfterTick(AfterTicks(tr, maxAge, ticks[..|ticks| - 1]), maxAge, ticks[|ticks| - 1])
  }

  /** The step system's state shows what the loop holds and what it did. */
  ghost predicate Mirrors(s: Pipeline.State, tr: Trace) {
    && s.bucket == tr.loop.bucket && s.counter == tr.loop.counter && s.batch == tr.loop.batch && s.table == tr.loop.table
    && s.buffered == tr.buffered && s.pruned == tr.pruned && s.sent == tr.sent && s.others == tr.others
  }

  /** ForwardFromBuffer, whatever happens to its request, is a run of the step system. */
  lemma ForwardIsARun(s: Pipeline.State, tr: Trace, maxAge: int, outcome: PostOutcome, deleteCommits: bool)
    returns (steps: seq<Pipeline.Step>)
    requires Mirrors(s, tr)
    ensures Pipeline.Runs(s, steps)
    ensures Mirrors(Pipeline.Final(s, steps), AfterTick(tr, maxAge, Forward(outcome, deleteCommits)))
  {
    var peeked := Take(Decoded(s.bucket), MAX_BATCH);
    if peeked == [] {
      RunsOne(s, Pipeline.Peek(MAX_BATCH));
      return [Pipeline.Peek(MAX_BATCH)];
    }
    if outcome.NotCommitted? {
      steps := LostRun(s, peeked);
      return;
    }
    var s3 := s.(peeked := peeked, acked := false, sent := s.sent + {peeked},
                 table := InsertAll(s.table, peeked), committed := s.committed + {peeked});
    var tail;
    if outcome.CommittedNoAck? {
      tail := [Pipeline.GiveUp];
      RunsOne(s3, Pipeline.GiveUp);
    } else {
      var last := if deleteCommits then Pipeline.DeleteOk else Pipeline.DeleteFailed;
      tail := [Pipeline.Ack] + [last];
      RunsOne(s3.(acked := true), last);
      RunsCons(s3, Pipeline.Ack, [last]);
    }
    PostRuns(s, peeked, tail);
    steps := [Pipeline.Peek(MAX_BATCH)] + ([Pipeline.Send] + ([Pipeline.Commit(peeked)] + tail));
  }

  lemma {:induction false} StampedMember(events: seq<Event>, counter: nat, e: Event)
    ensures e in Decoded(Stamped(events, counter))
            <==> exists i :: 0 <= i < |events| && e == events[i].(eventSeq := counter + 1 + i)
  {
    var b := Stamped(events, counter);
    DecodedMember(b, e);
    if i :| 0 <= i < |b| && b[i].rec == Json(e) { assert e == events[i].(eventSeq := counter + 1 + i); }
    if i :| 0 <= i < |events| && e == events[i].(eventSeq := counter + 1 + i) { assert b[i].rec == Json(e); }
  }

  lemma FlushIsARun(s: Pipeline.State, tr: Trace, maxAge: int, putFails: Option<nat>, commits: bool)
    returns (steps: seq<Pipeline.Step>)
    requires Mirrors(s, tr)
    ensures Pipeline.Runs(s, steps)
    ensures Mirrors(Pipeline.Final(s, steps), AfterTick(tr, maxAge, Flush(putFails, commits)))
  {
    var ls := tr.loop;
    if ls.batch == [] {
      assert Flushed(ls, putFails, commits) == {};
      return [];
    }
    if PutsSucceed(|ls.batch|, putFails, commits) {
      RunsOne(s, Pipeline.FlushOk);
      assert Flushed(ls, putFails, commits) == Pipeline.EventSet(Decoded(Stamped(ls.batch, ls.counter))) by {
        forall e ensures e in Flushed(ls, putFails, commits) <==> e in Decoded(Stamped(ls.batch, ls.counter)) {
          StampedMember(ls.batch, ls.counter, e);
        }
      }
      return [Pipeline.FlushOk];
    }
    var step := Pipeline.FlushFailed(NumbersUsed(|ls.batch|, putFails));
    RunsOne(s, step);
    return [step];
  }

  lemma AcceptIsARun(s: Pipeline.State, tr: Trace, maxAge: int, ev: Event, putFails: Option<nat>, commits: bool)
    returns (steps: seq<Pipeline.Step>)
    requires Mirrors(s, tr)
    ensures Pipeline.Runs(s, steps)
    ensures Mirrors(Pipeline.Final(s, steps), AfterTick(tr, maxAge, Accept(ev, putFails, commits)))
  {
    var s1 := Pipeline.Next(s, Pipeline.Accept(ev));
    var tr1 := tr.(loop := tr.loop.(batch := tr.loop.batch + [ev]));
    var rest := [];
    if |tr1.loop.batch| >= MAX_BATCH {
      rest := FlushIsARun(s1, tr1, maxAge, putFails, commits);
    }
    RunsCons(s, Pipeline.Accept(ev), rest);
    steps := [Pipeline.Accept(ev)] + rest;
  }

  lemma TickIsARun(s: Pipeline.State, tr: Trace, maxAge: int, tick: Tick) returns (steps: seq<Pipeline.Step>)
    requires Mirrors(s, tr)
    ensures Pipeline.Runs(s, steps) && Mirrors(Pipeline.Final(s, steps), AfterTick(tr, maxAge, tick))
  {
    match tick
    case Accept(ev, putFails, commits) =>
      steps := AcceptIsARun(s, tr, maxAge, ev, putFails, commits);
    case Flush(putFails, commits) =>
      steps := FlushIsARun(s, tr, maxAge, putFails, commits);
    case Forward(outcome, deleteCommits) =>
      steps := ForwardIsARun(s, tr, maxAge, outcome, deleteCommits);
    case Prune(now, commits) =>
      steps := if maxAge > 0 && commits then [Pipeline.Prune(now - maxAge)] else [];
      if steps != [] { RunsOne(s, Pipeline.Prune(now - maxAge)); }
    case Restart =>
      RunsOne(s, Pipeline.Crash);
      steps := [Pipeline.Crash];
    case LateCommit(request) =>
      steps := if request in tr.sent then [Pipeline.Commit(request)] else [];
      if steps != [] { RunsOne(s, Pipeline.Commit(request)); }
    case OtherPost(request) =>
      RunsOne(s, Pipeline.OtherPost(request));
      steps := [Pipeline.OtherPost(request)];
  }

  lemma {:induction false} RunsConcat(s: Pipeline.State, a: seq<Pipeline.Step>, b: seq<Pipeline.Step>)
    requires Pipeline.Runs(s, a) && Pipeline.Runs(Pipeline.Final(s, a), b)
    ensures Pipeline.Runs(s, a + b) && Pipeline.Final(s, a + b) == Pipeline.Final(Pipeline.Final(s, a), b)
    decreases |a|
  {
    if a == [] {
      assert a + b == b;
    } else {
      RunsConcat(Pipeline.Next(s, a[0]), a[1..], b);
      RunsCons(s, a[0], a[1..] + b);
      assert a + b == [a[0]] + (a[1..] + b);
    }
  }

  /** Every run of the loop, with faults and restarts, is a run of the step system that buffers,
      prunes and sends the same. */
  lemma {:induction false} LoopIsARun(s: Pipeline.State, tr: Trace, maxAge: int, ticks: seq<Tick>)
    returns (steps: seq<Pipeline.Step>)
    requires Mirrors(s, tr)
    ensures Pipeline.Runs(s, steps) && Mirrors(Pipeline.Final(s, steps), AfterTicks(tr, maxAge, ticks))
    decreases |ticks|
  {
    if ticks == [] {
      return [];
    }
    var before := ticks[..|ticks| - 1];
    var first := LoopIsARun(s, tr, maxAge, before);
    var last := TickIsARun(Pipeline.Final(s, first), AfterTicks(tr, maxAge, before), maxAge, ticks[|ticks| - 1]);
    RunsConcat(s, first, last);
    steps := first + last;
  }

  /** The file holds what an earlier process left in it, the primary whatever it holds. */
  ghost function AtStart(disk: Bucket, table: Table): Trace {
    Trace(LoopState(disk, MaxKey(disk), [], table), Pipeline.EventSet(Decoded(disk)), {}, {}, Pipeline.RowSet(table))
  }

  /** Whatever the loop, the network and other nodes do, from any file in order and any table with
      unique ids: each event that was in the file or that a flush wrote is in the file, at the primary
      or expired, and where an id tells its event it is there column by column; no id is at the primary
      twice; each row there is another's or that of such an event; and the file stays in order. */
  lemma EveryLoopRunIsSafe(disk: Bucket, table: Table, maxAge: int, ticks: seq<Tick>)
    requires BucketOk(disk, MaxKey(disk)) && UniqueIds(table)
    ensures var tr := AfterTicks(AtStart(disk, table), maxAge, ticks);
            && (forall e :: e in tr.buffered ==>
                  e in Decoded(tr.loop.bucket) || e in tr.pruned || AtPrimary(tr.loop.table, e))
            && (Pipeline.IdsTell(tr.buffered, tr.others) ==> forall e :: e in tr.buffered ==>
                  e in Decoded(tr.loop.bucket) || e in tr.pruned || Pipeline.StoredFully(tr.loop.table, e))
            && UniqueIds(tr.loop.table)
            && (forall r :: r in tr.loop.table ==> r in tr.others || exists e :: e in tr.buffered && r == ToRow(e))
            && BucketOk(tr.loop.bucket, tr.loop.counter)
  {
    var tr := AtStart(disk, table);
    var s := Pipeline.State(disk, MaxKey(disk), [], [], false, {}, {}, table, tr.buffered, {}, tr.others);
    var steps := LoopIsARun(s, tr, maxAge, ticks);
    Pipeline.EveryRunIsSafe(s, steps);
    var s' := Pipeline.Final(s, steps);
    assert forall r :: r in s'.table ==> Pipeline.Accounted(s', r);
    if Pipeline.IdsTell(s'.buffered, s'.others) {
      forall e | e in s'.buffered && AtPrimary(s'.table, e) ensures Pipeline.StoredFully(s'.table, e) {
        Pipeline.AtPrimaryIsStored(s', e);
      }
    }
  }
}
