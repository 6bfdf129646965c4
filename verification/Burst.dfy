/** The boot warm burst (admin-ui/app/services/boot_burst.py): a bounded pool of workers, each
    warming one pair with retries, over every interleaving of their atomic sections. */
module Burst {
  import opened Prelude
  import opened Precache

  /** What one DNS send brings back: the answer's TTL, or nothing usable. */
  type Outcome = Option<int>

  /** Where the work on one pair stands. `outs` lists the outcomes of its completed sends. */
  datatype Job =
    | Pending
    | Waiting(outs: seq<Outcome>)     // in a pacer or a back-off sleep
    | Sending(outs: seq<Outcome>)     // counted in in_flight
    | Returned(outs: seq<Outcome>)    // back from send_fn, result not yet examined
    | Done(outs: seq<Outcome>)

  datatype State = State(
    jobs: seq<Job>, inFlight: int, maxConcurrency: int, queriesSent: int, cache: Cache)

  datatype Step =
    | Start(i: nat)                   // a free worker takes the job
    | BeginSend(i: nat)
    | EndSend(i: nat, outcome: Outcome)
    | Settle(i: nat, now: real)       // record and finish, retry, or give up

  datatype Params = Params(work: seq<Pair>, workers: nat, maxRetries: nat, before: Cache)

  function Succeeded(outs: seq<Outcome>): bool {
    outs != [] && outs[|outs| - 1].Some?
  }

  predicate Enabled(p: Params, s: State, step: Step) {
    && step.i < |s.jobs|
    && match step
       case Start(i) => s.jobs[i].Pending? && Tally(s.jobs, Running) < p.workers
       case BeginSend(i) => s.jobs[i].Waiting?
       case EndSend(i, _) => s.jobs[i].Sending?
       case Settle(i, _) => s.jobs[i].Returned?
  }

  function Next(p: Params, s: State, step: Step): State
    requires |s.jobs| == |p.work| && Enabled(p, s, step)
  {
    match step
    case Start(i) => s.(jobs := s.jobs[i := Waiting([])])
    case BeginSend(i) =>
      s.(jobs := s.jobs[i := Sending(s.jobs[i].outs)], inFlight := s.inFlight + 1,
         maxConcurrency := Max(s.maxConcurrency, s.inFlight + 1))
    case EndSend(i, outcome) =>
      s.(jobs := s.jobs[i := Returned(s.jobs[i].outs + [outcome])], inFlight := s.inFlight - 1,
         queriesSent := s.queriesSent + 1)
    case Settle(i, now) =>
      var outs := s.jobs[i].outs;
      if Succeeded(outs) then
        s.(jobs := s.jobs[i := Done(outs)],
           cache := Record(s.cache, Warm(p.work[i], outs[|outs| - 1].value, now)))
      else if |outs| <= p.maxRetries then s.(jobs := s.jobs[i := Waiting(outs)])
      else s.(jobs := s.jobs[i := Done(outs)])
  }

  // ------------------------------------------------------------------ tallies over the jobs

  datatype Quantity = InFlight | Running | Sent | Fuel(maxRetries: nat)

  function Amount(j: Job, q: Quantity): nat {
    match q
    case InFlight => if j.Sending? then 1 else 0
    case Running => if j.Pending? || j.Done? then 0 else 1
    case Sent => if j.Pending? then 0 else |j.outs|
    case Fuel(r) =>
      (match j
       case Pending => 3 * (r + 1) + 1
       case Waiting(outs) => 3 * Left(r, outs)
       case Sending(outs) => if Left(r, outs) == 0 then 0 else 3 * (Left(r, outs) - 1) + 2
       case Returned(outs) => 3 * Left(r, outs) + 1
       case Done(_) => 0)
  }

  /** Attempts that remain after these. */
  function Left(maxRetries: nat, outs: seq<Outcome>): nat {
    if |outs| <= maxRetries then maxRetries + 1 - |outs| else 0
  }

  function Tally(jobs: seq<Job>, q: Quantity): nat {
    if jobs == [] then 0 else Tally(jobs[..|jobs| - 1], q) + Amount(jobs[|jobs| - 1], q)
  }

  lemma {:induction false} TallyUpdate(jobs: seq<Job>, i: nat, j: Job, q: Quantity)
    requires i < |jobs|
    ensures Tally(jobs[i := j], q) == Tally(jobs, q) - Amount(jobs[i], q) + Amount(j, q)
    decreases |jobs|
  {
    var n := |jobs| - 1;
    if i < n {
      TallyUpdate(jobs[..n], i, j, q);
      assert jobs[i := j][..n] == jobs[..n][i := j];
    } else {
      assert jobs[i := j][..n] == jobs[..n];
    }
  }

  lemma {:induction false} TallyOrder(jobs: seq<Job>)
    ensures Tally(jobs, InFlight) <= Tally(jobs, Running)
  {
    if jobs != [] { TallyOrder(jobs[..|jobs| - 1]); }
  }

  // ------------------------------------------------------------------ the invariant

  /** Sends after which no success has been seen yet. */
  ghost predicate AllFailed(outs: seq<Outcome>) {
    forall k :: 0 <= k < |outs| ==> outs[k].None?
  }

  /** A finished attempt series: 1 to max_retries + 1 sends, nothing after a success, and no early
      surrender. */
  ghost predicate Finished(outs: seq<Outcome>, maxRetries: nat) {
    && 1 <= |outs| <= maxRetries + 1
    && AllFailed(outs[..|outs| - 1])
    && (Succeeded(outs) || |outs| == maxRetries + 1)
  }

  ghost predicate JobOk(j: Job, maxRetries: nat) {
    match j
    case Pending => true
    case Waiting(outs) => |outs| <= maxRetries && AllFailed(outs)
    case Sending(outs) => |outs| <= maxRetries && AllFailed(outs)
    case Returned(outs) => 1 <= |outs| <= maxRetries + 1 && AllFailed(outs[..|outs| - 1])
    case Done(outs) => Finished(outs, maxRetries)
  }

  /** The cache entry of a pair after the burst: touched only by its own success. */
  ghost predicate PairCacheOk(p: Params, s: State, i: nat)
    requires i < |p.work| && |s.jobs| == |p.work|
  {
    var pair := p.work[i];
    if s.jobs[i].Done? && Succeeded(s.jobs[i].outs) then
      && pair in s.cache
      && var ttl := s.jobs[i].outs[|s.jobs[i].outs| - 1].value;
         s.cache[pair].ttl == (if pair in p.before then Min(p.before[pair].ttl, ttl) else ttl)
    else
      (pair in s.cache <==> pair in p.before) && (pair in p.before ==> s.cache[pair] == p.before[pair])
  }

  ghost predicate CacheOk(p: Params, s: State)
    requires |s.jobs| == |p.work|
  {
    && (forall i :: 0 <= i < |p.work| ==> PairCacheOk(p, s, i))
    && forall q :: q !in p.work ==> (q in s.cache <==> q in p.before) && (q in s.cache ==> s.cache[q] == p.before[q])
  }

  ghost predicate Inv(p: Params, s: State) {
    && |s.jobs| == |p.work|
    && (forall i :: 0 <= i < |s.jobs| ==> JobOk(s.jobs[i], p.maxRetries))
    && s.inFlight == Tally(s.jobs, InFlight)
    && s.inFlight <= s.maxConcurrency <= p.workers
    && Tally(s.jobs, Running) <= p.workers
    && s.queriesSent == Tally(s.jobs, Sent)
    && CacheOk(p, s)
  }

  function Initial(p: Params): State {
    State(seq(|p.work|, _ => Pending), 0, 0, 0, p.before)
  }

  lemma {:induction false} PendingTally(n: nat, q: Quantity)
    ensures Tally(seq(n, _ => Pending), q) == n * Amount(Pending, q)
  {
    if n > 0 {
      PendingTally(n - 1, q);
      assert seq(n, _ => Pending)[..n - 1] == seq(n - 1, _ => Pending);
      assert n * Amount(Pending, q) == (n - 1) * Amount(Pending, q) + Amount(Pending, q);
    }
  }

  lemma InitialInv(p: Params)
    ensures Inv(p, Initial(p))
  {
    PendingTally(|p.work|, InFlight);
    PendingTally(|p.work|, Running);
    PendingTally(|p.work|, Sent);
  }

  lemma CacheStaysOk(p: Params, s: State, step: Step)
    requires NoDuplicates(p.work) && Inv(p, s) && Enabled(p, s, step)
    ensures CacheOk(p, Next(p, s, step))
  {
    var s' := Next(p, s, step);
    forall i | 0 <= i < |p.work| ensures PairCacheOk(p, s', i) {
      assert PairCacheOk(p, s, i);
      if i == step.i {
        assert !s.jobs[i].Done?;
      } else {
        assert p.work[i] != p.work[step.i];
      }
    }
  }

  lemma StepKeeps(p: Params, s: State, step: Step)
    requires NoDuplicates(p.work) && Inv(p, s) && Enabled(p, s, step)
    ensures Inv(p, Next(p, s, step))
  {
    var s' := Next(p, s, step);
    assert CacheOk(p, s') by { CacheStaysOk(p, s, step); }
    CountersStayOk(p, s, step);
  }

  lemma CountersStayOk(p: Params, s: State, step: Step)
    requires |s.jobs| == |p.work| && Enabled(p, s, step)
    requires s.inFlight == Tally(s.jobs, InFlight) <= s.maxConcurrency <= p.workers
    requires Tally(s.jobs, Running) <= p.workers && s.queriesSent == Tally(s.jobs, Sent)
    ensures var s' := Next(p, s, step);
            && s'.inFlight == Tally(s'.jobs, InFlight) <= s'.maxConcurrency <= p.workers
            && Tally(s'.jobs, Running) <= p.workers && s'.queriesSent == Tally(s'.jobs, Sent)
  {
    var s' := Next(p, s, step);
    var j, j' := s.jobs[step.i], s'.jobs[step.i];
    forall q ensures Tally(s'.jobs, q) == Tally(s.jobs, q) - Amount(j, q) + Amount(j', q) {
      assert s'.jobs == s.jobs[step.i := j'];
      TallyUpdate(s.jobs, step.i, j', q);
    }
    assert Tally(s'.jobs, InFlight) <= Tally(s'.jobs, Running) by { TallyOrder(s'.jobs); }
  }

  /** Every step uses up fuel. */
  lemma StepBurnsFuel(p: Params, s: State, step: Step)
    requires Inv(p, s) && Enabled(p, s, step)
    ensures Tally(Next(p, s, step).jobs, Fuel(p.maxRetries)) < Tally(s.jobs, Fuel(p.maxRetries))
  {
    var s' := Next(p, s, step);
    var j' := s'.jobs[step.i];
    assert JobOk(s.jobs[step.i], p.maxRetries);
    assert s'.jobs == s.jobs[step.i := j'];
    TallyUpdate(s.jobs, step.i, j', Fuel(p.maxRetries));
  }

  ghost predicate Runs(p: Params, s: State, steps: seq<Step>)
    requires |s.jobs| == |p.work|
    decreases |steps|
  {
    steps == [] || (Enabled(p, s, steps[0]) && Runs(p, Next(p, s, steps[0]), steps[1..]))
  }

  ghost function Final(p: Params, s: State, steps: seq<Step>): (f: State)
    requires |s.jobs| == |p.work| && Runs(p, s, steps)
    ensures |f.jobs| == |p.work|
    decreases |steps|
  {
    if steps == [] then s else Final(p, Next(p, s, steps[0]), steps[1..])
  }

  lemma {:induction false} RunKeeps(p: Params, s: State, steps: seq<Step>)
    requires NoDuplicates(p.work) && Inv(p, s) && Runs(p, s, steps)
    ensures Inv(p, Final(p, s, steps))
    ensures |steps| + Tally(Final(p, s, steps).jobs, Fuel(p.maxRetries)) <= Tally(s.jobs, Fuel(p.maxRetries))
    decreases |steps|
  {
    if steps != [] {
      StepKeeps(p, s, steps[0]);
      StepBurnsFuel(p, s, steps[0]);
      RunKeeps(p, Next(p, s, steps[0]), steps[1..]);
    }
  }

  /** Work that is not finished can always go on, provided there is at least one worker. */
  lemma {:induction false} NeverStuck(p: Params, s: State, i: nat) returns (step: Step)
    requires Inv(p, s) && p.workers >= 1 && i < |s.jobs| && !s.jobs[i].Done?
    ensures Enabled(p, s, step)
  {
    match s.jobs[i]
    case Waiting(_) => step := BeginSend(i);
    case Sending(_) => step := EndSend(i, None);
    case Returned(_) => step := Settle(i, 0.0);
    case Pending =>
      if Tally(s.jobs, Running) < p.workers {
        step := Start(i);
      } else {
        var k := SomeRunning(s.jobs);
        step := NeverStuckRunning(p, s, k);
      }
  }

  lemma {:induction false} SomeRunning(jobs: seq<Job>) returns (k: nat)
    requires Tally(jobs, Running) > 0
    ensures k < |jobs| && Amount(jobs[k], Running) == 1
  {
    var n := |jobs| - 1;
    if Amount(jobs[n], Running) == 1 {
      k := n;
    } else {
      k := SomeRunning(jobs[..n]);
    }
  }

  lemma NeverStuckRunning(p: Params, s: State, k: nat) returns (step: Step)
    requires k < |s.jobs| && Amount(s.jobs[k], Running) == 1
    ensures Enabled(p, s, step)
  {
    match s.jobs[k]
    case Waiting(_) => step := BeginSend(k);
    case Sending(_) => step := EndSend(k, None);
    case Returned(_) => step := Settle(k, 0.0);
  }

  ghost predicate AllFinished(p: Params, s: State) {
    forall i :: 0 <= i < |s.jobs| ==> s.jobs[i].Done? && Finished(s.jobs[i].outs, p.maxRetries)
  }

  ghost predicate Stuck(p: Params, s: State) {
    forall step :: !Enabled(p, s, step)
  }

  /** Sends in flight and max_concurrency stay within the worker count, queries_sent is the number
      of completed sends, and a TTL is recorded for exactly the pairs that succeeded. */
  ghost predicate Safe(p: Params, s: State)
    requires |s.jobs| == |p.work|
  {
    && 0 <= s.inFlight <= s.maxConcurrency <= p.workers
    && s.queriesSent == Tally(s.jobs, Sent)
    && CacheOk(p, s)
  }

  /** Every interleaving of the burst is safe and terminates: the number of steps is bounded in
      advance, and a run that can go no further has finished every pair with 1 to max_retries + 1
      attempts, none of them after a success. */
  lemma EveryBurst(p: Params, steps: seq<Step>)
    requires NoDuplicates(p.work) && p.workers >= 1 && Runs(p, Initial(p), steps)
    ensures Safe(p, Final(p, Initial(p), steps))
    ensures Stuck(p, Final(p, Initial(p), steps)) ==> AllFinished(p, Final(p, Initial(p), steps))
    ensures |steps| <= |p.work| * (3 * (p.maxRetries + 1) + 1)
  {
    var s := Final(p, Initial(p), steps);
    assert Inv(p, s) by {
      InitialInv(p);
      RunKeeps(p, Initial(p), steps);
    }
    if Stuck(p, s) {
      StuckMeansDone(p, s);
    }
    StepsBounded(p, steps);
  }

  lemma StepsBounded(p: Params, steps: seq<Step>)
    requires NoDuplicates(p.work) && Runs(p, Initial(p), steps)
    ensures |steps| <= |p.work| * (3 * (p.maxRetries + 1) + 1)
  {
    var fuel := Tally(Initial(p).jobs, Fuel(p.maxRetries));
    assert |steps| <= fuel by {
      InitialInv(p);
      RunKeeps(p, Initial(p), steps);
    }
    PendingTally(|p.work|, Fuel(p.maxRetries));
  }

  lemma StuckMeansDone(p: Params, s: State)
    requires Inv(p, s) && p.workers >= 1 && Stuck(p, s)
    ensures AllFinished(p, s)
  {
    forall i | 0 <= i < |s.jobs| ensures s.jobs[i].Done? && Finished(s.jobs[i].outs, p.maxRetries) {
      if !s.jobs[i].Done? {
        var step := NeverStuck(p, s, i);
      }
      assert JobOk(s.jobs[i], p.maxRetries);
    }
  }

  /** A finished pair is never touched again. */
  lemma DoneIsFinal(p: Params, s: State, step: Step, i: nat)
    requires |s.jobs| == |p.work| && Enabled(p, s, step) && i < |s.jobs| && s.jobs[i].Done?
    ensures Next(p, s, step).jobs[i] == s.jobs[i]
  {
  }

  // ------------------------------------------------------------------ the sequential parts

  /** list(dict.fromkeys(pairs)): first occurrences, in order. */
  method Dedup(pairs: seq<Pair>) returns (work: seq<Pair>)
    ensures NoDuplicates(work)
    ensures forall q :: q in work <==> q in pairs
    ensures work == FirstOccurrences(pairs)
  {
    work := [];
    for i := 0 to |pairs|
      invariant NoDuplicates(work)
      invariant forall q :: q in work <==> q in pairs[..i]
      invariant work == FirstOccurrences(pairs[..i])
    {
      assert pairs[..i + 1][..i] == pairs[..i] && pairs[..i + 1] == pairs[..i] + [pairs[i]];
      if pairs[i] !in work {
        work := work + [pairs[i]];
      }
    }
    assert pairs[..|pairs|] == pairs;
  }

  /** A pair is kept at the position where it first appears. */
  function FirstOccurrences(pairs: seq<Pair>): seq<Pair> {
    if pairs == [] then []
    else
      var n := |pairs| - 1;
      FirstOccurrences(pairs[..n]) + (if pairs[n] in pairs[..n] then [] else [pairs[n]])
  }

  /** One worker's loop over the outcomes its sends would meet: it stops at the first success or
      after max_retries + 1 attempts, as every finished job of the pool does. */
  method WarmOne(sends: seq<Outcome>, maxRetries: nat) returns (ok: bool, attempts: nat)
    requires |sends| > maxRetries
    ensures attempts <= |sends| && Finished(sends[..attempts], maxRetries)
    ensures ok == Succeeded(sends[..attempts])
  {
    attempts := 0;
    for attempt := 0 to maxRetries + 1
      invariant attempts == attempt
      invariant AllFailed(sends[..attempts])
    {
      attempts := attempts + 1;
      assert sends[..attempts][..attempts - 1] == sends[..attempt];
      if sends[attempt].Some? {
        return true, attempts;
      }
    }
    return false, attempts;
  }

  /** The number of sends made before the first success ends the series or the retries run out. */
  function StopAt(sends: seq<Outcome>, maxRetries: nat): nat {
    if sends == [] then 0
    else if sends[0].Some? || maxRetries == 0 then 1
    else 1 + StopAt(sends[1..], maxRetries - 1)
  }

  /** A finished series is determined by the sends alone, so the pool and the sequential loop agree
      on result and attempts for every pair. */
  lemma {:induction false} FinishedIsDetermined(sends: seq<Outcome>, maxRetries: nat, a: nat)
    requires a <= |sends| && Finished(sends[..a], maxRetries)
    ensures a == StopAt(sends, maxRetries)
    decreases maxRetries
  {
    if a > 1 {
      var rest := sends[1..];
      assert sends[..a][..a - 1][0] == sends[0];
      assert rest[..a - 1] == sends[..a][1..];
      assert rest[..a - 1][..a - 2] == sends[..a][..a - 1][1..];
      FinishedIsDetermined(rest, maxRetries - 1, a - 1);
    }
  }

  datatype Status = Completed | Partial | Failed

  function StatusFor(succeeded: nat, failed: nat, attempted: nat): Status {
    if attempted == 0 then Completed
    else if failed == 0 then Completed
    else if succeeded == 0 then Failed
    else Partial
  }

  /** The summary over finished jobs: a burst with a failed pair is never reported completed. */
  method Summarise(jobs: seq<Job>) returns (succeeded: nat, failed: nat, status: Status)
    requires forall i :: 0 <= i < |jobs| ==> jobs[i].Done?
    ensures succeeded == |Winners(jobs)| && succeeded + failed == |jobs|
    ensures status.Completed? <==> forall i :: 0 <= i < |jobs| ==> Succeeded(jobs[i].outs)
    ensures status.Failed? <==> jobs != [] && forall i :: 0 <= i < |jobs| ==> !Succeeded(jobs[i].outs)
  {
    var failures: seq<Job> := [];
    for i := 0 to |jobs|
      invariant |failures| == i - |Winners(jobs[..i])|
    {
      WinnersStep(jobs, i);
      if !Succeeded(jobs[i].outs) {
        failures := failures + [jobs[i]];
      }
    }
    assert jobs[..|jobs|] == jobs;
    WinnersCount(jobs);
    succeeded, failed := |jobs| - |failures|, |failures|;
    status := StatusFor(succeeded, failed, |jobs|);
  }

  predicate Won(j: Job) {
    j.Done? && Succeeded(j.outs)
  }

  /** The positions of the pairs that succeeded. */
  ghost function Winners(jobs: seq<Job>): set<int> {
    set i | 0 <= i < |jobs| && Won(jobs[i])
  }

  lemma WinnersStep(jobs: seq<Job>, k: nat)
    requires k < |jobs|
    ensures |Winners(jobs[..k + 1])| == |Winners(jobs[..k])| + if Won(jobs[k]) then 1 else 0
  {
    assert forall i :: 0 <= i < k ==> jobs[..k + 1][i] == jobs[..k][i];
    assert Winners(jobs[..k + 1]) == Winners(jobs[..k]) + if Won(jobs[k]) then {k} else {};
  }

  lemma {:induction false} WinnersCount(jobs: seq<Job>)
    ensures |Winners(jobs)| <= |jobs|
    ensures |Winners(jobs)| == |jobs| <==> forall i :: 0 <= i < |jobs| ==> Won(jobs[i])
    ensures |Winners(jobs)| == 0 <==> forall i :: 0 <= i < |jobs| ==> !Won(jobs[i])
  {
    if jobs != [] {
      var k := |jobs| - 1;
      WinnersCount(jobs[..k]);
      WinnersStep(jobs, k);
      assert jobs[..k + 1] == jobs;
      assert forall i :: 0 <= i < k ==> jobs[..k][i] == jobs[i];
    }
  }

  /** workers = max(1, min(concurrency, len(work))) */
  function Workers(concurrency: int, n: nat): (w: nat)
    ensures w >= 1 && (n == 0 || concurrency < 1 ==> w == 1)
    ensures n >= 1 && concurrency >= 1 ==> w <= n && w <= concurrency && (w == n || w == concurrency)
  {
    Max(1, Min(concurrency, n))
  }
}
