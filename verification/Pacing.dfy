/** The two pacing gates of the boot burst (admin-ui/app/services/boot_burst.py). Each `wait`
    reserves its time under a lock, so any interleaving of threads is some sequence of
    reservations; the clock readings and jitter draws in that sequence are arbitrary. */
module Pacing {
  import opened Prelude

  function RMax(a: real, b: real): real {
    if a >= b then a else b
  }

  function RMin(a: real, b: real): real {
    if a <= b then a else b
  }

  /** What one call of QPSPacer.wait observes: the clock, and the random stretch of the gap. */
  datatype Draw = Draw(clock: real, jitter: real)

  /** The slots that a sequence of calls reserves. */
  function Slots(next: real, interval: real, draws: seq<Draw>): (slots: seq<real>)
    ensures |slots| == |draws|
    decreases |draws|
  {
    if draws == [] then []
    else
      var slot := RMax(next, draws[0].clock);
      [slot] + Slots(slot + interval * (1.0 + draws[0].jitter), interval, draws[1..])
  }

  ghost predicate JitterOnlyDelays(draws: seq<Draw>) {
    forall i :: 0 <= i < |draws| ==> draws[i].jitter >= 0.0
  }

  class QPSPacer {
    const interval: real
    const jitterRatio: real
    var nextSlot: real

    constructor (qps: real, jitterRatio: real, clock: real)
      requires qps > 0.0
      ensures interval == 1.0 / qps && this.jitterRatio == jitterRatio && nextSlot == clock
    {
      this.interval := 1.0 / qps;
      this.jitterRatio := jitterRatio;
      nextSlot := clock;
    }

    /** Reserves a slot; the caller then sleeps until it. `later` is the second clock reading. */
    method Wait(draw: Draw, later: real) returns (slot: real, delay: real)
      requires 0.0 <= draw.jitter <= 2.0 * jitterRatio
      modifies this
      ensures [slot] == Slots(old(nextSlot), interval, [draw])
      ensures forall rest :: Slots(old(nextSlot), interval, [draw] + rest) == [slot] + Slots(nextSlot, interval, rest)
      ensures delay >= 0.0 && later + delay >= slot
    {
      slot := RMax(nextSlot, draw.clock);
      var spread := 1.0 + draw.jitter;
      nextSlot := slot + interval * spread;
      delay := RMax(slot - later, 0.0);
      assert [draw][1..] == [];
      forall rest ensures Slots(old(nextSlot), interval, [draw] + rest) == [slot] + Slots(nextSlot, interval, rest) {
        assert ([draw] + rest)[1..] == rest;
      }
    }
  }

  /** ValueError on a non-positive rate, else a pacer. */
  method MakeQPSPacer(qps: real, jitterRatio: real, clock: real) returns (pacer: QPSPacer?)
    ensures pacer == null <==> qps <= 0.0
    ensures pacer != null ==> fresh(pacer) && pacer.interval == 1.0 / qps && pacer.nextSlot == clock
  {
    if qps <= 0.0 {
      return null;
    }
    pacer := new QPSPacer(qps, jitterRatio, clock);
  }

  /** n intervals, one after another. */
  ghost function Steps(n: nat, interval: real): real {
    if n == 0 then 0.0 else Steps(n - 1, interval) + interval
  }

  lemma {:induction false} StepsIsProduct(n: nat, interval: real)
    ensures Steps(n, interval) == n as real * interval
  {
    if n > 0 {
      StepsIsProduct(n - 1, interval);
      var x := (n - 1) as real;
      assert n as real == x + 1.0;
      assert (x + 1.0) * interval == x * interval + interval;
    }
  }

  lemma {:induction false} SlotsAfter(next: real, interval: real, draws: seq<Draw>, i: nat)
    requires interval > 0.0 && JitterOnlyDelays(draws) && i < |draws|
    ensures Slots(next, interval, draws)[i] >= next + Steps(i, interval)
    decreases |draws|
  {
    if i > 0 {
      var next' := RMax(next, draws[0].clock) + interval * (1.0 + draws[0].jitter);
      SlotsAfter(next', interval, draws[1..], i - 1);
    }
  }

  lemma {:induction false} SlotsStepApart(next: real, interval: real, draws: seq<Draw>, k: nat, m: nat)
    requires interval > 0.0 && JitterOnlyDelays(draws) && k <= m < |draws|
    ensures Slots(next, interval, draws)[m] >= Slots(next, interval, draws)[k] + Steps(m - k, interval)
    decreases |draws|
  {
    var next' := RMax(next, draws[0].clock) + interval * (1.0 + draws[0].jitter);
    if k > 0 {
      SlotsStepApart(next', interval, draws[1..], k - 1, m - 1);
    } else if m > 0 {
      SlotsAfter(next', interval, draws[1..], m - 1);
    }
  }

  /** No slot is later than it has to be: each is the clock, or one stretched interval after the slot
      before it, whichever is later. */
  lemma {:induction false} SlotIs(next: real, interval: real, draws: seq<Draw>, i: nat)
    requires i < |draws|
    ensures var slots := Slots(next, interval, draws);
            slots[i] == RMax(draws[i].clock, if i == 0 then next else slots[i - 1] + interval * (1.0 + draws[i - 1].jitter))
    decreases |draws|
  {
    if i > 0 {
      var slot := RMax(next, draws[0].clock);
      SlotIs(slot + interval * (1.0 + draws[0].jitter), interval, draws[1..], i - 1);
    }
  }

  /** The m-th and k-th reserved slots are at least (m - k) / qps apart. */
  lemma SlotsSpaced(next: real, interval: real, draws: seq<Draw>, k: nat, m: nat)
    requires interval > 0.0 && JitterOnlyDelays(draws) && k <= m < |draws|
    ensures Slots(next, interval, draws)[m] - Slots(next, interval, draws)[k] >= (m - k) as real * interval
  {
    SlotsStepApart(next, interval, draws, k, m);
    StepsIsProduct(m - k, interval);
  }

  function CountWithin(times: seq<real>, lo: real, hi: real): nat {
    if times == [] then 0
    else
      var n := |times| - 1;
      CountWithin(times[..n], lo, hi) + (if lo <= times[n] <= hi then 1 else 0)
  }

  ghost predicate Spaced(times: seq<real>, interval: real) {
    forall i :: 0 < i < |times| ==> times[i - 1] + interval <= times[i]
  }

  lemma {:induction false} SpacedWindow(times: seq<real>, interval: real, lo: real, hi: real)
    requires interval > 0.0 && Spaced(times, interval) && lo <= hi
    ensures CountWithin(times, lo, hi) > 0 ==>
              times[|times| - 1] >= lo
              && Steps(CountWithin(times, lo, hi) - 1, interval) <= RMin(hi, times[|times| - 1]) - lo
  {
    if times != [] {
      var n := |times| - 1;
      SpacedWindow(times[..n], interval, lo, hi);
      if n > 0 { assert times[n - 1] + interval <= times[n]; }
    }
  }

  lemma StepsBound(c: nat, interval: real, qps: real, length: real)
    requires qps > 0.0 && interval * qps == 1.0 && length >= 0.0
    requires c > 0 ==> Steps(c - 1, interval) <= length
    ensures c as real <= length * qps + 1.0
  {
    if c > 0 {
      StepsIsProduct(c - 1, interval);
    } else {
      assert length * qps >= 0.0;
    }
  }

  ghost predicate KeepsCeiling(times: seq<real>, qps: real) {
    forall lo, hi :: lo <= hi ==> CountWithin(times, lo, hi) as real <= (hi - lo) * qps + 1.0
  }

  lemma SlotsAreSpaced(next: real, interval: real, draws: seq<Draw>)
    requires interval > 0.0 && JitterOnlyDelays(draws)
    ensures Spaced(Slots(next, interval, draws), interval)
  {
    var slots := Slots(next, interval, draws);
    forall i | 0 < i < |slots| ensures slots[i - 1] + interval <= slots[i] {
      SlotsStepApart(next, interval, draws, i - 1, i);
      assert Steps(1, interval) == interval;
    }
  }

  lemma SpacedKeepsCeiling(times: seq<real>, qps: real)
    requires qps > 0.0 && Spaced(times, 1.0 / qps)
    ensures KeepsCeiling(times, qps)
  {
    forall lo, hi | lo <= hi ensures CountWithin(times, lo, hi) as real <= (hi - lo) * qps + 1.0 {
      SpacedWindow(times, 1.0 / qps, lo, hi);
      StepsBound(CountWithin(times, lo, hi), 1.0 / qps, qps, hi - lo);
    }
  }

  /** Any window of length L holds at most L * qps + 1 reserved slots. */
  lemma WindowHoldsAtMost(next: real, qps: real, draws: seq<Draw>, lo: real, hi: real)
    requires qps > 0.0 && JitterOnlyDelays(draws) && lo <= hi
    ensures CountWithin(Slots(next, 1.0 / qps, draws), lo, hi) as real <= (hi - lo) * qps + 1.0
  {
    SlotsAreSpaced(next, 1.0 / qps, draws);
    SpacedKeepsCeiling(Slots(next, 1.0 / qps, draws), qps);
  }

  // ------------------------------------------------------------------ per-qname spacing

  datatype Ask = Ask(qname: string, clock: real)

  /** The first send to a qname goes at once; every later one waits a full interval past both the
      previous reservation and the clock. */
  function ReserveAt(last: map<string, real>, minInterval: real, a: Ask): real {
    if a.qname in last then RMax(last[a.qname], a.clock) + minInterval else a.clock
  }

  function Reserved(last: map<string, real>, minInterval: real, asks: seq<Ask>): (ats: seq<real>)
    ensures |ats| == |asks|
    decreases |asks|
  {
    if asks == [] then []
    else
      var at := ReserveAt(last, minInterval, asks[0]);
      [at] + Reserved(last[asks[0].qname := at], minInterval, asks[1..])
  }

  class QnamePacer {
    const minInterval: real
    var last: map<string, real>

    constructor (minInterval: real)
      ensures this.minInterval == minInterval && last == map[]
    {
      this.minInterval := minInterval;
      last := map[];
    }

    method Wait(a: Ask, later: real) returns (at: real, delay: real)
      modifies this
      ensures at == ReserveAt(old(last), minInterval, a)
      ensures last == old(last)[a.qname := at]
      ensures delay >= 0.0 && later + delay >= at
    {
      var previous := if a.qname in last then Some(last[a.qname]) else None;
      at := match previous
            case None => a.clock
            case Some(p) => RMax(p, a.clock) + minInterval;
      last := last[a.qname := at];
      delay := RMax(at - later, 0.0);
    }
  }

  lemma {:induction false} ReservedAfterLast(last: map<string, real>, minInterval: real, asks: seq<Ask>, j: nat)
    requires minInterval >= 0.0 && j < |asks| && asks[j].qname in last
    ensures Reserved(last, minInterval, asks)[j] >= last[asks[j].qname] + minInterval
    decreases |asks|
  {
    if j > 0 {
      var at := ReserveAt(last, minInterval, asks[0]);
      ReservedAfterLast(last[asks[0].qname := at], minInterval, asks[1..], j - 1);
    }
  }

  /** Two reservations for one qname are at least the minimum interval apart, whatever the clock. */
  lemma {:induction false} SameNameSpaced(last: map<string, real>, minInterval: real, asks: seq<Ask>, i: nat, j: nat)
    requires minInterval >= 0.0 && i < j < |asks| && asks[i].qname == asks[j].qname
    ensures Reserved(last, minInterval, asks)[j] >= Reserved(last, minInterval, asks)[i] + minInterval
    decreases |asks|
  {
    var at := ReserveAt(last, minInterval, asks[0]);
    var last' := last[asks[0].qname := at];
    if i > 0 {
      SameNameSpaced(last', minInterval, asks[1..], i - 1, j - 1);
    } else {
      ReservedAfterLast(last', minInterval, asks[1..], j - 1);
    }
  }

  // ------------------------------------------------------------------ the two gates in series

  /** Each send passes the rate gate first and reaches the name gate at its slot. */
  function Asks(slots: seq<real>, names: seq<string>): (asks: seq<Ask>)
    requires |slots| == |names|
    ensures |asks| == |names|
  {
    seq(|names|, i requires 0 <= i < |names| => Ask(names[i], slots[i]))
  }

  lemma {:induction false} SendsAtSlots(last: map<string, real>, minInterval: real, slots: seq<real>, names: seq<string>)
    requires |slots| == |names| && minInterval > 0.0
    ensures Reserved(last, minInterval, Asks(slots, names)) == slots
            <==> NoDuplicates(names) && forall i :: 0 <= i < |names| ==> names[i] !in last
    decreases |names|
  {
    if names == [] {
      assert slots == [];
    } else {
      var a := Asks(slots, names);
      var at := ReserveAt(last, minInterval, a[0]);
      var last' := last[names[0] := at];
      assert a[1..] == Asks(slots[1..], names[1..]);
      SendsAtSlots(last', minInterval, slots[1..], names[1..]);
      assert Reserved(last, minInterval, a) == slots
             <==> at == slots[0] && Reserved(last', minInterval, a[1..]) == slots[1..] by {
        assert slots == [slots[0]] + slots[1..];
      }
      assert at == slots[0] <==> names[0] !in last;
      assert names == [names[0]] + names[1..];
    }
  }

  /** Sends leave at their reserved rate slots exactly when no qname is asked twice. */
  lemma UndelayedIff(slots: seq<real>, minInterval: real, names: seq<string>)
    requires |slots| == |names| && minInterval > 0.0
    ensures Reserved(map[], minInterval, Asks(slots, names)) == slots <==> NoDuplicates(names)
  {
    SendsAtSlots(map[], minInterval, slots, names);
  }

  // ------------------------------------------------------------------ when sends keep the ceiling

  /** The times at which the queries leave, behind both gates. */
  function Sends(next: real, qps: real, minInterval: real, draws: seq<Draw>, names: seq<string>): (ats: seq<real>)
    requires qps > 0.0 && |draws| == |names|
    ensures |ats| == |names|
  {
    Reserved(map[], minInterval, Asks(Slots(next, 1.0 / qps, draws), names))
  }

  /** The last ask for the same name before the i-th, or -1. */
  function Prev(names: seq<string>, i: nat): (k: int)
    requires i < |names|
    ensures -1 <= k < i
    ensures k >= 0 ==> names[k] == names[i]
    ensures forall j :: k < j < i ==> names[j] != names[i]
  {
    LastAsk(names, names[i], i)
  }

  function LastAsk(names: seq<string>, name: string, n: nat): (k: int)
    requires n <= |names|
    ensures -1 <= k < n
    ensures k >= 0 ==> names[k] == name
    ensures forall j :: k < j < n ==> names[j] != name
  {
    if n == 0 then -1 else if names[n - 1] == name then n - 1 else LastAsk(names, name, n - 1)
  }

  predicate Repeat(names: seq<string>, i: nat)
    requires i < |names|
  {
    Prev(names, i) >= 0
  }

  /** A repeat whose previous ask was itself a repeat, and recent enough that the reservation of
      the previous ask can still lie ahead when this one gets its slot. */
  ghost predicate Tight(names: seq<string>, interval: real, minInterval: real, i: nat)
    requires i < |names|
  {
    var k := Prev(names, i);
    k >= 0 && Repeat(names, k) && Steps(i - k, interval) < minInterval
  }

  /** The i-th ask can be pushed onto the send after it: that one asks for a new name, or it
      repeats a name last asked for before the reservation that holds the i-th back. */
  ghost predicate Overtaken(names: seq<string>, interval: real, minInterval: real, i: nat)
    requires i + 1 < |names|
  {
    && Repeat(names, i)
    && (!Repeat(names, i + 1)
        || (Tight(names, interval, minInterval, i) && Prev(names, i + 1) < Prev(names, i)))
  }

  ghost predicate Smooth(names: seq<string>, interval: real, minInterval: real) {
    forall i {:trigger Overtaken(names, interval, minInterval, i)} :: 0 <= i && i + 1 < |names| ==> !Overtaken(names, interval, minInterval, i)
  }

  /** What one reservation is, by position. */
  lemma {:induction false} ReservedAt(last: map<string, real>, minInterval: real, asks: seq<Ask>, i: nat, p: int)
    requires -1 <= p < i < |asks|
    requires p >= 0 ==> asks[p].qname == asks[i].qname
    requires forall j :: p < j < i ==> asks[j].qname != asks[i].qname
    ensures var ats := Reserved(last, minInterval, asks);
            ats[i] == if p >= 0 then RMax(ats[p], asks[i].clock) + minInterval else ReserveAt(last, minInterval, asks[i])
    decreases |asks|
  {
    var at := ReserveAt(last, minInterval, asks[0]);
    var last' := last[asks[0].qname := at];
    if i > 0 {
      if p > 0 {
        ReservedAt(last', minInterval, asks[1..], i - 1, p - 1);
      } else {
        ReservedAt(last', minInterval, asks[1..], i - 1, -1);
        if p < 0 { assert asks[0].qname != asks[i].qname; }
      }
    }
  }

  /** A send leaves at its slot, or an interval after its slot and the name's previous send. */
  ghost predicate Paced(slots: seq<real>, names: seq<string>, minInterval: real, ats: seq<real>) {
    && |slots| == |names| == |ats|
    && forall i :: 0 <= i < |names| ==>
         ats[i] == if Repeat(names, i) then RMax(ats[Prev(names, i)], slots[i]) + minInterval else slots[i]
  }

  lemma ReservedIsPaced(slots: seq<real>, names: seq<string>, minInterval: real)
    requires |slots| == |names|
    ensures Paced(slots, names, minInterval, Reserved(map[], minInterval, Asks(slots, names)))
  {
    var asks := Asks(slots, names);
    forall i | 0 <= i < |names|
      ensures var ats := Reserved(map[], minInterval, asks);
              ats[i] == if Repeat(names, i) then RMax(ats[Prev(names, i)], slots[i]) + minInterval else slots[i]
    {
      ReservedAt(map[], minInterval, asks, i, Prev(names, i));
    }
  }

  // ---------------------------------------------- smooth orders keep the ceiling

  lemma {:induction false} RepeatsLast(names: seq<string>, interval: real, minInterval: real, i: nat, j: nat)
    requires Smooth(names, interval, minInterval) && i <= j < |names| && Repeat(names, i)
    ensures Repeat(names, j)
    decreases j
  {
    if i < j {
      RepeatsLast(names, interval, minInterval, i, j - 1);
      assert !Overtaken(names, interval, minInterval, j - 1);
    }
  }

  lemma {:induction false} StepsGrow(a: nat, b: nat, interval: real)
    requires interval > 0.0 && a <= b
    ensures Steps(a, interval) <= Steps(b, interval)
    decreases b
  {
    if a < b { StepsGrow(a, b - 1, interval); }
  }

  lemma TightStep(names: seq<string>, interval: real, minInterval: real, i: nat)
    requires interval > 0.0 && Smooth(names, interval, minInterval) && i + 1 < |names| && Tight(names, interval, minInterval, i)
    ensures Tight(names, interval, minInterval, i + 1)
  {
    assert !Overtaken(names, interval, minInterval, i);
    var k, k' := Prev(names, i), Prev(names, i + 1);
    assert k < k';
    assert Repeat(names, k') by { RepeatsLast(names, interval, minInterval, k, k'); }
    assert Steps(i + 1 - k', interval) <= Steps(i - k, interval) by { StepsGrow(i + 1 - k', i - k, interval); }
  }

  /** Once an ask is tight, all later ones are. */
  lemma {:induction false} TightLasts(names: seq<string>, interval: real, minInterval: real, i: nat, j: nat)
    requires interval > 0.0 && Smooth(names, interval, minInterval) && i <= j < |names| && Tight(names, interval, minInterval, i)
    ensures Tight(names, interval, minInterval, j)
    decreases j
  {
    if i < j {
      TightLasts(names, interval, minInterval, i, j - 1);
      TightStep(names, interval, minInterval, j - 1);
    }
  }

  lemma {:induction false} SpacedApart(slots: seq<real>, interval: real, k: nat, i: nat)
    requires Spaced(slots, interval) && k <= i < |slots|
    ensures slots[k] + Steps(i - k, interval) <= slots[i]
    decreases i
  {
    if k < i { SpacedApart(slots, interval, k, i - 1); }
  }

  /** Up to the first tight ask, every repeat leaves exactly one minimum interval after its slot. */
  lemma {:induction false} LooseSends(
    slots: seq<real>, names: seq<string>, interval: real, minInterval: real, ats: seq<real>, i: nat)
    requires interval > 0.0 && minInterval > 0.0 && Spaced(slots, interval)
    requires Paced(slots, names, minInterval, ats) && i < |names|
    requires forall j :: 0 <= j <= i ==> !Tight(names, interval, minInterval, j)
    ensures ats[i] == if Repeat(names, i) then slots[i] + minInterval else slots[i]
    decreases i
  {
    var k := Prev(names, i);
    if k >= 0 {
      LooseSends(slots, names, interval, minInterval, ats, k);
      SpacedApart(slots, interval, k, i);
      StepsGrow(0, i - k, interval);
      assert !Tight(names, interval, minInterval, i);
    }
  }

  lemma {:induction false} SmoothIsSpaced(
    slots: seq<real>, names: seq<string>, interval: real, minInterval: real, ats: seq<real>, n: nat)
    requires interval > 0.0 && minInterval > 0.0 && Spaced(slots, interval)
    requires Paced(slots, names, minInterval, ats) && Smooth(names, interval, minInterval) && n <= |names|
    ensures Spaced(ats[..n], interval)
    decreases n
  {
    if n >= 2 {
      SmoothIsSpaced(slots, names, interval, minInterval, ats, n - 1);
      var i := n - 2;
      assert ats[i] + interval <= ats[i + 1] by { NextSpaced(slots, names, interval, minInterval, ats, i); }
      forall j | 0 < j < n ensures ats[..n][j - 1] + interval <= ats[..n][j] {
        if j < n - 1 { assert ats[..n - 1][j - 1] + interval <= ats[..n - 1][j]; }
      }
    }
  }

  /** The induction step: the send after the i-th keeps its distance. */
  lemma NextSpaced(slots: seq<real>, names: seq<string>, interval: real, minInterval: real, ats: seq<real>, i: nat)
    requires interval > 0.0 && minInterval > 0.0 && Spaced(slots, interval)
    requires Paced(slots, names, minInterval, ats) && Smooth(names, interval, minInterval) && i + 1 < |names|
    requires Spaced(ats[..i + 1], interval)
    ensures ats[i] + interval <= ats[i + 1]
  {
    assert slots[i] + interval <= slots[i + 1];
    assert !Overtaken(names, interval, minInterval, i);
    if Repeat(names, i) {
      var k, k' := Prev(names, i), Prev(names, i + 1);
      if k < k' {
        SpacedApart(ats[..i + 1], interval, k, k');
        StepsGrow(1, k' - k, interval);
      } else {
        forall j | 0 <= j <= i ensures !Tight(names, interval, minInterval, j) {
          if Tight(names, interval, minInterval, j) { TightLasts(names, interval, minInterval, j, i); }
        }
        LooseSends(slots, names, interval, minInterval, ats, i);
      }
    }
  }

  // ---------------------------------------------- any other order breaks it for some clock

  /** Slots far apart up to the k-th, as close as the rate gate allows up to the i-th, and the next
      one just late enough to meet the send that was held back. */
  ghost function ClashSlot(next: real, interval: real, minInterval: real, k: nat, i: nat, j: nat): real
    requires k <= i
  {
    var far := next + Steps(Min(j, k), interval + minInterval);
    if j <= k then far
    else if j <= i then far + Steps(j - k, interval)
    else RMax(far + Steps(i + 1 - k, interval), far + minInterval) + Steps(j - i - 1, interval)
  }

  ghost function ClashSlots(next: real, interval: real, minInterval: real, k: nat, i: nat, n: nat): (slots: seq<real>)
    requires k <= i
    ensures |slots| == n
  {
    seq(n, j requires 0 <= j < n => ClashSlot(next, interval, minInterval, k, i, j))
  }

  lemma ClashSpaced(next: real, interval: real, minInterval: real, k: nat, i: nat, n: nat)
    requires interval > 0.0 && minInterval > 0.0 && k <= i
    ensures Spaced(ClashSlots(next, interval, minInterval, k, i, n), interval)
    ensures n > 0 ==> ClashSlots(next, interval, minInterval, k, i, n)[0] >= next
  {
    var slots := ClashSlots(next, interval, minInterval, k, i, n);
    forall j | 0 < j < n ensures slots[j - 1] + interval <= slots[j] {
      if j == i + 1 { assert Steps(0, interval) == 0.0; }
      if j == k + 1 && j <= i { assert Steps(1, interval) == interval; }
    }
  }

  /** Any slots the gate's spacing allows are reserved when the clock reads them. */
  lemma {:induction false} SlotsOf(next: real, interval: real, slots: seq<real>, draws: seq<Draw>)
    requires Spaced(slots, interval) && (slots != [] ==> slots[0] >= next) && |draws| == |slots|
    requires forall j :: 0 <= j < |slots| ==> draws[j] == Draw(slots[j], 0.0)
    ensures Slots(next, interval, draws) == slots
    decreases |slots|
  {
    if slots != [] {
      forall j | 0 < j < |slots[1..]| ensures slots[1..][j - 1] + interval <= slots[1..][j] {
        assert slots[j] + interval <= slots[j + 1];
      }
      SlotsOf(slots[0] + interval * (1.0 + 0.0), interval, slots[1..], draws[1..]);
      assert slots == [slots[0]] + slots[1..];
    }
  }

  /** Before and at the k-th slot no send is held back beyond one minimum interval. */
  lemma {:induction false} EarlySends(
    slots: seq<real>, names: seq<string>, next: real, interval: real, minInterval: real, k: nat, i: nat, ats: seq<real>, j: nat)
    requires interval > 0.0 && minInterval > 0.0 && k <= i && j <= k && j < |names|
    requires slots == ClashSlots(next, interval, minInterval, k, i, |names|) && Paced(slots, names, minInterval, ats)
    ensures ats[j] == if Repeat(names, j) then slots[j] + minInterval else slots[j]
    decreases j
  {
    var p := Prev(names, j);
    if p >= 0 {
      EarlySends(slots, names, next, interval, minInterval, k, i, ats, p);
      FarApart(slots, next, interval, minInterval, k, i, p, j);
    }
  }

  lemma FarApart(slots: seq<real>, next: real, interval: real, minInterval: real, k: nat, i: nat, p: nat, j: nat)
    requires interval > 0.0 && minInterval > 0.0 && p < j <= k <= i && j < |slots|
    requires slots == ClashSlots(next, interval, minInterval, k, i, |slots|)
    ensures slots[p] + minInterval <= slots[j]
  {
    assert Steps(p + 1, interval + minInterval) == Steps(p, interval + minInterval) + (interval + minInterval);
    StepsGrow(p + 1, j, interval + minInterval);
  }

  /** In the clash schedule two sends leave less than one slot apart. */
  lemma ClashSends(
    slots: seq<real>, names: seq<string>, next: real, interval: real, minInterval: real, k: nat, i: nat, ats: seq<real>)
    requires interval > 0.0 && minInterval > 0.0 && i + 1 < |names| && Overtaken(names, interval, minInterval, i)
    requires k == if Repeat(names, i + 1) then Prev(names, i) else i
    requires slots == ClashSlots(next, interval, minInterval, k, i, |names|) && Paced(slots, names, minInterval, ats)
    ensures ats[i] <= ats[i + 1] < ats[i] + interval
  {
    EarlySends(slots, names, next, interval, minInterval, k, i, ats, k);
    assert Steps(i + 1 - k, interval) == Steps(i - k, interval) + interval;
    assert Steps(0, interval) == 0.0;
    if Repeat(names, i + 1) {
      var p := Prev(names, i + 1);
      EarlySends(slots, names, next, interval, minInterval, k, i, ats, p);
      FarApart(slots, next, interval, minInterval, k, i, p, k);
    }
  }

  lemma {:induction false} CountTwo(times: seq<real>, lo: real, hi: real, i: nat, n: nat)
    requires i + 1 < n <= |times| && lo <= times[i] <= hi && lo <= times[i + 1] <= hi
    ensures CountWithin(times[..n], lo, hi) >= 2
    decreases n
  {
    assert times[..n][..n - 1] == times[..n - 1];
    if n > i + 2 {
      CountTwo(times, lo, hi, i, n - 1);
    } else {
      assert times[..n - 1][..n - 2] == times[..n - 2];
    }
  }

  lemma CloseSendsBreak(times: seq<real>, qps: real, i: nat)
    requires qps > 0.0 && i + 1 < |times| && times[i] <= times[i + 1] < times[i] + 1.0 / qps
    ensures !KeepsCeiling(times, qps)
  {
    var lo, hi := times[i], times[i + 1];
    assert times[..|times|] == times;
    CountTwo(times, lo, hi, i, |times|);
    BelowOne(hi - lo, qps);
    TwoIsMore(CountWithin(times, lo, hi), (hi - lo) * qps);
    Exceeds(times, qps, lo, hi);
  }

  lemma Exceeds(times: seq<real>, qps: real, lo: real, hi: real)
    requires lo <= hi && CountWithin(times, lo, hi) as real > (hi - lo) * qps + 1.0
    ensures !KeepsCeiling(times, qps)
  {
  }

  lemma TwoIsMore(c: nat, p: real)
    requires c >= 2 && p < 1.0
    ensures c as real > p + 1.0
  {
  }

  lemma Scale(a: real, b: real, q: real)
    requires a < b && q > 0.0
    ensures a * q < b * q
  {
  }

  lemma BelowOne(x: real, qps: real)
    requires qps > 0.0 && x < 1.0 / qps
    ensures x * qps < 1.0
  {
    var interval := 1.0 / qps;
    calc {
      x * qps;
    < { Scale(x, interval, qps); }
      interval * qps;
    == 1.0;
    }
  }

  /** A schedule of clock readings, without any jitter, in which the sends exceed the ceiling. */
  lemma CeilingBreaks(next: real, qps: real, minInterval: real, names: seq<string>, i: nat) returns (draws: seq<Draw>)
    requires qps > 0.0 && minInterval > 0.0 && i + 1 < |names| && Overtaken(names, 1.0 / qps, minInterval, i)
    ensures |draws| == |names| && forall j :: 0 <= j < |draws| ==> draws[j].jitter == 0.0
    ensures !KeepsCeiling(Sends(next, qps, minInterval, draws, names), qps)
  {
    var interval := 1.0 / qps;
    var k: nat := if Repeat(names, i + 1) then Prev(names, i) else i;
    var slots := ClashSlots(next, interval, minInterval, k, i, |names|);
    draws := seq(|names|, j requires 0 <= j < |names| => Draw(slots[j], 0.0));
    ClashSpaced(next, interval, minInterval, k, i, |names|);
    SlotsOf(next, interval, slots, draws);
    ReservedIsPaced(slots, names, minInterval);
    var ats := Sends(next, qps, minInterval, draws, names);
    ClashSends(slots, names, next, interval, minInterval, k, i, ats);
    CloseSendsBreak(ats, qps, i);
  }

  ghost predicate JitterWithin(draws: seq<Draw>, ratio: real) {
    forall i :: 0 <= i < |draws| ==> 0.0 <= draws[i].jitter <= 2.0 * ratio
  }

  /** The ceiling on reserved slots carries over to the sends, for all clock readings and jitter
      draws, exactly for the smooth orders of names: after a repeat only repeats follow, and a tight
      repeat is never followed by a name whose previous ask is older than its own. */
  lemma RateCeilingReachesSendsIff(next: real, qps: real, minInterval: real, ratio: real, names: seq<string>)
    requires qps > 0.0 && minInterval > 0.0 && ratio >= 0.0
    ensures (forall draws :: |draws| == |names| && JitterWithin(draws, ratio) ==>
               KeepsCeiling(Sends(next, qps, minInterval, draws, names), qps))
            <==> Smooth(names, 1.0 / qps, minInterval)
  {
    if Smooth(names, 1.0 / qps, minInterval) {
      forall draws | |draws| == |names| && JitterWithin(draws, ratio)
        ensures KeepsCeiling(Sends(next, qps, minInterval, draws, names), qps)
      {
        var slots, ats := Slots(next, 1.0 / qps, draws), Sends(next, qps, minInterval, draws, names);
        SlotsAreSpaced(next, 1.0 / qps, draws);
        ReservedIsPaced(slots, names, minInterval);
        SmoothIsSpaced(slots, names, 1.0 / qps, minInterval, ats, |names|);
        assert ats[..|names|] == ats;
        SpacedKeepsCeiling(ats, qps);
      }
    } else {
      var i :| 0 <= i && i + 1 < |names| && Overtaken(names, 1.0 / qps, minInterval, i);
      var draws := CeilingBreaks(next, qps, minInterval, names, i);
      assert JitterWithin(draws, ratio);
    }
  }

  /** When the minimum interval is at most a slot, the order is smooth exactly when no name is
      asked for the first time after some name was repeated. */
  lemma ShortIntervalsSmoothIff(names: seq<string>, interval: real, minInterval: real)
    requires 0.0 < minInterval <= interval
    ensures Smooth(names, interval, minInterval)
            <==> forall i, j {:trigger Repeat(names, i), Repeat(names, j)} ::
                   0 <= i < j < |names| && Repeat(names, i) ==> Repeat(names, j)
  {
    if Smooth(names, interval, minInterval) {
      forall i, j | 0 <= i < j < |names| && Repeat(names, i) ensures Repeat(names, j) {
        RepeatsLast(names, interval, minInterval, i, j);
      }
    } else {
      var i :| 0 <= i && i + 1 < |names| && Overtaken(names, interval, minInterval, i);
      if Tight(names, interval, minInterval, i) { StepsGrow(1, i - Prev(names, i), interval); }
      assert Repeat(names, i) && !Repeat(names, i + 1);
    }
  }

  // ---------------------------------------------- threads that wake late

  /** Threads pass the name gate at or after their slots, on a clock that does not run back. */
  ghost predicate LateRun(next: real, qps: real, ratio: real, draws: seq<Draw>, clocks: seq<real>)
    requires qps > 0.0
  {
    && |clocks| == |draws| && JitterWithin(draws, ratio)
    && (forall i :: 0 <= i < |draws| ==> clocks[i] >= Slots(next, 1.0 / qps, draws)[i])
    && forall i :: 0 < i < |clocks| ==> clocks[i - 1] <= clocks[i]
  }

  ghost predicate AllSame(names: seq<string>) {
    forall i :: 0 < i < |names| ==> names[i - 1] == names[i]
  }

  /** Everyone wakes at one instant, those from the j-th on when the queue of the first name is
      about to end. */
  ghost function LateClocks(t: real, minInterval: real, j: nat, n: nat): (clocks: seq<real>)
    requires j > 0
    ensures |clocks| == n
  {
    seq(n, k requires 0 <= k < n => if k < j then t else t + Steps(j - 1, minInterval))
  }

  lemma {:induction false} SameNameQueues(clocks: seq<real>, names: seq<string>, minInterval: real, t: real, j: nat, ats: seq<real>, k: nat)
    requires minInterval > 0.0 && 0 < j && k < j && k < |names|
    requires clocks == LateClocks(t, minInterval, j, |names|) && Paced(clocks, names, minInterval, ats)
    requires forall i :: 0 < i <= k ==> names[i - 1] == names[i]
    ensures ats[k] == t + Steps(k, minInterval)
    decreases k
  {
    if k > 0 {
      SameNameQueues(clocks, names, minInterval, t, j, ats, k - 1);
      assert Prev(names, k) == k - 1;
      StepsGrow(0, k - 1, minInterval);
    }
  }

  /** The schedule in which all threads wake after the last slot. */
  lemma LateSchedule(next: real, qps: real, minInterval: real, ratio: real, j: nat, n: nat)
    returns (draws: seq<Draw>, t: real)
    requires qps > 0.0 && minInterval > 0.0 && ratio >= 0.0 && 0 < j
    ensures |draws| == n && LateRun(next, qps, ratio, draws, LateClocks(t, minInterval, j, n))
  {
    var interval := 1.0 / qps;
    var slots := seq(n, i requires 0 <= i < n => next + Steps(i, interval));
    draws := seq(n, i requires 0 <= i < n => Draw(slots[i], 0.0));
    SlotsOf(next, interval, slots, draws);
    t := next + Steps(n, interval);
    StepsGrow(0, j - 1, minInterval);
    forall i | 0 <= i < n ensures t >= slots[i] {
      StepsGrow(i, n, interval);
    }
  }

  lemma {:induction false} SameUpTo(names: seq<string>, j: nat, i: nat)
    requires i < j <= |names| && forall k :: 0 < k < j ==> names[k - 1] == names[k]
    ensures names[i] == names[j - 1]
    decreases j
  {
    if i < j - 1 { SameUpTo(names, j - 1, i); }
  }

  /** The first thread of a second name leaves together with the last one queued for the first. */
  lemma SecondNameClashes(clocks: seq<real>, names: seq<string>, minInterval: real, t: real, j: nat, ats: seq<real>)
    requires minInterval > 0.0 && 0 < j < |names| && names[j - 1] != names[j]
    requires forall i :: 0 < i < j ==> names[i - 1] == names[i]
    requires clocks == LateClocks(t, minInterval, j, |names|) && Paced(clocks, names, minInterval, ats)
    ensures ats[j - 1] == ats[j]
  {
    SameNameQueues(clocks, names, minInterval, t, j, ats, j - 1);
    forall i | 0 <= i < j ensures names[i] != names[j] { SameUpTo(names, j, i); }
    assert !Repeat(names, j);
  }

  lemma {:induction false} FirstChange(names: seq<string>, n: nat) returns (j: nat)
    requires n < |names| && n > 0 && names[n - 1] != names[n]
    ensures 0 < j <= n && names[j - 1] != names[j] && forall i :: 0 < i < j ==> names[i - 1] == names[i]
    decreases n
  {
    if i :| 0 < i < n && names[i - 1] != names[i] {
      j := FirstChange(names, i);
    } else {
      j := n;
    }
  }

  ghost predicate LateKeepsCeiling(next: real, qps: real, minInterval: real, ratio: real, names: seq<string>, draws: seq<Draw>, clocks: seq<real>)
    requires qps > 0.0
  {
    |draws| == |names| && LateRun(next, qps, ratio, draws, clocks) ==>
      KeepsCeiling(Reserved(map[], minInterval, Asks(clocks, names)), qps)
  }

  lemma LateBreaks(next: real, qps: real, minInterval: real, ratio: real, names: seq<string>)
    returns (draws: seq<Draw>, clocks: seq<real>)
    requires qps > 0.0 && minInterval > 0.0 && ratio >= 0.0
    requires |names| >= 2 && !(AllSame(names) && minInterval >= 1.0 / qps)
    ensures !LateKeepsCeiling(next, qps, minInterval, ratio, names, draws, clocks)
  {
    var j := |names|;
    if !AllSame(names) {
      var i :| 0 < i < |names| && names[i - 1] != names[i];
      j := FirstChange(names, i);
    }
    var t;
    draws, t := LateSchedule(next, qps, minInterval, ratio, j, |names|);
    clocks := LateClocks(t, minInterval, j, |names|);
    var ats := Reserved(map[], minInterval, Asks(clocks, names));
    ReservedIsPaced(clocks, names, minInterval);
    if AllSame(names) {
      SameNameQueues(clocks, names, minInterval, t, j, ats, 0);
      SameNameQueues(clocks, names, minInterval, t, j, ats, 1);
      assert Steps(1, minInterval) == minInterval && Steps(0, minInterval) == 0.0;
      CloseSendsBreak(ats, qps, 0);
    } else {
      SecondNameClashes(clocks, names, minInterval, t, j, ats);
      assert 1.0 / qps > 0.0;
      CloseSendsBreak(ats, qps, j - 1);
    }
  }

  /** When threads may wake any time after their slots, the sends keep the ceiling in every run only
      if there is one query at most, or all ask for one name and its interval is at least a slot: the
      name gate alone then spaces them. */
  lemma LateThreadsKeepCeilingIff(next: real, qps: real, minInterval: real, ratio: real, names: seq<string>)
    requires qps > 0.0 && minInterval > 0.0 && ratio >= 0.0
    ensures (forall draws, clocks :: LateKeepsCeiling(next, qps, minInterval, ratio, names, draws, clocks))
            <==> |names| <= 1 || (AllSame(names) && minInterval >= 1.0 / qps)
  {
    if |names| <= 1 || (AllSame(names) && minInterval >= 1.0 / qps) {
      forall draws, clocks ensures LateKeepsCeiling(next, qps, minInterval, ratio, names, draws, clocks) {
        if |draws| == |names| && LateRun(next, qps, ratio, draws, clocks) {
          var asks := Asks(clocks, names);
          var ats := Reserved(map[], minInterval, asks);
          forall i | 0 < i < |ats| ensures ats[i - 1] + 1.0 / qps <= ats[i] {
            SameNameSpaced(map[], minInterval, asks, i - 1, i);
          }
          SpacedKeepsCeiling(ats, qps);
        }
      }
    } else {
      var draws, clocks := LateBreaks(next, qps, minInterval, ratio, names);
    }
  }

  /** The shortest case, at 5 queries per second: the second query for one name is pushed onto the
      slot of the next name. */
  lemma RateCeilingFailsForSends()
    ensures exists draws :: |draws| == 3 && !KeepsCeiling(Sends(0.0, 5.0, 0.2, draws, ["a", "a", "b"]), 5.0)
  {
    var names := ["a", "a", "b"];
    assert Prev(names, 1) == 0 && Prev(names, 2) == -1;
    var draws := CeilingBreaks(0.0, 5.0, 0.2, names, 1);
  }
}
