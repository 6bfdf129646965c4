/** The dnstap frame processor (dnstap-processor/cmd/dnstap-processor/event.go, latency.go and the
    makeEvent and loadSets closures of main.go). Times are nanoseconds. */
module Processor {
  import opened Prelude
  import Compiler

  datatype Question = Question(qname: string, qtype: int, rcode: int)

  /** A decoded dnstap message. `question` is absent when the wire form is empty, does not unpack
      or asks nothing; `at` is the moment the main loop takes the frame. */
  datatype Frame = Frame(
    at: int, clientResponse: bool, ip: Option<string>, question: Option<Question>,
    querySec: int, queryNsec: int, responseSec: int, responseNsec: int)

  const SECOND: int := 1_000_000_000
  const MILLISECOND: int := 1_000_000

  /** dnstapLatency: both timestamps present, and the response strictly later. */
  function Latency(f: Frame): Option<int> {
    if f.querySec == 0 || f.responseSec == 0 then None
    else
      var d := (f.responseSec - f.querySec) * SECOND + f.responseNsec - f.queryNsec;
      if d <= 0 then None else Some(d)
  }

  function EventTime(f: Frame): int {
    if f.responseSec != 0 then f.responseSec * SECOND + f.responseNsec
    else if f.querySec != 0 then f.querySec * SECOND + f.queryNsec
    else f.at
  }

  /** Everything in a shipped event but the blocked flag and its reason. The event id and the
      internal flag are functions of these. */
  datatype Core = Core(ts: int, ip: string, question: Question, latencyMs: int)

  datatype Shipped = Shipped(core: Core, blocked: bool)

  datatype Observation = Observation(prober: bool, latency: int)

  /** The zone files at one moment; a file that cannot be read leaves the loaded set as it was. */
  datatype Files = Files(blocked: Option<set<string>>, allow: Option<set<string>>)

  datatype Sets = Sets(lastLoad: Option<int>, blocked: set<string>, allow: set<string>)

  /** loadSets: at most one reload per second. */
  function LoadSets(s: Sets, files: Files, now: int): Sets {
    if s.lastLoad.Some? && now - s.lastLoad.value < SECOND then s
    else Sets(Some(now), if files.blocked.Some? then files.blocked.value else s.blocked,
              if files.allow.Some? then files.allow.value else s.allow)
  }

  datatype Config = Config(probers: set<string>, drop: bool)

  /** A frame that carries an event, before any decision about shipping it. */
  predicate Decodes(f: Frame) {
    f.clientResponse && f.ip.Some? && f.question.Some?
  }

  function CoreOf(f: Frame): Core
    requires Decodes(f)
  {
    Core(EventTime(f), f.ip.value, f.question.value,
         if Latency(f).Some? then Latency(f).value / MILLISECOND else 0)
  }

  predicate IsProber(c: Config, f: Frame)
    requires Decodes(f)
  {
    f.ip.value in c.probers
  }

  predicate Ships(c: Config, f: Frame) {
    Decodes(f) && !(IsProber(c, f) && c.drop)
  }

  function Flag(s: Sets, q: Question): bool {
    Compiler.Flagged(s.blocked, s.allow, q.qname)
  }

  // ------------------------------------------------------------------ whole frame sequences

  function Observations(c: Config, frames: seq<Frame>): seq<Observation> {
    if frames == [] then []
    else
      var f := frames[|frames| - 1];
      Observations(c, frames[..|frames| - 1])
      + (if Decodes(f) && Latency(f).Some? then [Observation(IsProber(c, f), Latency(f).value)] else [])
  }

  /** The loader's state after the frames; only shipped events consult the zone files. */
  function SetsAfter(c: Config, start: Sets, h: int -> Files, frames: seq<Frame>): Sets {
    if frames == [] then start
    else
      var f := frames[|frames| - 1];
      var s := SetsAfter(c, start, h, frames[..|frames| - 1]);
      if Ships(c, f) then LoadSets(s, h(f.at), f.at) else s
  }

  function ShippedBy(c: Config, start: Sets, h: int -> Files, frames: seq<Frame>): seq<Shipped> {
    if frames == [] then []
    else
      var f := frames[|frames| - 1];
      ShippedBy(c, start, h, frames[..|frames| - 1])
      + (if Ships(c, f) then [Shipped(CoreOf(f), Flag(SetsAfter(c, start, h, frames), f.question.value))] else [])
  }

  class ResponseProcessor {
    const config: Config
    const files: int -> Files
    var observed: seq<Observation>
    var sets: Sets
    ghost var frames: seq<Frame>
    ghost const start: Sets

    ghost predicate Valid()
      reads this
    {
      && observed == Observations(config, frames)
      && sets == SetsAfter(config, start, files, frames)
    }

    constructor (config: Config, files: int -> Files)
      ensures Valid() && frames == [] && this.config == config && this.files == files
      ensures start == Sets(None, {}, {})
    {
      this.config := config;
      this.files := files;
      observed := [];
      sets := Sets(None, {}, {});
      frames := [];
      start := Sets(None, {}, {});
    }

    /** The latency sample is recorded before the decision to ship. */
    method Process(f: Frame) returns (ev: Option<Shipped>)
      requires Valid()
      modifies this
      ensures Valid() && frames == old(frames) + [f]
      ensures ev.Some? <==> Ships(config, f)
      ensures ShippedBy(config, start, files, frames)
           == ShippedBy(config, start, files, old(frames)) + (if ev.Some? then [ev.value] else [])
    {
      frames := frames + [f];
      assert frames[..|frames| - 1] == old(frames);
      if !f.clientResponse {
        return None;
      }
      if f.ip.None? {
        return None;
      }
      var isProber := f.ip.value in config.probers;
      if f.question.None? {
        return None;
      }
      var latencyMs := 0;
      var d := Latency(f);
      if d.Some? {
        latencyMs := d.value / MILLISECOND;
        observed := observed + [Observation(isProber, d.value)];
      }
      if isProber && config.drop {
        return None;
      }
      sets := LoadSets(sets, files(f.at), f.at);
      var core := Core(EventTime(f), f.ip.value, f.question.value, latencyMs);
      ev := Some(Shipped(core, Flag(sets, f.question.value)));
    }
  }

  // ------------------------------------------------------------------ what a shipped event says

  function Instant(sec: int, nsec: int): int {
    sec * 1_000_000_000 + nsec
  }

  /** A latency is measured exactly when both times are present and the response came later, and then
      it is the time between them. */
  lemma LatencyIff(f: Frame)
    ensures var query, response := Instant(f.querySec, f.queryNsec), Instant(f.responseSec, f.responseNsec);
            && (Latency(f).Some? <==> f.querySec != 0 && f.responseSec != 0 && query < response)
            && (Latency(f).Some? ==> query + Latency(f).value == response)
  {
  }

  /** An event is dated by its response, else by its query, else by its arrival; a measured one thus
      ends one latency after its query. */
  lemma DatedBy(f: Frame)
    ensures f.responseSec != 0 ==> EventTime(f) == Instant(f.responseSec, f.responseNsec)
    ensures f.responseSec == 0 && f.querySec != 0 ==> EventTime(f) == Instant(f.querySec, f.queryNsec)
    ensures f.responseSec == 0 && f.querySec == 0 ==> EventTime(f) == f.at
    ensures Latency(f).Some? ==> EventTime(f) == Instant(f.querySec, f.queryNsec) + Latency(f).value
  {
  }

  /** The event tells the frame's client, question and time, and its latency in whole milliseconds. */
  ghost predicate Tells(core: Core, f: Frame) {
    && f.clientResponse && f.ip == Some(core.ip) && f.question == Some(core.question) && core.ts == EventTime(f)
    && (if Latency(f).Some? then core.latencyMs * 1_000_000 <= Latency(f).value < (core.latencyMs + 1) * 1_000_000
        else core.latencyMs == 0)
  }

  lemma CoreTells(f: Frame)
    requires Decodes(f)
    ensures Tells(CoreOf(f), f)
  {
  }

  ghost function ShipFlags(c: Config, frames: seq<Frame>): (flags: seq<bool>)
    ensures |flags| == |frames|
  {
    seq(|frames|, i requires 0 <= i < |frames| => Ships(c, frames[i]))
  }

  /** What is shipped are the frames that ship, in their order, each told as it was. */
  lemma {:induction false} ShippedInOrder(c: Config, start: Sets, h: int -> Files, frames: seq<Frame>)
    ensures var idx := TruePositions(ShipFlags(c, frames));
            && |ShippedBy(c, start, h, frames)| == |idx|
            && forall i :: 0 <= i < |idx| ==> idx[i] < |frames| && Tells(ShippedBy(c, start, h, frames)[i].core, frames[idx[i]])
  {
    if frames != [] {
      var n := |frames| - 1;
      ShippedInOrder(c, start, h, frames[..n]);
      assert ShipFlags(c, frames)[..n] == ShipFlags(c, frames[..n]);
      assert forall k :: 0 <= k < n ==> frames[..n][k] == frames[k];
      if Ships(c, frames[n]) { CoreTells(frames[n]); }
    }
  }

  predicate Measured(f: Frame) {
    f.clientResponse && f.ip.Some? && f.question.Some? && Latency(f).Some?
  }

  ghost predicate Samples(o: Observation, f: Frame, probers: set<string>) {
    Measured(f) && Latency(f) == Some(o.latency) && (o.prober <==> f.ip.value in probers)
  }

  ghost function MeasuredFlags(frames: seq<Frame>): (flags: seq<bool>)
    ensures |flags| == |frames|
  {
    seq(|frames|, i requires 0 <= i < |frames| => Measured(frames[i]))
  }

  /** The samples are those of the frames with a question and a measured latency, in their order, each
      in the series of its sender. */
  lemma {:induction false} ObservedInOrder(c: Config, frames: seq<Frame>)
    ensures var idx := TruePositions(MeasuredFlags(frames));
            && |Observations(c, frames)| == |idx|
            && forall i :: 0 <= i < |idx| ==> idx[i] < |frames| && Samples(Observations(c, frames)[i], frames[idx[i]], c.probers)
  {
    if frames != [] {
      var n := |frames| - 1;
      ObservedInOrder(c, frames[..n]);
      assert MeasuredFlags(frames)[..n] == MeasuredFlags(frames[..n]);
      assert forall k :: 0 <= k < n ==> frames[..n][k] == frames[k];
      assert Measured(frames[n]) <==> Decodes(frames[n]) && Latency(frames[n]).Some?;
    }
  }

  // ------------------------------------------------------------------ drop on versus drop off

  function NonProber(probers: set<string>, events: seq<Shipped>): seq<Shipped> {
    if events == [] then []
    else
      var e := events[|events| - 1];
      NonProber(probers, events[..|events| - 1]) + (if e.core.ip in probers then [] else [e])
  }

  function Cores(events: seq<Shipped>): (cs: seq<Core>)
    ensures |cs| == |events|
  {
    seq(|events|, i requires 0 <= i < |events| => events[i].core)
  }

  /** Suppressing probes never touches the metrics. */
  lemma {:induction false} DropKeepsObservations(probers: set<string>, frames: seq<Frame>)
    ensures Observations(Config(probers, true), frames) == Observations(Config(probers, false), frames)
  {
    if frames != [] { DropKeepsObservations(probers, frames[..|frames| - 1]); }
  }

  lemma CoresSnoc(events: seq<Shipped>, e: Shipped)
    ensures Cores(events + [e]) == Cores(events) + [e.core]
  {
  }

  lemma ShippedLast(c: Config, start: Sets, h: int -> Files, frames: seq<Frame>)
    requires frames != []
    ensures var f, before := frames[|frames| - 1], ShippedBy(c, start, h, frames[..|frames| - 1]);
            ShippedBy(c, start, h, frames) ==
            if Ships(c, f) then before + [Shipped(CoreOf(f), Flag(SetsAfter(c, start, h, frames), f.question.value))]
            else before
  {
  }

  /** Apart from the blocked flag, what is shipped with the drop on is the non-prober subsequence
      of what is shipped with it off, whatever the zone files do. */
  lemma {:induction false} DropKeepsNonProberEvents(probers: set<string>, start: Sets, h: int -> Files, frames: seq<Frame>)
    ensures Cores(ShippedBy(Config(probers, true), start, h, frames))
         == Cores(NonProber(probers, ShippedBy(Config(probers, false), start, h, frames)))
  {
    if frames != [] {
      var f := frames[|frames| - 1];
      var before := frames[..|frames| - 1];
      DropKeepsNonProberEvents(probers, start, h, before);
      var on, off := Config(probers, true), Config(probers, false);
      ShippedLast(on, start, h, frames);
      ShippedLast(off, start, h, frames);
      if Decodes(f) {
        var a := Shipped(CoreOf(f), Flag(SetsAfter(on, start, h, frames), f.question.value));
        var b := Shipped(CoreOf(f), Flag(SetsAfter(off, start, h, frames), f.question.value));
        CoresSnoc(ShippedBy(on, start, h, before), a);
        CoresSnoc(NonProber(probers, ShippedBy(off, start, h, before)), b);
      }
    }
  }

  // ---------------------------------------------- when the blocked flag agrees as well

  const FRESH: Sets := Sets(None, {}, {})

  /** The instants at which the zone files were read: they depend on arrival times alone. */
  function Loads(c: Config, frames: seq<Frame>): seq<int> {
    if frames == [] then []
    else
      var f := frames[|frames| - 1];
      var ls := Loads(c, frames[..|frames| - 1]);
      if !Ships(c, f) || (ls != [] && f.at - ls[|ls| - 1] < SECOND) then ls else ls + [f.at]
  }

  /** The loaded sets after reading the files at those instants; a file that could not be read at
      one of them leaves what an earlier read brought. */
  function FromLoads(h: int -> Files, loads: seq<int>): Sets {
    if loads == [] then FRESH
    else
      var t := loads[|loads| - 1];
      var s := FromLoads(h, loads[..|loads| - 1]);
      Sets(Some(t), if h(t).blocked.Some? then h(t).blocked.value else s.blocked,
           if h(t).allow.Some? then h(t).allow.value else s.allow)
  }

  lemma {:induction false} SetsComeFromLoads(c: Config, h: int -> Files, frames: seq<Frame>)
    ensures SetsAfter(c, FRESH, h, frames) == FromLoads(h, Loads(c, frames))
  {
    if frames != [] { SetsComeFromLoads(c, h, frames[..|frames| - 1]); }
  }

  /** Two reads are at least a second apart. */
  lemma {:induction false} ReadsApart(c: Config, frames: seq<Frame>)
    ensures forall i :: 0 < i < |Loads(c, frames)| ==> Loads(c, frames)[i] >= Loads(c, frames)[i - 1] + 1_000_000_000
  {
    if frames != [] {
      var n := |frames| - 1;
      ReadsApart(c, frames[..n]);
      var before, ls := Loads(c, frames[..n]), Loads(c, frames);
      assert ls == before || (ls == before + [frames[n].at] && (before == [] || frames[n].at - before[|before| - 1] >= SECOND));
    }
  }

  ghost predicate ReadAt(c: Config, frames: seq<Frame>, t: int) {
    exists k :: 0 <= k < |frames| && frames[k].at == t && Ships(c, frames[k])
  }

  /** The files are read only when an event is shipped. */
  lemma {:induction false} ReadsWhenShipping(c: Config, frames: seq<Frame>, t: int)
    requires t in Loads(c, frames)
    ensures ReadAt(c, frames, t)
  {
    var n := |frames| - 1;
    var u := frames[..n];
    if t in Loads(c, u) {
      ReadsWhenShipping(c, u, t);
      var k :| 0 <= k < |u| && u[k].at == t && Ships(c, u[k]);
      assert frames[k] == u[k];
    } else {
      assert frames[n].at == t && Ships(c, frames[n]);
    }
  }

  /** Whenever an event is shipped, the files were read less than a second before. */
  lemma ReadsInTime(c: Config, frames: seq<Frame>)
    requires frames != [] && Ships(c, frames[|frames| - 1])
    ensures Loads(c, frames) != [] && frames[|frames| - 1].at - Loads(c, frames)[|Loads(c, frames)| - 1] < 1_000_000_000
  {
  }

  /** A shipped non-prober event with the reads its flag was computed from. */
  datatype Tag = Tag(core: Core, loads: seq<int>)

  function Tags(c: Config, frames: seq<Frame>): seq<Tag> {
    if frames == [] then []
    else
      var f := frames[|frames| - 1];
      Tags(c, frames[..|frames| - 1])
      + (if Decodes(f) && !IsProber(c, f) then [Tag(CoreOf(f), Loads(c, frames))] else [])
  }

  function FromTag(h: int -> Files, t: Tag): Shipped {
    Shipped(t.core, Flag(FromLoads(h, t.loads), t.core.question))
  }

  function FromTags(h: int -> Files, tags: seq<Tag>): (events: seq<Shipped>)
    ensures |events| == |tags|
  {
    seq(|tags|, i requires 0 <= i < |tags| => FromTag(h, tags[i]))
  }

  lemma {:induction false} ShippedFromTags(c: Config, h: int -> Files, frames: seq<Frame>)
    ensures NonProber(c.probers, ShippedBy(c, FRESH, h, frames)) == FromTags(h, Tags(c, frames))
  {
    if frames != [] {
      var f := frames[|frames| - 1];
      var before := frames[..|frames| - 1];
      ShippedFromTags(c, h, before);
      ShippedLast(c, FRESH, h, frames);
      assert Tags(c, before) + [] == Tags(c, before);
      if Ships(c, f) {
        SetsComeFromLoads(c, h, frames);
        var e := Shipped(CoreOf(f), Flag(SetsAfter(c, FRESH, h, frames), f.question.value));
      }
    }
  }

  lemma {:induction false} DropShipsNoProber(probers: set<string>, start: Sets, h: int -> Files, frames: seq<Frame>)
    ensures var on := ShippedBy(Config(probers, true), start, h, frames);
            NonProber(probers, on) == on
  {
    if frames != [] {
      var c := Config(probers, true);
      DropShipsNoProber(probers, start, h, frames[..|frames| - 1]);
      ShippedLast(c, start, h, frames);
    }
  }

  /** The tags of the two modes differ at most in their reads, and none is without one. */
  lemma {:induction false} TagsAlike(probers: set<string>, frames: seq<Frame>)
    ensures var on, off := Tags(Config(probers, true), frames), Tags(Config(probers, false), frames);
            && |on| == |off|
            && forall i :: 0 <= i < |on| ==> on[i].core == off[i].core && on[i].loads != [] && off[i].loads != []
  {
    if frames != [] { TagsAlike(probers, frames[..|frames| - 1]); }
  }

  ghost predicate SameShipped(probers: set<string>, h: int -> Files, frames: seq<Frame>) {
    ShippedBy(Config(probers, true), FRESH, h, frames)
    == NonProber(probers, ShippedBy(Config(probers, false), FRESH, h, frames))
  }

  lemma SameShippedIsSameTags(probers: set<string>, h: int -> Files, frames: seq<Frame>)
    ensures SameShipped(probers, h, frames)
            <==> FromTags(h, Tags(Config(probers, true), frames)) == FromTags(h, Tags(Config(probers, false), frames))
  {
    DropShipsNoProber(probers, FRESH, h, frames);
    ShippedFromTags(Config(probers, true), h, frames);
    ShippedFromTags(Config(probers, false), h, frames);
  }

  ghost predicate Ascending(ts: seq<int>) {
    forall i, j :: 0 <= i < j < |ts| ==> ts[i] < ts[j]
  }

  lemma {:induction false} LoadsAscend(c: Config, frames: seq<Frame>)
    ensures Ascending(Loads(c, frames))
  {
    if frames != [] { LoadsAscend(c, frames[..|frames| - 1]); }
  }

  /** Different lists of reads differ in some instant that only one of them holds. */
  lemma {:induction false} OnlyInOne(a: seq<int>, b: seq<int>) returns (t: int)
    requires Ascending(a) && Ascending(b) && a != b
    ensures t in a <==> t !in b
    decreases |a|
  {
    if a == [] {
      t := b[0];
    } else if b == [] {
      t := a[0];
    } else {
      var x, y := a[|a| - 1], b[|b| - 1];
      assert a == a[..|a| - 1] + [x] && b == b[..|b| - 1] + [y];
      if x == y {
        t := OnlyInOne(a[..|a| - 1], b[..|b| - 1]);
      } else {
        t := if x > y then x else y;
      }
    }
  }

  /** Files that can be read at one instant only, when one name is blocked. */
  function OnceReadable(at: int, name: string): int -> Files {
    t => if t == at then Files(Some({name}), None) else Files(None, None)
  }

  lemma {:induction false} LoadedOnce(at: int, name: string, loads: seq<int>)
    ensures FromLoads(OnceReadable(at, name), loads).blocked == if at in loads then {name} else {}
    ensures FromLoads(OnceReadable(at, name), loads).allow == {}
  {
    if loads != [] { LoadedOnce(at, name, loads[..|loads| - 1]); }
  }

  predicate NonProberFrame(probers: set<string>, f: Frame) {
    Decodes(f) && f.ip.value !in probers
  }

  /** If these frames end in a non-prober event, it finds the same reads behind it in both modes. */
  ghost predicate ReadsAgree(probers: set<string>, frames: seq<Frame>) {
    frames != [] && NonProberFrame(probers, frames[|frames| - 1]) ==>
      Loads(Config(probers, true), frames) == Loads(Config(probers, false), frames)
  }

  ghost predicate SameReads(probers: set<string>, frames: seq<Frame>) {
    forall n :: 0 <= n <= |frames| ==> ReadsAgree(probers, frames[..n])
  }

  /** The last frame adds one condition to each side. */
  lemma SameReadsLast(probers: set<string>, frames: seq<Frame>)
    requires frames != []
    ensures SameReads(probers, frames) <==> SameReads(probers, frames[..|frames| - 1]) && ReadsAgree(probers, frames)
  {
    var m := |frames| - 1;
    var before := frames[..m];
    assert frames[..m + 1] == frames;
    assert forall n :: 0 <= n <= m ==> before[..n] == frames[..n];
    if SameReads(probers, before) && ReadsAgree(probers, frames) {
      forall n | 0 <= n <= |frames| ensures ReadsAgree(probers, frames[..n]) {
        if n <= m { assert ReadsAgree(probers, before[..n]); }
      }
    }
    if SameReads(probers, frames) {
      forall n | 0 <= n <= m ensures ReadsAgree(probers, before[..n]) {
        assert ReadsAgree(probers, frames[..n]);
      }
      assert ReadsAgree(probers, frames[..m + 1]);
    }
  }

  lemma SameTagsLast(probers: set<string>, frames: seq<Frame>)
    requires frames != []
    ensures var before := frames[..|frames| - 1];
            Tags(Config(probers, true), frames) == Tags(Config(probers, false), frames) <==>
              Tags(Config(probers, true), before) == Tags(Config(probers, false), before) && ReadsAgree(probers, frames)
  {
    var before := frames[..|frames| - 1];
    var f := frames[|frames| - 1];
    var on, off := Config(probers, true), Config(probers, false);
    var a, b := Tags(on, before), Tags(off, before);
    TagsAlike(probers, before);
    if NonProberFrame(probers, f) {
      var x, y := Tag(CoreOf(f), Loads(on, frames)), Tag(CoreOf(f), Loads(off, frames));
      assert Tags(on, frames) == a + [x] && Tags(off, frames) == b + [y];
      if a + [x] == b + [y] {
        assert a == (a + [x])[..|a|] && b == (b + [y])[..|b|];
        assert x == (a + [x])[|a|] && y == (b + [y])[|b|];
      }
    } else {
      assert Tags(on, frames) == a + [] == a && Tags(off, frames) == b + [] == b;
    }
  }

  lemma {:induction false} SameTagsIff(probers: set<string>, frames: seq<Frame>)
    ensures Tags(Config(probers, true), frames) == Tags(Config(probers, false), frames) <==> SameReads(probers, frames)
  {
    if frames != [] {
      SameTagsIff(probers, frames[..|frames| - 1]);
      SameTagsLast(probers, frames);
      SameReadsLast(probers, frames);
    }
  }

  /** Dropping changes when the zone files are read, because dropped probes no longer trigger a
      read. The shipped events agree in every field for every history of the zone files, unreadable
      ones included, exactly when each non-prober event finds the same reads behind it in both
      modes. */
  lemma DropIsInvisibleIff(probers: set<string>, frames: seq<Frame>)
    ensures (forall h: int -> Files :: SameShipped(probers, h, frames)) <==> SameReads(probers, frames)
  {
    var on, off := Tags(Config(probers, true), frames), Tags(Config(probers, false), frames);
    TagsAlike(probers, frames);
    SameTagsIff(probers, frames);
    if on == off {
      forall h: int -> Files ensures SameShipped(probers, h, frames) {
        SameShippedIsSameTags(probers, h, frames);
      }
    } else {
      var i :| 0 <= i < |on| && on[i] != off[i];
      var h := TellApart(probers, frames, i);
      assert !SameShipped(probers, h, frames);
    }
  }

  lemma {:induction false} TagLoadsAscend(c: Config, frames: seq<Frame>)
    ensures forall i :: 0 <= i < |Tags(c, frames)| ==> Ascending(Tags(c, frames)[i].loads)
  {
    if frames != [] {
      TagLoadsAscend(c, frames[..|frames| - 1]);
      LoadsAscend(c, frames);
    }
  }

  /** A history of the files that gives an event with different reads a different flag. */
  lemma TellApart(probers: set<string>, frames: seq<Frame>, i: nat) returns (h: int -> Files)
    requires i < |Tags(Config(probers, true), frames)| == |Tags(Config(probers, false), frames)|
    requires Tags(Config(probers, true), frames)[i].core == Tags(Config(probers, false), frames)[i].core
    requires Tags(Config(probers, true), frames)[i] != Tags(Config(probers, false), frames)[i]
    ensures !SameShipped(probers, h, frames)
  {
    var on, off := Tags(Config(probers, true), frames), Tags(Config(probers, false), frames);
    TagLoadsAscend(Config(probers, true), frames);
    TagLoadsAscend(Config(probers, false), frames);
    var t := OnlyInOne(on[i].loads, off[i].loads);
    var name := Compiler.QueryName(on[i].core.question.qname);
    h := OnceReadable(t, name);
    LoadedOnce(t, name, on[i].loads);
    LoadedOnce(t, name, off[i].loads);
    SameShippedIsSameTags(probers, h, frames);
    assert FromTags(h, on)[i].blocked != FromTags(h, off)[i].blocked;
  }

  lemma {:induction false} UnchangedLoads(files: Files, loads: seq<int>)
    requires loads != []
    ensures var s := FromLoads(_ => files, loads);
            && s.blocked == (if files.blocked.Some? then files.blocked.value else {})
            && s.allow == (if files.allow.Some? then files.allow.value else {})
  {
    if |loads| > 1 { UnchangedLoads(files, loads[..|loads| - 1]); }
  }

  /** While the zone files do not change, dropping is invisible. */
  lemma UnchangedZonesHideDrop(probers: set<string>, files: Files, frames: seq<Frame>)
    ensures SameShipped(probers, _ => files, frames)
  {
    var h: int -> Files := _ => files;
    TagsAlike(probers, frames);
    SameShippedIsSameTags(probers, h, frames);
    var on, off := Tags(Config(probers, true), frames), Tags(Config(probers, false), frames);
    forall i | 0 <= i < |on| ensures FromTag(h, on[i]) == FromTag(h, off[i]) {
      UnchangedLoads(files, on[i].loads);
      UnchangedLoads(files, off[i].loads);
    }
    assert FromTags(h, on) == FromTags(h, off);
  }

  lemma LoadsSnoc(c: Config, frames: seq<Frame>, f: Frame)
    ensures Loads(c, frames + [f]) ==
            var ls := Loads(c, frames);
            if !Ships(c, f) || (ls != [] && f.at - ls[|ls| - 1] < SECOND) then ls else ls + [f.at]
  {
  }

  /** Of two frames the first that is shipped makes the first read. */
  lemma FirstRead(c: Config, f: Frame, g: Frame)
    requires Ships(c, g)
    ensures Loads(c, [f, g]) != [] && Loads(c, [f, g])[0] == if Ships(c, f) then f.at else g.at
  {
    assert [] + [f] == [f] && [f] + [g] == [f, g];
    LoadsSnoc(c, [], f);
    LoadsSnoc(c, [f], g);
  }

  /** A probe any time before a client's query is enough to tell the modes apart. */
  lemma DropCanChangeFlag(probers: set<string>, ip: string, client: string, gap: nat)
    requires ip in probers && client !in probers && gap > 0
    ensures exists frames: seq<Frame>, h: int -> Files ::
              |frames| == 2 && frames[1].at - frames[0].at == gap && !SameShipped(probers, h, frames)
  {
    var q := Question("a", 1, 0);
    var f := Frame(0, true, Some(ip), Some(q), 0, 0, 0, 0);
    var g := Frame(gap, true, Some(client), Some(q), 0, 0, 0, 0);
    var frames := [f, g];
    var on, off := Config(probers, true), Config(probers, false);
    FirstRead(on, f, g);
    FirstRead(off, f, g);
    assert !ReadsAgree(probers, frames);
    assert frames[..2] == frames;
    DropIsInvisibleIff(probers, frames);
    var h: int -> Files :| !SameShipped(probers, h, frames);
  }
}
