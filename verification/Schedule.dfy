/** Time-of-day schedules of blocklists (admin-ui/app/services/blocklist_scheduler.py). */
module Schedule {
  import opened Prelude
  import Text

  const DAY: int := 1440

  datatype Time = Time(hour: int, minute: int)

  predicate ValidTime(t: Time) {
    0 <= t.hour < 24 && 0 <= t.minute < 60
  }

  function Minutes(t: Time): int {
    t.hour * 60 + t.minute
  }

  predicate IsTimeInRange(current: Time, start: Time, end: Time) {
    var c, s, e := Minutes(current), Minutes(start), Minutes(end);
    if s <= e then s <= c < e else c >= s || c < e
  }

  /** For valid times the two branches are one rule on the clock face. */
  lemma CircularRule(current: Time, start: Time, end: Time)
    requires ValidTime(current) && ValidTime(start) && ValidTime(end)
    ensures IsTimeInRange(current, start, end)
            <==> (Minutes(current) - Minutes(start)) % DAY < (Minutes(end) - Minutes(start)) % DAY
  {
    WrapMod(Minutes(current) - Minutes(start));
    WrapMod(Minutes(end) - Minutes(start));
  }

  lemma WrapMod(d: int)
    requires -DAY < d < DAY
    ensures d % DAY == if d >= 0 then d else d + DAY
  {
  }

  function TimeOf(m: int): Time {
    Time(m / 60, m % 60)
  }

  /** Active minutes among the first n of the day. */
  function ActiveMinutes(start: Time, end: Time, n: nat): nat {
    if n == 0 then 0
    else ActiveMinutes(start, end, n - 1) + (if IsTimeInRange(TimeOf(n - 1), start, end) then 1 else 0)
  }

  lemma {:induction false} ActiveMinutesClosedForm(start: Time, end: Time, n: nat)
    requires ValidTime(start) && ValidTime(end)
    ensures var s, e := Minutes(start), Minutes(end);
            ActiveMinutes(start, end, n) == if s <= e then Max(0, Min(n, e) - s) else Min(n, e) + Max(0, n - s)
  {
    if n > 0 {
      ActiveMinutesClosedForm(start, end, n - 1);
      assert Minutes(TimeOf(n - 1)) == n - 1;
    }
  }

  /** A schedule is active (end - start) mod 1440 minutes a day: never, when both ends coincide. */
  lemma ActivePerDay(start: Time, end: Time)
    requires ValidTime(start) && ValidTime(end)
    ensures ActiveMinutes(start, end, 1440) == (Minutes(end) - Minutes(start)) % DAY
  {
    ActiveMinutesClosedForm(start, end, 1440);
    WrapMod(Minutes(end) - Minutes(start));
  }

  /** `start` and `end` are absent when they do not parse; `days` is the text of the field. */
  datatype BlockList = BlockList(
    scheduled: bool, start: Option<Time>, end: Option<Time>, days: string, enabled: bool)

  datatype Now = Now(weekday: int, time: Time)

  /** `p in s` on strings. */
  predicate Contains(s: string, p: string) {
    p <= s || (s != "" && Contains(s[1..], p))
  }

  function DayName(weekday: int): string {
    match weekday
    case 0 => "mon"
    case 1 => "tue"
    case 2 => "wed"
    case 3 => "thu"
    case 4 => "fri"
    case 5 => "sat"
    case 6 => "sun"
    case _ => ""
  }

  /** No days listed means every day. */
  predicate DayListed(days: string, weekday: int) {
    var d := Text.Lower(days);
    d == "" || DayName(weekday) == "" || Contains(d, DayName(weekday))
  }

  predicate IsActive(b: BlockList, now: Now) {
    if !b.scheduled then true
    else if b.start.None? || b.end.None? then true
    else if !DayListed(b.days, now.weekday) then false
    else IsTimeInRange(now.time, b.start.value, b.end.value)
  }

  /** Without a schedule, or with one that does not parse, a list is active at every time. */
  lemma UnscheduledIsActive(b: BlockList, now: Now)
    requires !b.scheduled || b.start.None? || b.end.None?
    ensures IsActive(b, now)
  {
  }

  /** Active minutes among the first n of one weekday. */
  function DayMinutes(b: BlockList, weekday: int, n: nat): nat {
    if n == 0 then 0
    else DayMinutes(b, weekday, n - 1) + (if IsActive(b, Now(weekday, TimeOf(n - 1))) then 1 else 0)
  }

  lemma {:induction false} DayMinutesAre(b: BlockList, weekday: int, n: nat)
    requires b.scheduled && b.start.Some? && b.end.Some?
    ensures DayMinutes(b, weekday, n) ==
            if DayListed(b.days, weekday) then ActiveMinutes(b.start.value, b.end.value, n) else 0
  {
    if n > 0 { DayMinutesAre(b, weekday, n - 1); }
  }

  /** Active minutes on the first n days of the week. */
  function WeekMinutes(b: BlockList, n: nat): nat {
    if n == 0 then 0 else WeekMinutes(b, n - 1) + DayMinutes(b, n - 1, 1440)
  }

  ghost function ListedDays(days: string, n: nat): (flags: seq<bool>)
    ensures |flags| == n
  {
    seq(n, w => days == "" || Contains(Text.Lower(days), ["mon", "tue", "wed", "thu", "fri", "sat", "sun"][w % 7]))
  }

  lemma DayNames(days: string, weekday: int)
    requires 0 <= weekday < 7
    ensures DayListed(days, weekday)
            <==> days == "" || Contains(Text.Lower(days), ["mon", "tue", "wed", "thu", "fri", "sat", "sun"][weekday])
  {
    assert days == "" <==> Text.Lower(days) == "" by { assert |Text.Lower(days)| == |days|; }
  }

  lemma DayIs(b: BlockList, weekday: int)
    requires b.scheduled && b.start.Some? && b.end.Some? && ValidTime(b.start.value) && ValidTime(b.end.value)
    ensures DayMinutes(b, weekday, 1440) ==
            if DayListed(b.days, weekday) then (Minutes(b.end.value) - Minutes(b.start.value)) % DAY else 0
  {
    DayMinutesAre(b, weekday, 1440);
    ActivePerDay(b.start.value, b.end.value);
  }

  lemma ListedStep(days: string, w: nat)
    requires w < 7
    ensures |TrueAt(ListedDays(days, w + 1))| == |TrueAt(ListedDays(days, w))| + if DayListed(days, w) then 1 else 0
  {
    DayNames(days, w);
    assert ListedDays(days, w + 1) == ListedDays(days, w) + [DayListed(days, w)];
    TrueAtLast(ListedDays(days, w), DayListed(days, w));
  }

  lemma OneMore(k: int, length: int)
    ensures (k + 1) * length == k * length + length
  {
  }

  /** A scheduled list is active (end - start) mod 1440 minutes on each listed day, all of them when
      none is listed, and never on another. */
  lemma {:induction false} ActivePerWeek(b: BlockList, n: nat)
    requires b.scheduled && b.start.Some? && b.end.Some? && ValidTime(b.start.value) && ValidTime(b.end.value) && n <= 7
    ensures WeekMinutes(b, n) == |TrueAt(ListedDays(b.days, n))| * ((Minutes(b.end.value) - Minutes(b.start.value)) % DAY)
  {
    if n > 0 {
      ActivePerWeek(b, n - 1);
      DayIs(b, n - 1);
      ListedStep(b.days, n - 1);
      OneMore(|TrueAt(ListedDays(b.days, n - 1))|, (Minutes(b.end.value) - Minutes(b.start.value)) % DAY);
    }
  }

  function Checked(lists: seq<BlockList>, now: Now): (r: seq<BlockList>)
    ensures |r| == |lists|
  {
    seq(|lists|, i requires 0 <= i < |lists| =>
      if lists[i].scheduled then lists[i].(enabled := IsActive(lists[i], now)) else lists[i])
  }

  /** The scheduled lists whose flag a check changes to `to`. */
  ghost function Switches(lists: seq<BlockList>, now: Now, to: bool): (flags: seq<bool>)
    ensures |flags| == |lists|
  {
    seq(|lists|, i requires 0 <= i < |lists| =>
      lists[i].scheduled && lists[i].enabled != to && IsActive(lists[i], now) == to)
  }

  class Scheduler {
    var lists: seq<BlockList>

    constructor (lists: seq<BlockList>)
      ensures this.lists == lists
    {
      this.lists := lists;
    }

    /** Sets each scheduled list to its computed activity and touches nothing else; the zones are
        regenerated exactly when some flag changed. */
    method RunScheduleCheck(now: Now) returns (enabled: nat, disabled: nat, changed: bool)
      modifies this
      ensures lists == Checked(old(lists), now)
      ensures changed <==> lists != old(lists)
      ensures enabled == |TrueAt(Switches(old(lists), now, true))| && disabled == |TrueAt(Switches(old(lists), now, false))|
    {
      enabled, disabled, changed := 0, 0, false;
      var i := 0;
      while i < |lists|
        invariant 0 <= i <= |lists| == |old(lists)|
        invariant forall k :: 0 <= k < i ==> lists[k] == Checked(old(lists), now)[k]
        invariant forall k :: i <= k < |lists| ==> lists[k] == old(lists)[k]
        invariant changed <==> exists k :: 0 <= k < i && lists[k] != old(lists)[k]
        invariant enabled == |TrueAt(Switches(old(lists), now, true)[..i])|
        invariant disabled == |TrueAt(Switches(old(lists), now, false)[..i])|
      {
        FlagStep(Switches(old(lists), now, true), i);
        FlagStep(Switches(old(lists), now, false), i);
        var b := lists[i];
        if b.scheduled {
          var shouldBeActive := IsActive(b, now);
          if shouldBeActive && !b.enabled {
            lists := lists[i := b.(enabled := true)];
            enabled, changed := enabled + 1, true;
            assert lists[i] != old(lists)[i];
          } else if !shouldBeActive && b.enabled {
            lists := lists[i := b.(enabled := false)];
            disabled, changed := disabled + 1, true;
            assert lists[i] != old(lists)[i];
          }
        }
        i := i + 1;
      }
      assert lists == Checked(old(lists), now);
      assert Switches(old(lists), now, true)[..i] == Switches(old(lists), now, true);
      assert Switches(old(lists), now, false)[..i] == Switches(old(lists), now, false);
    }
  }

  /** A second check at the same time changes nothing. A check leaves lists without a schedule as they
      are, and of the others it sets the flag alone. */
  lemma CheckIsIdempotent(lists: seq<BlockList>, now: Now)
    ensures Checked(Checked(lists, now), now) == Checked(lists, now)
    ensures forall i :: 0 <= i < |lists| && lists[i].scheduled ==>
              Checked(lists, now)[i] == lists[i].(enabled := IsActive(lists[i], now))
    ensures forall i :: 0 <= i < |lists| && !lists[i].scheduled ==> Checked(lists, now)[i] == lists[i]
  {
  }
}
