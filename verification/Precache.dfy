/** The per-pair TTL cache of the warming jobs (admin-ui/app/services/precache.py). Times and TTLs
    are in seconds. */
module Precache {
  import opened Prelude

  datatype Pair = Pair(qname: string, qtype: int)

  datatype Entry = Entry(ttl: int, lastWarmed: real)

  type Cache = map<Pair, Entry>

  /** A successful warm, as recorded: which pair, which TTL, when. */
  datatype Warm = Warm(pair: Pair, ttl: int, at: real)

  function Record(c: Cache, w: Warm): Cache {
    c[w.pair := Entry(if w.pair in c then Min(c[w.pair].ttl, w.ttl) else w.ttl, w.at)]
  }

  function RecordAll(c: Cache, warms: seq<Warm>): Cache {
    if warms == [] then c else Record(RecordAll(c, warms[..|warms| - 1]), warms[|warms| - 1])
  }

  /** Refresh at ttl - max(ttl * 0.2, 30), or after a fixed interval. */
  function Threshold(ttl: int, ignoreTtl: bool, customMinutes: int): real {
    if ignoreTtl then (customMinutes * 60) as real else ttl as real - Margin(ttl)
  }

  function Margin(ttl: int): real {
    if ttl as real * 0.2 >= 30.0 then ttl as real * 0.2 else 30.0
  }

  predicate NeedsRefresh(c: Cache, p: Pair, ignoreTtl: bool, customMinutes: int, now: real) {
    p !in c || now - c[p].lastWarmed >= Threshold(c[p].ttl, ignoreTtl, customMinutes)
  }

  function Due(c: Cache, pairs: seq<Pair>, ignoreTtl: bool, customMinutes: int, now: real): seq<Pair> {
    if pairs == [] then []
    else
      var n := |pairs| - 1;
      Due(c, pairs[..n], ignoreTtl, customMinutes, now)
      + (if NeedsRefresh(c, pairs[n], ignoreTtl, customMinutes, now) then [pairs[n]] else [])
  }

  // ------------------------------------------------------------------ histories of warms

  /** The cached TTL is the least ever observed for the pair, one of the observed values, and the
      time is that of the latest observation. */
  lemma {:induction false} CacheIsMinimum(warms: seq<Warm>, p: Pair)
    ensures p in RecordAll(map[], warms) <==> exists i :: 0 <= i < |warms| && warms[i].pair == p
    ensures p in RecordAll(map[], warms) ==>
              var e := RecordAll(map[], warms)[p];
              && (forall i :: 0 <= i < |warms| && warms[i].pair == p ==> e.ttl <= warms[i].ttl)
              && (exists i :: 0 <= i < |warms| && warms[i].pair == p && warms[i].ttl == e.ttl)
              && (exists i :: 0 <= i < |warms| && warms[i].pair == p && warms[i].at == e.lastWarmed
                    && forall j :: i < j < |warms| ==> warms[j].pair != p)
  {
    if warms != [] {
      var n := |warms| - 1;
      var u, w := warms[..n], warms[n];
      CacheIsMinimum(u, p);
      var c := RecordAll(map[], u);
      assert forall i :: 0 <= i < n ==> u[i] == warms[i];
      if w.pair == p {
        assert warms[n].pair == p;
        if p in c && c[p].ttl <= w.ttl {
          var i :| 0 <= i < |u| && u[i].pair == p && u[i].ttl == c[p].ttl;
          assert warms[i].pair == p && warms[i].ttl == c[p].ttl;
        }
      } else if p in c {
        var i :| 0 <= i < |u| && u[i].pair == p && u[i].ttl == c[p].ttl;
        assert warms[i].pair == p && warms[i].ttl == c[p].ttl;
        var k :| 0 <= k < |u| && u[k].pair == p && u[k].at == c[p].lastWarmed && forall j :: k < j < |u| ==> u[j].pair != p;
        assert warms[k].pair == p && warms[k].at == c[p].lastWarmed && forall j :: k < j < |warms| ==> warms[j].pair != p;
      }
    }
  }

  /** After any history, a pair the TTL-aware filter skips still has more than
      max(20% of its least TTL, 30 s) left of every TTL it was ever answered with. */
  lemma SkippedIsFresh(warms: seq<Warm>, p: Pair, now: real, i: nat)
    requires !NeedsRefresh(RecordAll(map[], warms), p, false, 0, now)
    requires i < |warms| && warms[i].pair == p
    ensures var e := RecordAll(map[], warms)[p];
            warms[i].ttl as real - (now - e.lastWarmed) > Margin(e.ttl)
  {
    CacheIsMinimum(warms, p);
  }

  ghost predicate Least(warms: seq<Warm>, p: Pair, i: int) {
    0 <= i < |warms| && warms[i].pair == p && forall k :: 0 <= k < |warms| && warms[k].pair == p ==> warms[i].ttl <= warms[k].ttl
  }

  ghost predicate Latest(warms: seq<Warm>, p: Pair, j: int) {
    0 <= j < |warms| && warms[j].pair == p && forall k :: j < k < |warms| ==> warms[k].pair != p
  }

  lemma CachedIs(warms: seq<Warm>, p: Pair, i: int, j: int)
    requires Least(warms, p, i) && Latest(warms, p, j)
    ensures p in RecordAll(map[], warms) && RecordAll(map[], warms)[p] == Entry(warms[i].ttl, warms[j].at)
  {
    CacheIsMinimum(warms, p);
  }

  /** The TTL-aware filter skips a pair exactly when more than 30 s and more than 20% are left of the
      least TTL it was ever answered with, counted from its latest warm. */
  lemma SkippedIffFresh(warms: seq<Warm>, p: Pair, now: real, i: int, j: int)
    requires Least(warms, p, i) && Latest(warms, p, j)
    ensures var left := warms[i].ttl as real - (now - warms[j].at);
            !NeedsRefresh(RecordAll(map[], warms), p, false, 0, now) <==> left > 30.0 && left > warms[i].ttl as real * 0.2
  {
    CachedIs(warms, p, i, j);
  }

  /** With the fixed interval it skips a pair exactly until the interval has passed. */
  lemma SkippedIffWithin(warms: seq<Warm>, p: Pair, minutes: int, now: real, i: int, j: int)
    requires Least(warms, p, i) && Latest(warms, p, j)
    ensures !NeedsRefresh(RecordAll(map[], warms), p, true, minutes, now) <==> now - warms[j].at < (60 * minutes) as real
  {
    CachedIs(warms, p, i, j);
  }

  /** A pair never warmed is due in either mode. */
  lemma NewPairIsDue(warms: seq<Warm>, p: Pair, ignoreTtl: bool, minutes: int, now: real)
    requires forall k :: 0 <= k < |warms| ==> warms[k].pair != p
    ensures NeedsRefresh(RecordAll(map[], warms), p, ignoreTtl, minutes, now)
  {
    CacheIsMinimum(warms, p);
  }

  // ------------------------------------------------------------------ rank order

  /** Strictly increasing positions in the ranking. */
  ghost predicate Positions(idx: seq<nat>, n: nat) {
    && (forall i :: 0 <= i < |idx| ==> idx[i] < n)
    && forall i, j :: 0 <= i < j < |idx| ==> idx[i] < idx[j]
  }

  /** The pairs at those positions, in that order. */
  ghost predicate At(selected: seq<Pair>, ranked: seq<Pair>, idx: seq<nat>) {
    Positions(idx, |ranked|) && |selected| == |idx| && forall i :: 0 <= i < |idx| ==> selected[i] == ranked[idx[i]]
  }

  /** Which pairs of the ranking are due. */
  ghost function Flags(c: Cache, ranked: seq<Pair>, ignoreTtl: bool, minutes: int, now: real): (need: seq<bool>)
    ensures |need| == |ranked|
  {
    seq(|ranked|, i requires 0 <= i < |ranked| => NeedsRefresh(c, ranked[i], ignoreTtl, minutes, now))
  }

  /** All the flagged pairs, in rank order. */
  ghost predicate AllInOrder(needs: seq<Pair>, ranked: seq<Pair>, need: seq<bool>)
    requires |need| == |ranked|
  {
    exists idx :: At(needs, ranked, idx) && Flagged(idx, need)
  }

  ghost predicate Flagged(idx: seq<nat>, need: seq<bool>) {
    forall k :: 0 <= k < |need| ==> (k in idx <==> need[k])
  }

  /** The first flagged pairs of the ranking, no more than `limit`: one is left out only when the limit
      is reached, and then it ranks behind all that are in. */
  ghost predicate FirstInOrder(warmed: seq<Pair>, ranked: seq<Pair>, need: seq<bool>, limit: nat)
    requires |need| == |ranked|
  {
    |warmed| <= limit && exists idx :: At(warmed, ranked, idx) && IsFirst(idx, need, limit)
  }

  ghost predicate IsFirst(idx: seq<nat>, need: seq<bool>, limit: nat) {
    forall k :: 0 <= k < |need| ==>
      && (k in idx ==> need[k])
      && (need[k] && k !in idx ==> |idx| == limit && forall i :: 0 <= i < |idx| ==> idx[i] < k)
  }

  lemma ExtendAt(selected: seq<Pair>, pairs: seq<Pair>, idx: seq<nat>)
    requires pairs != [] && At(selected, pairs[..|pairs| - 1], idx)
    ensures At(selected, pairs, idx) && At(selected + [pairs[|pairs| - 1]], pairs, idx + [|pairs| - 1])
  {
  }

  lemma ExtendFlagged(needs: seq<Pair>, ranked: seq<Pair>, need: seq<bool>)
    requires ranked != [] && |need| == |ranked|
    requires AllInOrder(needs, ranked[..|ranked| - 1], need[..|ranked| - 1])
    ensures AllInOrder(if need[|ranked| - 1] then needs + [ranked[|ranked| - 1]] else needs, ranked, need)
  {
    var n := |ranked| - 1;
    var before: seq<nat> :| At(needs, ranked[..n], before) && Flagged(before, need[..n]);
    var idx: seq<nat> := if need[n] then before + [n] else before;
    assert At(if need[n] then needs + [ranked[n]] else needs, ranked, idx) by { ExtendAt(needs, ranked, before); }
    assert Flagged(idx, need) by { FlagLast(before, need, n); }
  }

  lemma FlagLast(before: seq<nat>, need: seq<bool>, n: nat)
    requires |need| == n + 1 && Flagged(before, need[..n]) && forall i :: 0 <= i < |before| ==> before[i] < n
    ensures Flagged(if need[n] then before + [n] else before, need)
  {
    assert n !in before;
    assert forall k :: 0 <= k < n ==> need[..n][k] == need[k];
  }

  ghost function Pick(pairs: seq<Pair>, need: seq<bool>): seq<Pair>
    requires |need| == |pairs|
  {
    if pairs == [] then []
    else
      var n := |pairs| - 1;
      if need[n] then Pick(pairs[..n], need[..n]) + [pairs[n]] else Pick(pairs[..n], need[..n])
  }

  lemma {:induction false} PickInOrder(pairs: seq<Pair>, need: seq<bool>)
    requires |need| == |pairs|
    ensures AllInOrder(Pick(pairs, need), pairs, need)
  {
    if pairs == [] {
      assert At([], pairs, []) && Flagged([], need);
    } else {
      var n := |pairs| - 1;
      PickInOrder(pairs[..n], need[..n]);
      ExtendFlagged(Pick(pairs[..n], need[..n]), pairs, need);
    }
  }

  lemma {:induction false} DueIsPick(c: Cache, pairs: seq<Pair>, ignoreTtl: bool, minutes: int, now: real)
    ensures Due(c, pairs, ignoreTtl, minutes, now) == Pick(pairs, Flags(c, pairs, ignoreTtl, minutes, now))
  {
    if pairs != [] {
      var n := |pairs| - 1;
      DueIsPick(c, pairs[..n], ignoreTtl, minutes, now);
      assert Flags(c, pairs[..n], ignoreTtl, minutes, now) == Flags(c, pairs, ignoreTtl, minutes, now)[..n];
    }
  }

  /** The filter keeps rank order and drops exactly the fresh pairs. */
  lemma DueIsRankedSelection(c: Cache, pairs: seq<Pair>, ignoreTtl: bool, minutes: int, now: real)
    ensures AllInOrder(Due(c, pairs, ignoreTtl, minutes, now), pairs, Flags(c, pairs, ignoreTtl, minutes, now))
  {
    DueIsPick(c, pairs, ignoreTtl, minutes, now);
    PickInOrder(pairs, Flags(c, pairs, ignoreTtl, minutes, now));
  }

  lemma {:induction false} DueAtMost(c: Cache, pairs: seq<Pair>, ignoreTtl: bool, minutes: int, now: real)
    ensures |Due(c, pairs, ignoreTtl, minutes, now)| <= |pairs|
  {
    if pairs != [] { DueAtMost(c, pairs[..|pairs| - 1], ignoreTtl, minutes, now); }
  }

  /** Cutting the list off keeps the best ranked. */
  lemma TakeIsFirst(needs: seq<Pair>, ranked: seq<Pair>, need: seq<bool>, limit: nat)
    requires |need| == |ranked| && AllInOrder(needs, ranked, need)
    ensures FirstInOrder(Take(needs, limit), ranked, need, limit)
  {
    var idx: seq<nat> :| At(needs, ranked, idx) && Flagged(idx, need);
    var first: seq<nat> := Take(idx, limit);
    assert At(Take(needs, limit), ranked, first);
    FirstFlagged(idx, need, limit);
  }

  lemma FirstFlagged(idx: seq<nat>, need: seq<bool>, limit: nat)
    requires Positions(idx, |need|) && Flagged(idx, need)
    ensures IsFirst(Take(idx, limit), need, limit)
  {
    var first: seq<nat> := Take(idx, limit);
    forall k | 0 <= k < |need|
      ensures k in first ==> need[k]
      ensures need[k] && k !in first ==> |first| == limit && forall i :: 0 <= i < |first| ==> first[i] < k
    {
      if k in first { assert k in idx; }
      if need[k] && k !in first { LeftOut(idx, limit, k); }
    }
  }

  lemma LeftOut(idx: seq<nat>, limit: nat, k: nat)
    requires (forall i, j :: 0 <= i < j < |idx| ==> idx[i] < idx[j]) && k in idx && k !in Take(idx, limit)
    ensures |Take(idx, limit)| == limit && forall i :: 0 <= i < limit ==> Take(idx, limit)[i] < k
  {
    var j :| 0 <= j < |idx| && idx[j] == k;
    assert forall i :: 0 <= i < |Take(idx, limit)| ==> Take(idx, limit)[i] == idx[i];
  }

  // ------------------------------------------------------------------ the module's state

  class PairTtlCache {
    var cache: Cache

    constructor ()
      ensures cache == map[]
    {
      cache := map[];
    }

    method RecordWarmedPair(p: Pair, ttl: int, now: real)
      modifies this
      ensures cache == Record(old(cache), Warm(p, ttl, now))
    {
      if p !in cache {
        cache := cache[p := Entry(ttl, now)];
      } else {
        var e := cache[p];
        cache := cache[p := Entry(Min(e.ttl, ttl), now)];
      }
    }

    method GetPairsNeedingRefresh(pairs: seq<Pair>, ignoreTtl: bool, customMinutes: int, now: real)
      returns (needs: seq<Pair>)
      ensures needs == Due(cache, pairs, ignoreTtl, customMinutes, now)
      ensures AllInOrder(needs, pairs, Flags(cache, pairs, ignoreTtl, customMinutes, now))
    {
      needs := [];
      for i := 0 to |pairs|
        invariant needs == Due(cache, pairs[..i], ignoreTtl, customMinutes, now)
      {
        var p := pairs[i];
        assert pairs[..i + 1][..i] == pairs[..i];
        if p !in cache {
          needs := needs + [p];
        } else {
          var threshold := Threshold(cache[p].ttl, ignoreTtl, customMinutes);
          if now - cache[p].lastWarmed >= threshold {
            needs := needs + [p];
          }
        }
      }
      assert pairs[..|pairs|] == pairs;
      DueIsRankedSelection(cache, pairs, ignoreTtl, customMinutes, now);
    }

    /** One periodic pass: warms the first `maxQueries` due pairs in rank order. `answers[i]` is the
        TTL the i-th query brought back, if any, and `at[i]` the time it was recorded. */
    method WarmingPass(ranked: seq<Pair>, ignoreTtl: bool, customMinutes: int, now: real, maxQueries: nat,
                       answers: seq<Option<int>>, at: seq<real>)
      returns (warmed: seq<Pair>, success: nat, failed: nat)
      requires |answers| >= |ranked| && |at| >= |ranked|
      modifies this
      ensures FirstInOrder(warmed, ranked, Flags(old(cache), ranked, ignoreTtl, customMinutes, now), maxQueries)
      ensures success + failed == |warmed|
      ensures |warmed| <= |answers| && |warmed| <= |at|
      ensures cache == RecordAll(old(cache), Successes(warmed, answers, at))
      ensures success == |Successes(warmed, answers, at)|
    {
      var due := GetPairsNeedingRefresh(ranked, ignoreTtl, customMinutes, now);
      warmed := Take(due, maxQueries);
      TakeIsFirst(due, ranked, Flags(cache, ranked, ignoreTtl, customMinutes, now), maxQueries);
      DueAtMost(cache, ranked, ignoreTtl, customMinutes, now);
      success, failed := WarmCache(warmed, answers, at);
    }

    /** warm_cache: every pair is queried once, and the answers are recorded. */
    method WarmCache(pairs: seq<Pair>, answers: seq<Option<int>>, at: seq<real>) returns (success: nat, failed: nat)
      requires |answers| >= |pairs| && |at| >= |pairs|
      modifies this
      ensures success + failed == |pairs|
      ensures cache == RecordAll(old(cache), Successes(pairs, answers, at))
      ensures success == |Successes(pairs, answers, at)|
    {
      success, failed := 0, 0;
      for i := 0 to |pairs|
        invariant success + failed == i
        invariant cache == RecordAll(old(cache), Successes(pairs[..i], answers, at))
        invariant success == |Successes(pairs[..i], answers, at)|
      {
        assert pairs[..i + 1][..i] == pairs[..i];
        ghost var before := Successes(pairs[..i], answers, at);
        if answers[i].Some? {
          success := success + 1;
          RecordWarmedPair(pairs[i], answers[i].value, at[i]);
          assert (before + [Warm(pairs[i], answers[i].value, at[i])])[..|before|] == before;
        } else {
          failed := failed + 1;
          assert before + [] == before;
        }
      }
      assert pairs[..|pairs|] == pairs;
    }
  }

  function Successes(pairs: seq<Pair>, answers: seq<Option<int>>, at: seq<real>): seq<Warm>
    requires |pairs| <= |answers| && |pairs| <= |at|
  {
    if pairs == [] then []
    else
      var n := |pairs| - 1;
      Successes(pairs[..n], answers, at)
      + (if answers[n].Some? then [Warm(pairs[n], answers[n].value, at[n])] else [])
  }

  /** One record for each answered pair, with its TTL and time, and no other. */
  lemma {:induction false} SuccessMember(pairs: seq<Pair>, answers: seq<Option<int>>, at: seq<real>, w: Warm)
    requires |pairs| <= |answers| && |pairs| <= |at|
    ensures w in Successes(pairs, answers, at) <==>
              exists i :: 0 <= i < |pairs| && answers[i] == Some(w.ttl) && pairs[i] == w.pair && at[i] == w.at
  {
    if pairs != [] {
      var n := |pairs| - 1;
      SuccessMember(pairs[..n], answers, at, w);
      assert forall i :: 0 <= i < n ==> pairs[..n][i] == pairs[i];
    }
  }

  // ------------------------------------------------------------------ the TTL of one response

  datatype Authority = Soa(ttl: int, minimum: int) | Other

  /** The least answer TTL; for an answer without records, the negative TTL of section 5 of
      RFC 2308, the lesser of the SOA's own TTL and its MINIMUM field. */
  method MinResponseTtl(answer: seq<int>, authority: seq<Authority>) returns (ttl: Option<int>)
    ensures answer != [] ==> ttl.Some? && ttl.value in answer && forall t :: t in answer ==> ttl.value <= t
    ensures answer == [] ==> (ttl.Some? <==> exists i :: 0 <= i < |authority| && authority[i].Soa?)
    ensures answer == [] && ttl.Some? ==>
              && (forall i :: 0 <= i < |authority| && authority[i].Soa? ==> ttl.value <= Min(authority[i].ttl, authority[i].minimum))
              && (exists i :: 0 <= i < |authority| && authority[i].Soa? && ttl.value == Min(authority[i].ttl, authority[i].minimum))
  {
    var ttls := answer;
    if |ttls| == 0 {
      for i := 0 to |authority|
        invariant forall t :: t in ttls <==> exists j :: 0 <= j < i && authority[j].Soa? && t == Min(authority[j].ttl, authority[j].minimum)
      {
        if authority[i].Soa? {
          ttls := ttls + [Min(authority[i].ttl, authority[i].minimum)];
        }
      }
      forall i | 0 <= i < |authority| && authority[i].Soa? ensures Min(authority[i].ttl, authority[i].minimum) in ttls {}
    }
    if |ttls| == 0 {
      return None;
    }
    var least := ttls[0];
    for i := 0 to |ttls|
      invariant least in ttls
      invariant forall j :: 0 <= j < i ==> least <= ttls[j]
    {
      least := Min(least, ttls[i]);
    }
    assert least in ttls;
    ttl := Some(least);
  }
}
