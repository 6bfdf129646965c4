/** Small definitions shared by every module of the model. */
module Prelude {

  /** A nullable column, a missing dictionary entry, or the absence of a fault. */
  datatype Option<+T> = None | Some(value: T)

  function Min(a: int, b: int): int {
    if a <= b then a else b
  }

  function Max(a: int, b: int): int {
    if a >= b then a else b
  }

  /** The first `n` elements, or all of them when there are fewer (a slice `s[:n]`). */
  function Take<T>(s: seq<T>, n: nat): seq<T> {
    if n <= |s| then s[..n] else s
  }

  ghost predicate NoDuplicates<T>(s: seq<T>) {
    forall i, j :: 0 <= i < j < |s| ==> s[i] != s[j]
  }

  /** The positions of the true values. */
  ghost function TrueAt(flags: seq<bool>): set<int> {
    set i | 0 <= i < |flags| && flags[i]
  }

  lemma TrueAtLast(flags: seq<bool>, last: bool)
    ensures |TrueAt(flags + [last])| == |TrueAt(flags)| + if last then 1 else 0
  {
    assert TrueAt(flags + [last]) == TrueAt(flags) + if last then {|flags|} else {};
  }

  /** The positions of the true values, in order. */
  ghost function TruePositions(flags: seq<bool>): (idx: seq<nat>) {
    if flags == [] then []
    else
      var n := |flags| - 1;
      if flags[n] then TruePositions(flags[..n]) + [n] else TruePositions(flags[..n])
  }

  lemma {:induction false} TruePositionsFacts(flags: seq<bool>)
    ensures forall i :: 0 <= i < |TruePositions(flags)| ==> TruePositions(flags)[i] < |flags| && flags[TruePositions(flags)[i]]
    ensures forall i, j :: 0 <= i < j < |TruePositions(flags)| ==> TruePositions(flags)[i] < TruePositions(flags)[j]
    ensures forall k :: 0 <= k < |flags| && flags[k] ==> k in TruePositions(flags)
  {
    if flags != [] {
      var n := |flags| - 1;
      TruePositionsFacts(flags[..n]);
      forall k | 0 <= k < n && flags[k] ensures k in TruePositions(flags) { assert flags[..n][k]; }
    }
  }

  lemma FlagStep(flags: seq<bool>, i: nat)
    requires i < |flags|
    ensures |TrueAt(flags[..i + 1])| == |TrueAt(flags[..i])| + if flags[i] then 1 else 0
  {
    assert flags[..i + 1] == flags[..i] + [flags[i]];
    TrueAtLast(flags[..i], flags[i]);
  }
}
