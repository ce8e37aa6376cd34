/**
 Pruner: removes short dead-end spurs from a multi-part skeleton
 (functions.py, ProcessingMethod.remove_short_lines).

 A part is a dead end when its start point or its end point touches none of
 the OTHER parts; a dead end survives only if it is longer than the
 threshold. The parts that survive keep their relative order.
 */
module Pruner {
  import opened Geometry

  /** Dead ends of this length or shorter are removed. */
  const SpurThreshold: real := 5.0

  /** Every part has a first and a last coordinate to test. */
  ghost predicate PartsHaveEndpoints(parts: seq<LineString>) {
    forall k :: 0 <= k < |parts| ==> |parts[k]| > 0
  }

  /** All parts except the one at index i, in their original order. */
  function Others(parts: seq<LineString>, i: nat): (r: seq<LineString>)
    requires i < |parts|
    ensures |r| == |parts| - 1
    ensures forall j :: 0 <= j < i ==> r[j] == parts[j]
    ensures forall j :: i < j < |parts| ==> r[j - 1] == parts[j]
  {
    parts[..i] + parts[i + 1..]
  }

  /** Part i dangles at its start or at its end (or at both). */
  predicate IsDeadEnd(parts: seq<LineString>, i: nat, m: Metric)
    requires i < |parts| && |parts[i]| > 0
  {
    m.disjoint(Start(parts[i]), Others(parts, i))
    || m.disjoint(End(parts[i]), Others(parts, i))
  }

  /** The survival rule for part i. */
  predicate Keeps(parts: seq<LineString>, i: nat, m: Metric)
    requires i < |parts| && |parts[i]| > 0
  {
    !IsDeadEnd(parts, i, m) || m.length(parts[i]) > SpurThreshold
  }

  /** The survival verdict of every part, in part order. */
  function KeepFlags(parts: seq<LineString>, m: Metric): (r: seq<bool>)
    requires PartsHaveEndpoints(parts)
    ensures |r| == |parts|
    ensures forall i :: 0 <= i < |parts| ==> r[i] == Keeps(parts, i, m)
  {
    seq(|parts|, i requires 0 <= i < |parts| => |parts[i]| > 0 && Keeps(parts, i, m))
  }

  /** The ascending positions, from `from` on, at which flags holds. */
  function TrueIndices(flags: seq<bool>, from: nat): (r: seq<nat>)
    requires from <= |flags|
    ensures forall k :: 0 <= k < |r| ==> from <= r[k] < |flags|
    ensures forall k, k' :: 0 <= k < k' < |r| ==> r[k] < r[k']
    ensures forall i :: from <= i < |flags| ==> (i in r <==> flags[i])
    decreases |flags| - from
  {
    if from == |flags| then []
    else if flags[from] then [from] + TrueIndices(flags, from + 1)
    else TrueIndices(flags, from + 1)
  }

  /** The elements of xs, from `from` on, whose flag holds, in order. */
  function Select<T>(xs: seq<T>, flags: seq<bool>, from: nat): (r: seq<T>)
    requires |flags| == |xs| && from <= |xs|
    ensures |r| == |TrueIndices(flags, from)|
    ensures forall k :: 0 <= k < |r| ==> r[k] == xs[TrueIndices(flags, from)[k]]
    decreases |xs| - from
  {
    if from == |xs| then []
    else
      var rest := Select(xs, flags, from + 1);
      ghost var later := TrueIndices(flags, from + 1);
      if flags[from] then
        assert TrueIndices(flags, from) == [from] + later;
        [xs[from]] + rest
      else
        assert TrueIndices(flags, from) == later;
        rest
  }

  /** The ascending indices, from `from` on, of the parts that survive. */
  function KeptIndices(parts: seq<LineString>, from: nat, m: Metric): (r: seq<nat>)
    requires from <= |parts|
    requires PartsHaveEndpoints(parts)
    ensures forall k :: 0 <= k < |r| ==> from <= r[k] < |parts|
    ensures forall k, k' :: 0 <= k < k' < |r| ==> r[k] < r[k']
    ensures forall i :: from <= i < |parts| ==> (i in r <==> Keeps(parts, i, m))
  {
    TrueIndices(KeepFlags(parts, m), from)
  }

  /** The surviving parts from index `from` on, in their original order. */
  function Survivors(parts: seq<LineString>, from: nat, m: Metric): (r: seq<LineString>)
    requires from <= |parts|
    requires PartsHaveEndpoints(parts)
    ensures |r| == |KeptIndices(parts, from, m)|
    ensures forall k :: 0 <= k < |r| ==> r[k] == parts[KeptIndices(parts, from, m)[k]]
  {
    Select(parts, KeepFlags(parts, m), from)
  }

  /** remove_short_lines. A multi-part line becomes the multi-part line of
      its survivors: exactly the parts that are not dead ends or are longer
      than the threshold, in their original order. A single line is
      returned unchanged, never pruned. Any other geometry kind yields
      Python's `None`. */
  function RemoveShortLines(g: LinearGeometry, m: Metric): (r: Option<LinearGeometry>)
    requires g.Multi? ==> PartsHaveEndpoints(g.parts)
    ensures g.Single? ==> r == Some(g)
    ensures g.Other? ==> r == None
    ensures g.Multi? ==> r.Some? && r.value.Multi?
    ensures g.Multi? ==>
      var kept := KeptIndices(g.parts, 0, m);
      && |r.value.parts| == |kept|
      && (forall k :: 0 <= k < |kept| ==> r.value.parts[k] == g.parts[kept[k]])
      && (forall k, k' :: 0 <= k < k' < |kept| ==> kept[k] < kept[k'])
      && (forall i :: 0 <= i < |g.parts| ==>
            (i in kept <==> !IsDeadEnd(g.parts, i, m) || m.length(g.parts[i]) > SpurThreshold))
  {
    match g
    case Multi(parts) => Some(Multi(Survivors(parts, 0, m)))
    case Single(_) => Some(g)
    case Other => None
  }

  /** Pruning threshold law: a dead-end part is kept exactly when it is
      longer than the threshold, whether it dangles at one end or at both;
      a part connected at both ends is always kept. */
  lemma PruningThreshold(parts: seq<LineString>, i: nat, m: Metric)
    requires PartsHaveEndpoints(parts) && i < |parts|
    ensures IsDeadEnd(parts, i, m) ==>
      (i in KeptIndices(parts, 0, m) <==> m.length(parts[i]) > SpurThreshold)
    ensures !IsDeadEnd(parts, i, m) ==> i in KeptIndices(parts, 0, m)
    ensures m.disjoint(Start(parts[i]), Others(parts, i))
            && m.disjoint(End(parts[i]), Others(parts, i)) ==>
      (i in KeptIndices(parts, 0, m) <==> m.length(parts[i]) > SpurThreshold)
  {
  }

  /** A multi-part line with a single part is not passed through like a
      single line: the other parts form an empty collection, so the part is
      a dead end and survives only if it is longer than the threshold. */
  lemma LonePartJudgedOnLength(l: LineString, m: Metric)
    requires m.Valid() && |l| > 0
    ensures RemoveShortLines(Multi([l]), m)
            == Some(Multi(if m.length(l) > SpurThreshold then [l] else []))
  {
    assert Others([l], 0) == [];
    assert IsDeadEnd([l], 0, m);
    var r := RemoveShortLines(Multi([l]), m).value.parts;
    if m.length(l) > SpurThreshold {
      assert 0 in KeptIndices([l], 0, m);
      assert r == [l];
    } else {
      assert 0 !in KeptIndices([l], 0, m);
      assert r == [];
    }
  }

  /** xs is an order-preserving subsequence of ys. */
  predicate IsSubsequence<T(==)>(xs: seq<T>, ys: seq<T>)
    decreases |ys|
  {
    if xs == [] then true
    else if ys == [] then false
    else (xs[0] == ys[0] && IsSubsequence(xs[1..], ys[1..])) || IsSubsequence(xs, ys[1..])
  }

  /** Selecting never adds, duplicates or reorders elements: the selected
      elements from `from` on form a subsequence of xs from `from` on. */
  lemma {:induction false} SelectSubsequence<T>(xs: seq<T>, flags: seq<bool>, from: nat)
    requires |flags| == |xs| && from <= |xs|
    ensures IsSubsequence(Select(xs, flags, from), xs[from..])
    decreases |xs| - from
  {
    if from < |xs| {
      SelectSubsequence(xs, flags, from + 1);
      assert xs[from..][1..] == xs[from + 1..];
      if flags[from] {
        assert ([xs[from]] + Select(xs, flags, from + 1))[1..] == Select(xs, flags, from + 1);
      }
    }
  }

  /** Pruning never adds, duplicates or reorders parts: the survivors from
      `from` on form a subsequence of the parts from `from` on. */
  lemma SurvivorsSubsequence(parts: seq<LineString>, from: nat, m: Metric)
    requires from <= |parts|
    requires PartsHaveEndpoints(parts)
    ensures IsSubsequence(Survivors(parts, from, m), parts[from..])
  {
    SelectSubsequence(parts, KeepFlags(parts, m), from);
  }

  /** The pruned multi-part line is an order-preserving subsequence of the
      input's parts. */
  lemma RemoveShortLinesSubsequence(parts: seq<LineString>, m: Metric)
    requires PartsHaveEndpoints(parts)
    ensures IsSubsequence(RemoveShortLines(Multi(parts), m).value.parts, parts)
  {
    SurvivorsSubsequence(parts, 0, m);
    assert parts[0..] == parts;
  }

  /** Pruning only ever removes parts. */
  lemma RemoveShortLinesShrinks(parts: seq<LineString>, m: Metric)
    requires PartsHaveEndpoints(parts)
    ensures |RemoveShortLines(Multi(parts), m).value.parts| <= |parts|
  {
    var kept := KeptIndices(parts, 0, m);
    DistinctBounded(kept, |parts|);
  }

  lemma {:induction false} DistinctBounded(xs: seq<nat>, n: nat)
    requires forall k :: 0 <= k < |xs| ==> xs[k] < n
    requires forall k, k' :: 0 <= k < k' < |xs| ==> xs[k] < xs[k']
    ensures |xs| <= n
  {
    if xs != [] {
      var last := xs[|xs| - 1];
      DistinctBounded(xs[..|xs| - 1], last);
    }
  }
}
