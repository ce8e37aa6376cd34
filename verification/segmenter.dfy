/**
 Segmenter: decomposes a (simplified) skeleton into atomic two-point edges,
 in vertex order, concatenated across parts (functions.py, get_segments and
 linestring_to_segments).
 */
module Segmenter {
  import opened Geometry

  /** The two-point edges of one line: edge i joins coordinates i and i + 1.
      A line with fewer than two coordinates has no edges (Python's
      `range(len(coords) - 1)` is then empty). */
  function LineSegments(l: LineString): (r: seq<LineString>)
    ensures |l| >= 1 ==> |r| == |l| - 1
    ensures |l| == 0 ==> r == []
    ensures forall i :: 0 <= i < |r| ==> |r[i]| == 2 && r[i] == [l[i], l[i + 1]]
    decreases |l|
  {
    if |l| < 2 then []
    else [[l[0], l[1]]] + LineSegments(l[1..])
  }

  /** Consecutive edges share exactly the coordinate between them. */
  lemma ConsecutiveSegmentsShareVertex(l: LineString, i: nat)
    requires i + 1 < |LineSegments(l)|
    ensures LineSegments(l)[i][1] == LineSegments(l)[i + 1][0] == l[i + 1]
  {
    var r := LineSegments(l);
    assert r[i] == [l[i], l[i + 1]] && r[i + 1] == [l[i + 1], l[i + 2]];
  }

  /** Chains a sequence of edges back into a line: the first edge's start
      followed by every edge's end. */
  function Chain(segs: seq<LineString>): LineString
    requires forall k :: 0 <= k < |segs| ==> |segs[k]| == 2
  {
    if segs == [] then [] else [segs[0][0]] + Ends(segs)
  }

  function Ends(segs: seq<LineString>): (r: LineString)
    requires forall k :: 0 <= k < |segs| ==> |segs[k]| == 2
    ensures |r| == |segs|
    ensures forall k :: 0 <= k < |segs| ==> r[k] == segs[k][1]
  {
    if segs == [] then [] else [segs[0][1]] + Ends(segs[1..])
  }

  /** Round trip: chaining the edges of a line with at least two coordinates
      gives back the line, so no coordinate is lost, added or reordered. */
  lemma {:induction false} ChainLineSegments(l: LineString)
    requires |l| >= 2
    ensures Chain(LineSegments(l)) == l
  {
    var segs := LineSegments(l);
    var c := Chain(segs);
    forall k | 0 <= k < |l|
      ensures c[k] == l[k]
    {
      if k > 0 {
        assert c[k] == Ends(segs)[k - 1] == segs[k - 1][1];
      }
    }
  }

  /** The edges of every part, concatenated in part order. */
  function PartsSegments(parts: seq<LineString>): (r: seq<LineString>)
    ensures forall k :: 0 <= k < |r| ==> |r[k]| == 2
  {
    if parts == [] then []
    else LineSegments(parts[0]) + PartsSegments(parts[1..])
  }

  /** The number of edges a line yields: one less than its coordinates. */
  function EdgeCount(l: LineString): nat {
    if |l| == 0 then 0 else |l| - 1
  }

  function TotalEdgeCount(parts: seq<LineString>): nat {
    if parts == [] then 0 else EdgeCount(parts[0]) + TotalEdgeCount(parts[1..])
  }

  /** get_segments: a multi-part line yields the edges of each part in part
      order; a single line yields its own edges; any other geometry yields
      no edges (not an error). */
  function Segments(g: LinearGeometry): (r: seq<LineString>)
    ensures g.Multi? ==> |r| == TotalEdgeCount(g.parts)
    ensures g.Single? ==> |r| == EdgeCount(g.line)
    ensures g.Other? ==> r == []
    ensures forall k :: 0 <= k < |r| ==> |r[k]| == 2
  {
    match g
    case Multi(parts) => PartsSegmentsCount(parts); PartsSegments(parts)
    case Single(l) => LineSegments(l)
    case Other => []
  }

  lemma {:induction false} PartsSegmentsCount(parts: seq<LineString>)
    ensures |PartsSegments(parts)| == TotalEdgeCount(parts)
  {
    if parts != [] {
      PartsSegmentsCount(parts[1..]);
    }
  }

  /** Segmenting a multi-part line distributes over splitting its parts:
      the edges of ps + qs are the edges of ps followed by those of qs. */
  lemma {:induction false} SegmentsAppend(ps: seq<LineString>, qs: seq<LineString>)
    ensures Segments(Multi(ps + qs)) == Segments(Multi(ps)) + Segments(Multi(qs))
  {
    if ps == [] {
      assert ps + qs == qs;
    } else {
      assert (ps + qs)[1..] == ps[1..] + qs;
      SegmentsAppend(ps[1..], qs);
    }
  }

  /** A one-part collection segments exactly like the single line. */
  lemma SegmentsSingletonMulti(l: LineString)
    ensures Segments(Multi([l])) == Segments(Single(l))
  {
    assert [l][1..] == [];
    assert PartsSegments([l]) == LineSegments(l) + [];
  }
}
