/**
 The abstract linear geometry the centerline pipeline works on.

 A skeleton is either one line, a collection of line parts, or some other
 geometry kind (empty, a point, a collection of mixed kinds). Real Euclidean
 geometry (lengths, distances, buffers, disjointness) is not computed here:
 the operations that need it receive a `Metric`, a bundle of the geometric
 primitives the program borrows from its geometry library, constrained only
 by the sign facts the pipeline relies on.
 */
module Geometry {

  /** The conventional Some/None datatype; `None` stands for Python's `None`
      result or for a raised error (ZeroDivisionError, AttributeError), as
      each use documents. */
  datatype Option<+T> = None | Some(value: T)

  /** A coordinate pair. */
  datatype Point = Point(x: real, y: real)

  /** A line is its sequence of coordinates, in vertex order. */
  type LineString = seq<Point>

  /** The tagged variant replacing the program's run-time geometry type test. */
  datatype LinearGeometry =
    | Single(line: LineString)
    | Multi(parts: seq<LineString>)
    | Other

  /** A polygon: one exterior ring and any number of interior rings (holes). */
  datatype Polygon = Polygon(exterior: LineString, interiors: seq<LineString>)

  /** The geometric primitives of the geometry library, as parameters.
      - length(l): the length of line l;
      - pointAt(l, t): the point at offset t along l;
      - boundaryDistance(b, p): the shortest distance from p to the lines b;
      - disjoint(p, ls): whether p touches none of the lines ls. */
  datatype Metric = Metric(
    length: LineString -> real,
    pointAt: (LineString, real) -> Point,
    boundaryDistance: (seq<LineString>, Point) -> real,
    disjoint: (Point, seq<LineString>) -> bool)
  {
    /** The only facts the pipeline assumes of the primitives: lengths and
        distances are never negative, and every point is disjoint from the
        empty collection of lines. */
    ghost predicate Valid() {
      && (forall l :: length(l) >= 0.0)
      && (forall b, p :: boundaryDistance(b, p) >= 0.0)
      && (forall p :: disjoint(p, []))
    }
  }

  /** First and last coordinate of a non-empty line. */
  function Start(l: LineString): Point
    requires |l| > 0
  {
    l[0]
  }

  function End(l: LineString): Point
    requires |l| > 0
  {
    l[|l| - 1]
  }
}
