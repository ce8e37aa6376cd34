/**
 Reconstructor: builds the two output layers from each feature's segments
 and width values (functions.py, ProcessingMethod.explode_to_segments and
 explode_to_segments_), and the per-feature composition of the pipeline
 stages that feeds them (functions.py, processing).
 */
module Reconstructor {
  import opened Geometry
  import opened Segmenter
  import opened Pruner
  import opened Widths

  /** One processed feature: its segments and their width values. */
  datatype Row = Row(segments: seq<LineString>, avgDistances: seq<real>)

  /** An output geometry: a plain segment, or the planar buffer of a segment
      by a radius (kept symbolic; the buffer itself is library geometry). */
  datatype Shape = Line(line: LineString) | Buffer(segment: LineString, radius: real)

  /** One output row: a geometry and its `width` attribute. */
  datatype Record = Record(geometry: Shape, width: real)

  function MinLen(a: nat, b: nat): nat {
    if a <= b then a else b
  }

  /** The number of records `zip(segments, avg_distances)` yields over all
      rows: zip stops at the shorter list. */
  function PairCount(rows: seq<Row>): nat {
    if rows == [] then 0
    else MinLen(|rows[0].segments|, |rows[0].avgDistances|) + PairCount(rows[1..])
  }

  /** The ribbon records of one row: each segment buffered by its width
      value, with twice that value as the width attribute. */
  function RibbonRecords(segs: seq<LineString>, ds: seq<real>): (r: seq<Record>)
    ensures |r| == MinLen(|segs|, |ds|)
    ensures forall k :: 0 <= k < |r| ==>
      r[k].geometry == Buffer(segs[k], ds[k]) && r[k].width == 2.0 * ds[k]
  {
    if segs == [] || ds == [] then []
    else [Record(Buffer(segs[0], ds[0]), ds[0] * 2.0)] + RibbonRecords(segs[1..], ds[1..])
  }

  /** The centerline records of one row: each segment unbuffered, with the
      same doubled width attribute. */
  function CentrelineRecords(segs: seq<LineString>, ds: seq<real>): (r: seq<Record>)
    ensures |r| == MinLen(|segs|, |ds|)
    ensures forall k :: 0 <= k < |r| ==>
      r[k].geometry == Line(segs[k]) && r[k].width == 2.0 * ds[k]
  {
    if segs == [] || ds == [] then []
    else [Record(Line(segs[0]), ds[0] * 2.0)] + CentrelineRecords(segs[1..], ds[1..])
  }

  /** explode_to_segments: the ribbon layer, one record per (segment, width
      value) pair of every row, rows in order. Every record's width
      attribute is twice the radius its geometry was buffered by. */
  function ExplodeToSegments(rows: seq<Row>): (r: seq<Record>)
    ensures |r| == PairCount(rows)
    ensures forall k :: 0 <= k < |r| ==>
      r[k].geometry.Buffer? && r[k].width == 2.0 * r[k].geometry.radius
  {
    if rows == [] then []
    else RibbonRecords(rows[0].segments, rows[0].avgDistances) + ExplodeToSegments(rows[1..])
  }

  /** explode_to_segments_: the centerline layer, one record per (segment,
      width value) pair of every row, with the segment itself as geometry. */
  function ExplodeToCentrelines(rows: seq<Row>): (r: seq<Record>)
    ensures |r| == PairCount(rows)
    ensures forall k :: 0 <= k < |r| ==> r[k].geometry.Line?
  {
    if rows == [] then []
    else CentrelineRecords(rows[0].segments, rows[0].avgDistances) + ExplodeToCentrelines(rows[1..])
  }

  /** The two layers line up record by record: same length, same width
      column, and each ribbon is the buffer of the matching centerline
      segment. */
  lemma {:induction false} LayersAgree(rows: seq<Row>)
    ensures |ExplodeToSegments(rows)| == |ExplodeToCentrelines(rows)|
    ensures forall k :: 0 <= k < |ExplodeToSegments(rows)| ==>
      && ExplodeToSegments(rows)[k].width == ExplodeToCentrelines(rows)[k].width
      && ExplodeToSegments(rows)[k].geometry.segment == ExplodeToCentrelines(rows)[k].geometry.line
  {
    if rows != [] {
      LayersAgree(rows[1..]);
      var a, b := ExplodeToSegments(rows), ExplodeToCentrelines(rows);
      var ra := RibbonRecords(rows[0].segments, rows[0].avgDistances);
      var rb := CentrelineRecords(rows[0].segments, rows[0].avgDistances);
      var ta, tb := ExplodeToSegments(rows[1..]), ExplodeToCentrelines(rows[1..]);
      assert a == ra + ta && b == rb + tb;
      forall k | 0 <= k < |a|
        ensures a[k].width == b[k].width && a[k].geometry.segment == b[k].geometry.line
      {
        if k < |ra| {
          assert a[k] == ra[k] && b[k] == rb[k];
        } else {
          assert a[k] == ta[k - |ra|] && b[k] == tb[k - |rb|];
        }
      }
    }
  }

  /** Exploding a table is exploding its rows in order: the ribbon records
      of rows xs + ys are those of xs followed by those of ys. */
  lemma {:induction false} ExplodeAppend(xs: seq<Row>, ys: seq<Row>)
    ensures ExplodeToSegments(xs + ys) == ExplodeToSegments(xs) + ExplodeToSegments(ys)
  {
    if xs == [] {
      assert xs + ys == ys;
    } else {
      var head := RibbonRecords(xs[0].segments, xs[0].avgDistances);
      var rest, later := ExplodeToSegments(xs[1..]), ExplodeToSegments(ys);
      assert (xs + ys)[0] == xs[0] && (xs + ys)[1..] == xs[1..] + ys;
      ExplodeAppend(xs[1..], ys);
      assert ExplodeToSegments(xs + ys) == head + (rest + later);
      assert ExplodeToSegments(xs) == head + rest;
      SeqAssoc(head, rest, later);
    }
  }

  lemma SeqAssoc<T>(a: seq<T>, b: seq<T>, c: seq<T>)
    ensures a + (b + c) == (a + b) + c
  {
  }

  /** The same for the centerline layer. */
  lemma {:induction false} ExplodeCentrelinesAppend(xs: seq<Row>, ys: seq<Row>)
    ensures ExplodeToCentrelines(xs + ys) == ExplodeToCentrelines(xs) + ExplodeToCentrelines(ys)
  {
    if xs == [] {
      assert xs + ys == ys;
    } else {
      var head := CentrelineRecords(xs[0].segments, xs[0].avgDistances);
      var rest, later := ExplodeToCentrelines(xs[1..]), ExplodeToCentrelines(ys);
      assert (xs + ys)[0] == xs[0] && (xs + ys)[1..] == xs[1..] + ys;
      ExplodeCentrelinesAppend(xs[1..], ys);
      assert ExplodeToCentrelines(xs + ys) == head + (rest + later);
      assert ExplodeToCentrelines(xs) == head + rest;
      SeqAssoc(head, rest, later);
    }
  }

  /** One feature of the input table: its polygon and its (merged)
      skeleton. */
  datatype Feature = Feature(polygon: Polygon, skeleton: LinearGeometry)

  /** The row the pipeline builds for a feature whose centerline is already
      pruned and simplified: get_segments, then get_avg_distances. */
  function FeatureRow(p: Polygon, centerline: LinearGeometry, m: Metric): (r: Row)
    requires m.Valid()
    ensures r.segments == Segments(centerline)
    ensures |r.avgDistances| == |r.segments|
    ensures forall k :: 0 <= k < |r.avgDistances| ==> r.avgDistances[k] >= 0.0
    ensures forall k :: 0 <= k < |r.avgDistances| ==> r.avgDistances[k] == SegmentWidth(p, r.segments[k], m)
  {
    var segs := Segments(centerline);
    Row(segs, AvgDistances(p, segs, m))
  }

  /** The per-feature stages after the skeletonizer: pruning, then
      simplification (a parameter: library geometry), then segmenting and
      width estimation. A skeleton of neither line kind makes
      remove_short_lines return `None`, and `None.simplify` then raises
      AttributeError; None here marks that raised error, which aborts the
      whole run (see ProcessFeatures). */
  function ProcessFeature(f: Feature, simplify: LinearGeometry -> LinearGeometry, m: Metric): (r: Option<Row>)
    requires m.Valid()
    requires f.skeleton.Multi? ==> PartsHaveEndpoints(f.skeleton.parts)
    ensures f.skeleton.Other? <==> r.None?
    ensures r.Some? ==> |r.value.avgDistances| == |r.value.segments|
    ensures f.skeleton.Single? ==> r == Some(FeatureRow(f.polygon, simplify(f.skeleton), m))
    ensures f.skeleton.Multi? ==>
      r == Some(FeatureRow(f.polygon, simplify(Multi(Survivors(f.skeleton.parts, 0, m))), m))
  {
    match RemoveShortLines(f.skeleton, m)
    case None => None
    case Some(pruned) => Some(FeatureRow(f.polygon, simplify(pruned), m))
  }

  /** processing, up to the two layers: every stage is applied to the
      whole table in turn, so a single feature whose skeleton is of neither
      line kind raises AttributeError at the simplification stage and the
      run yields no rows at all (None). Otherwise there is one row per
      feature, in feature order, each the row ProcessFeature builds. */
  function ProcessFeatures(fs: seq<Feature>, simplify: LinearGeometry -> LinearGeometry, m: Metric): (r: Option<seq<Row>>)
    requires m.Valid()
    requires forall i :: 0 <= i < |fs| && fs[i].skeleton.Multi? ==> PartsHaveEndpoints(fs[i].skeleton.parts)
    ensures r.None? <==> exists i :: 0 <= i < |fs| && fs[i].skeleton.Other?
    ensures r.Some? ==> |r.value| == |fs|
    ensures r.Some? ==> forall i :: 0 <= i < |fs| ==> ProcessFeature(fs[i], simplify, m) == Some(r.value[i])
  {
    var results := FeatureResults(fs, simplify, m);
    assert forall i :: 0 <= i < |fs| ==> (results[i].None? <==> fs[i].skeleton.Other?);
    AllSome(results)
  }

  /** The outcome of the per-feature stages for every feature, in order. */
  function FeatureResults(fs: seq<Feature>, simplify: LinearGeometry -> LinearGeometry, m: Metric): (r: seq<Option<Row>>)
    requires m.Valid()
    requires forall i :: 0 <= i < |fs| && fs[i].skeleton.Multi? ==> PartsHaveEndpoints(fs[i].skeleton.parts)
    ensures |r| == |fs|
    ensures forall i :: 0 <= i < |fs| ==> r[i] == ProcessFeature(fs[i], simplify, m)
  {
    seq(|fs|, i requires 0 <= i < |fs| => ProcessFeature(fs[i], simplify, m))
  }

  /** The values of a list of results when every one succeeded, else None:
      the first failure ends the run. */
  function AllSome<T>(xs: seq<Option<T>>): (r: Option<seq<T>>)
    ensures r.None? <==> exists i :: 0 <= i < |xs| && xs[i].None?
    ensures r.Some? ==> |r.value| == |xs| && forall i :: 0 <= i < |xs| ==> xs[i] == Some(r.value[i])
  {
    if xs == [] then Some([])
    else
      match (xs[0], AllSome(xs[1..]))
      case (Some(v), Some(rest)) => Some([v] + rest)
      case _ => None
  }

  /** The rows of features whose centerlines are final, in feature order. */
  function Rows(ps: seq<Polygon>, centerlines: seq<LinearGeometry>, m: Metric): (r: seq<Row>)
    requires m.Valid() && |ps| == |centerlines|
    ensures |r| == |ps|
    ensures forall k :: 0 <= k < |r| ==>
      r[k].segments == Segments(centerlines[k]) && |r[k].avgDistances| == |r[k].segments|
    ensures forall k, j :: 0 <= k < |r| && 0 <= j < |r[k].avgDistances| ==> r[k].avgDistances[j] >= 0.0
    ensures forall k, j :: 0 <= k < |r| && 0 <= j < |r[k].avgDistances| ==>
      r[k].avgDistances[j] == SegmentWidth(ps[k], r[k].segments[j], m)
  {
    seq(|ps|, k requires 0 <= k < |ps| => FeatureRow(ps[k], centerlines[k], m))
  }

  function TotalSegments(centerlines: seq<LinearGeometry>): nat {
    if centerlines == [] then 0 else |Segments(centerlines[0])| + TotalSegments(centerlines[1..])
  }

  /** From final centerlines: once every segment has its width value, each layer holds
      exactly one record per segment of every feature, and every width
      attribute is non-negative. */
  lemma {:induction false} OneRecordPerSegment(ps: seq<Polygon>, centerlines: seq<LinearGeometry>, m: Metric)
    requires m.Valid() && |ps| == |centerlines|
    ensures |ExplodeToSegments(Rows(ps, centerlines, m))| == TotalSegments(centerlines)
    ensures |ExplodeToCentrelines(Rows(ps, centerlines, m))| == TotalSegments(centerlines)
    ensures forall k :: 0 <= k < |ExplodeToSegments(Rows(ps, centerlines, m))| ==>
      ExplodeToSegments(Rows(ps, centerlines, m))[k].width >= 0.0
  {
    var rows := Rows(ps, centerlines, m);
    MatchedRowsPairEverySegment(rows, centerlines);
    NonNegativeWidths(rows);
  }

  /** When every row holds the segments of its centerline and one width
      value per segment, zip drops nothing: the rows yield one pair per
      segment of every centerline. */
  lemma {:induction false} MatchedRowsPairEverySegment(rows: seq<Row>, centerlines: seq<LinearGeometry>)
    requires |rows| == |centerlines|
    requires forall k :: 0 <= k < |rows| ==>
      rows[k].segments == Segments(centerlines[k]) && |rows[k].avgDistances| == |rows[k].segments|
    ensures PairCount(rows) == TotalSegments(centerlines)
  {
    if rows != [] {
      MatchedRowsPairEverySegment(rows[1..], centerlines[1..]);
    }
  }

  /** The number of segments over all rows. */
  function RowSegments(rows: seq<Row>): nat {
    if rows == [] then 0 else |rows[0].segments| + RowSegments(rows[1..])
  }

  /** When every row has one width value per segment, zip drops nothing. */
  lemma {:induction false} MatchedRowsPairAll(rows: seq<Row>)
    requires forall k :: 0 <= k < |rows| ==> |rows[k].avgDistances| == |rows[k].segments|
    ensures PairCount(rows) == RowSegments(rows)
  {
    if rows != [] {
      MatchedRowsPairAll(rows[1..]);
    }
  }

  /** End to end, from the features: when the run succeeds, each layer holds
      exactly one record per segment of every processed feature, and every
      width attribute is non-negative. */
  lemma ProcessedLayers(fs: seq<Feature>, simplify: LinearGeometry -> LinearGeometry, m: Metric)
    requires m.Valid()
    requires forall i :: 0 <= i < |fs| && fs[i].skeleton.Multi? ==> PartsHaveEndpoints(fs[i].skeleton.parts)
    ensures ProcessFeatures(fs, simplify, m).Some? ==>
      var rows := ProcessFeatures(fs, simplify, m).value;
      && |ExplodeToSegments(rows)| == RowSegments(rows)
      && |ExplodeToCentrelines(rows)| == RowSegments(rows)
      && forall k :: 0 <= k < |ExplodeToSegments(rows)| ==> ExplodeToSegments(rows)[k].width >= 0.0
  {
    var r := ProcessFeatures(fs, simplify, m);
    if r.Some? {
      var rows := r.value;
      forall i | 0 <= i < |rows|
        ensures |rows[i].avgDistances| == |rows[i].segments|
        ensures forall k :: 0 <= k < |rows[i].avgDistances| ==> rows[i].avgDistances[k] >= 0.0
      {
        assert ProcessFeature(fs[i], simplify, m) == Some(rows[i]);
      }
      MatchedRowsPairAll(rows);
      NonNegativeWidths(rows);
    }
  }

  /** Rows whose width values are non-negative explode to non-negative
      width attributes. */
  lemma {:induction false} NonNegativeWidths(rows: seq<Row>)
    requires forall i, k :: 0 <= i < |rows| && 0 <= k < |rows[i].avgDistances| ==>
      rows[i].avgDistances[k] >= 0.0
    ensures forall k :: 0 <= k < |ExplodeToSegments(rows)| ==> ExplodeToSegments(rows)[k].width >= 0.0
  {
    if rows != [] {
      NonNegativeWidths(rows[1..]);
      var head := RibbonRecords(rows[0].segments, rows[0].avgDistances);
      var tail := ExplodeToSegments(rows[1..]);
      var all: seq<Record> := head + tail;
      assert all == ExplodeToSegments(rows);
      forall k | 0 <= k < |all|
        ensures all[k].width >= 0.0
      {
        if k < |head| {
          assert all[k] == head[k] && head[k].width == 2.0 * rows[0].avgDistances[k];
        } else {
          assert all[k] == tail[k - |head|];
        }
      }
    }
  }
}
