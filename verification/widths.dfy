/**
 Width estimator: one width value per segment, the mean distance from the
 segment's sample points to the polygon boundary (functions.py,
 get_avg_distances and polygon_to_multilinestring).
 */
module Widths {
  import opened Geometry
  import opened Sampler
  import opened Means

  /** polygon_to_multilinestring: the exterior ring followed by every
      interior ring, as one multi-part line. */
  function BoundaryOf(p: Polygon): (r: LinearGeometry)
    ensures r.Multi? && |r.parts| == 1 + |p.interiors|
    ensures forall l :: l in r.parts <==> l == p.exterior || l in p.interiors
    ensures r.parts[0] == p.exterior && r.parts[1..] == p.interiors
  {
    Multi([p.exterior] + p.interiors)
  }

  /** The distance from every sample to the boundary, in sample order. */
  function SampleDistances(boundary: seq<LineString>, samples: seq<Sample>, m: Metric): (r: seq<real>)
    requires m.Valid()
    ensures |r| == |samples|
    ensures forall k :: 0 <= k < |r| ==>
      r[k] == m.boundaryDistance(boundary, m.pointAt(samples[k].line, samples[k].offset))
    ensures forall k :: 0 <= k < |r| ==> r[k] >= 0.0
  {
    if samples == [] then []
    else
      [m.boundaryDistance(boundary, m.pointAt(samples[0].line, samples[0].offset))]
      + SampleDistances(boundary, samples[1..], m)
  }

  /** The samples of one segment: `interpolate(segment)` on a single line. */
  function SegmentSamples(seg: LineString, m: Metric): (r: seq<Sample>)
    requires m.Valid()
    ensures |r| >= 1
  {
    Interpolate(Single(seg), m).value
  }

  /** The width value of one segment: the mean boundary distance of its
      samples. The sample list is never empty, so the division is always
      defined, even for a zero-length segment. */
  function SegmentWidth(p: Polygon, seg: LineString, m: Metric): (r: real)
    requires m.Valid()
    ensures var ds := SampleDistances(BoundaryOf(p).parts, SegmentSamples(seg, m), m);
      |ds| >= 1 && Min(ds) <= r <= Max(ds)
    ensures r >= 0.0
  {
    var ds := SampleDistances(BoundaryOf(p).parts, SegmentSamples(seg, m), m);
    Mean(ds)
  }

  /** A segment short enough for a single sample is measured at its
      midpoint: its width is that one point's boundary distance. */
  lemma ShortSegmentUsesMidpoint(p: Polygon, seg: LineString, m: Metric)
    requires m.Valid()
    requires SampleCount(m.length(seg), DefaultStep) == 1
    ensures SegmentSamples(seg, m) == [Sample(seg, m.length(seg) / 2.0)]
    ensures SegmentWidth(p, seg, m)
            == m.boundaryDistance(BoundaryOf(p).parts, m.pointAt(seg, m.length(seg) / 2.0))
  {
  }

  /** Segments shorter than half a step, zero-length ones included, take
      exactly one sample. */
  lemma ShortSegmentHasOneSample(seg: LineString, m: Metric)
    requires m.Valid()
    requires m.length(seg) < DefaultStep / 2.0
    ensures SampleCount(m.length(seg), DefaultStep) == 1
    ensures |SegmentSamples(seg, m)| == 1
  {
  }

  /** get_avg_distances: exactly one width value per segment, in segment
      order, each non-negative. */
  function AvgDistances(p: Polygon, segs: seq<LineString>, m: Metric): (r: seq<real>)
    requires m.Valid()
    ensures |r| == |segs|
    ensures forall k :: 0 <= k < |r| ==> r[k] == SegmentWidth(p, segs[k], m) && r[k] >= 0.0
  {
    MapEach(segs, seg => SegmentWidth(p, seg, m))
  }

  /** f applied to every element, in order. */
  function MapEach<T, U>(xs: seq<T>, f: T -> U): (r: seq<U>)
    ensures |r| == |xs|
    ensures forall k :: 0 <= k < |xs| ==> r[k] == f(xs[k])
  {
    if xs == [] then [] else [f(xs[0])] + MapEach(xs[1..], f)
  }
}
