/**
 Sampler: the offsets along a line at which the width estimator measures
 (functions.py, ProcessingMethod.interpolate_by_distance and interpolate).

 The sample count is Python's `round(length / distance) + 1`, where `round`
 rounds halves to the even neighbour. A count of one means the line is
 short and its midpoint is used; otherwise the samples sit at multiples of
 the step distance.
 */
module Sampler {
  import opened Geometry

  function Abs(x: real): real {
    if x < 0.0 then -x else x
  }

  predicate IsEven(n: int) {
    n % 2 == 0
  }

  /** Python 3's built-in `round` on one argument: the nearest integer, and
      of two equally near integers the even one. */
  function RoundHalfEven(x: real): (r: int)
    ensures Abs(x - r as real) <= 0.5
    ensures Abs(x - r as real) == 0.5 ==> IsEven(r)
  {
    var f := x.Floor;
    var frac := x - f as real;
    if frac < 0.5 then f
    else if frac > 0.5 then f + 1
    else if IsEven(f) then f else f + 1
  }

  /** Nearest-integer characterisation: no integer is closer to x than
      RoundHalfEven(x), and any integer as close as it is either it or
      loses the tie to it by being odd. */
  lemma RoundHalfEvenIsNearest(x: real, n: int)
    ensures Abs(x - RoundHalfEven(x) as real) <= Abs(x - n as real)
    ensures Abs(x - n as real) == Abs(x - RoundHalfEven(x) as real) && n != RoundHalfEven(x)
            ==> !IsEven(n) && Abs(x - n as real) == 0.5
  {
  }

  /** Uniqueness: an integer strictly within one half of x, or exactly one
      half away and even, is RoundHalfEven(x). */
  lemma RoundHalfEvenUnique(x: real, n: int)
    ensures Abs(x - n as real) < 0.5 || (Abs(x - n as real) == 0.5 && IsEven(n))
            ==> RoundHalfEven(x) == n
  {
  }

  /** The step distance the program always samples with (the default
      argument). */
  const DefaultStep: real := 1.0

  /** `round(length / distance) + 1`; the caller guarantees a non-zero step. */
  function SampleCount(length: real, distance: real): int
    requires distance != 0.0
  {
    RoundHalfEven(length / distance) + 1
  }

  /** Ties round to even, so lengths 0.5 and 2.5 at the default step take
      one and three samples, while 1.5 takes three. */
  lemma TiesRoundToEven()
    ensures SampleCount(0.5, DefaultStep) == 1
    ensures SampleCount(1.5, DefaultStep) == 3
    ensures SampleCount(2.5, DefaultStep) == 3
  {
  }

  /** interpolate_by_distance, on offsets: the offsets along the line at
      which points are taken. A zero step raises ZeroDivisionError in the
      program, modelled as None. A count of one gives the midpoint offset;
      otherwise the offsets are `distance * i` for i in `range(count)`,
      which is empty when the count is not positive. */
  function SampleOffsets(length: real, distance: real): (r: Option<seq<real>>)
    ensures distance == 0.0 <==> r.None?
    ensures distance != 0.0 && SampleCount(length, distance) == 1 ==> r == Some([length / 2.0])
    ensures distance != 0.0 && SampleCount(length, distance) != 1 ==>
      && r.Some?
      && |r.value| == (if SampleCount(length, distance) < 0 then 0 else SampleCount(length, distance))
      && (forall i :: 0 <= i < |r.value| ==> r.value[i] == distance * i as real)
  {
    if distance == 0.0 then None
    else
      var count := SampleCount(length, distance);
      if count == 1 then Some([length / 2.0])
      else Some(Multiples(distance, if count < 0 then 0 else count))
  }

  /** [0, d, 2d, ..., (n - 1) d], i.e. `[d * i for i in range(n)]`. */
  function Multiples(d: real, n: nat): (r: seq<real>)
    ensures |r| == n
    ensures forall i :: 0 <= i < n ==> r[i] == d * i as real
  {
    if n == 0 then [] else Multiples(d, n - 1) + [d * (n - 1) as real]
  }

  /** With a positive step and a non-negative length there is always at
      least one sample; with two or more they start at 0, strictly
      increase, and the last lies within half a step of the line's end. */
  lemma SampleOffsetsShape(length: real, distance: real)
    requires length >= 0.0 && distance > 0.0
    ensures SampleOffsets(length, distance).Some?
    ensures |SampleOffsets(length, distance).value| >= 1
    ensures var offs := SampleOffsets(length, distance).value;
      |offs| >= 2 ==>
        && offs[0] == 0.0
        && (forall i, j :: 0 <= i < j < |offs| ==> offs[i] < offs[j])
        && Abs(offs[|offs| - 1] - length) <= distance / 2.0
  {
    var count := SampleCountPositive(length, distance);
    if count != 1 {
      assert SampleOffsets(length, distance) == Some(Multiples(distance, count));
      MultiplesIncrease(distance, count);
      LastMultipleNearLength(length, distance);
    }
  }

  /** Multiples of a positive step strictly increase. */
  lemma {:induction false} MultiplesIncrease(d: real, n: nat)
    requires d > 0.0
    ensures forall i, j :: 0 <= i < j < n ==> Multiples(d, n)[i] < Multiples(d, n)[j]
  {
    if n > 0 {
      MultiplesIncrease(d, n - 1);
      var prev := Multiples(d, n - 1);
      var last := d * (n - 1) as real;
      var offs := Multiples(d, n);
      assert offs == prev + [last];
      forall i, j | 0 <= i < j < n
        ensures offs[i] < offs[j]
      {
        if j < n - 1 {
          assert offs[i] == prev[i] && offs[j] == prev[j];
        } else {
          LastMultipleIsLargest(d, n - 1, i);
          assert offs[i] == prev[i] && offs[j] == last;
        }
      }
    }
  }

  /** Every earlier multiple lies below the multiple d * k. */
  lemma LastMultipleIsLargest(d: real, k: nat, i: nat)
    requires d > 0.0 && i < k
    ensures Multiples(d, k)[i] < d * k as real
  {
    MulStrictMono(d, i as real, k as real);
  }

  /** A positive step over a non-negative length samples at least once. */
  lemma SampleCountPositive(length: real, distance: real) returns (count: int)
    requires length >= 0.0 && distance > 0.0
    ensures count == SampleCount(length, distance) && count >= 1
  {
    DivNonneg(length, distance);
    count := SampleCount(length, distance);
  }

  /** The last multiple, distance * round(length / distance), is within half
      a step of the length. */
  lemma LastMultipleNearLength(length: real, distance: real)
    requires distance > 0.0
    ensures Abs(distance * RoundHalfEven(length / distance) as real - length) <= distance / 2.0
  {
    var q := length / distance;
    var k := RoundHalfEven(q) as real;
    assert distance * q == length;
    ScaleHalf(q, k, distance);
    assert Abs(distance * k - distance * q) <= distance / 2.0;
  }

  lemma DivNonneg(a: real, b: real)
    requires a >= 0.0 && b > 0.0
    ensures a / b >= 0.0
  {
  }

  lemma MulStrictMono(d: real, a: real, b: real)
    requires d > 0.0 && a < b
    ensures d * a < d * b
  {
  }

  lemma MulNonneg(a: real, b: real)
    requires a >= 0.0 && b >= 0.0
    ensures a * b >= 0.0
  {
  }

  lemma ScaleHalf(q: real, k: real, d: real)
    requires d > 0.0 && Abs(q - k) <= 0.5
    ensures Abs(d * k - d * q) <= d / 2.0
  {
    var e := k - q;
    assert d * k - d * q == d * e;
    if e >= 0.0 {
      MulNonneg(d, 0.5 - e);
      assert d * (0.5 - e) == d * 0.5 - d * e;
    } else {
      MulNonneg(d, 0.5 + e);
      assert d * (0.5 + e) == d * 0.5 + d * e;
    }
  }

  /** A sample point, denoted by the line and the offset along it; the
      program evaluates it with the geometry library's interpolation. */
  datatype Sample = Sample(line: LineString, offset: real)

  function AlongLine(l: LineString, offs: seq<real>): (r: seq<Sample>)
    ensures |r| == |offs|
    ensures forall i :: 0 <= i < |r| ==> r[i] == Sample(l, offs[i])
  {
    if offs == [] then [] else [Sample(l, offs[0])] + AlongLine(l, offs[1..])
  }

  /** The samples of one line at the default step: never empty when the
      line's length is non-negative. */
  function SampleLine(l: LineString, m: Metric): (r: seq<Sample>)
    requires m.Valid()
    ensures |r| >= 1
    ensures forall i :: 0 <= i < |r| ==> r[i].line == l
  {
    SampleOffsetsShape(m.length(l), DefaultStep);
    AlongLine(l, SampleOffsets(m.length(l), DefaultStep).value)
  }

  function SampleParts(parts: seq<LineString>, m: Metric): (r: seq<Sample>)
    requires m.Valid()
    ensures |r| >= |parts|
  {
    if parts == [] then [] else SampleLine(parts[0], m) + SampleParts(parts[1..], m)
  }

  /** The samples of a multi-part line are those of its parts, each part's
      samples together and in part order. */
  lemma {:induction false} SamplePartsAppend(ps: seq<LineString>, qs: seq<LineString>, m: Metric)
    requires m.Valid()
    ensures SampleParts(ps + qs, m) == SampleParts(ps, m) + SampleParts(qs, m)
  {
    if ps == [] {
      assert ps + qs == qs;
    } else {
      assert (ps + qs)[1..] == ps[1..] + qs;
      SamplePartsAppend(ps[1..], qs, m);
    }
  }

  lemma SamplePartsSingleton(l: LineString, m: Metric)
    requires m.Valid()
    ensures SampleParts([l], m) == SampleLine(l, m)
  {
  }

  /** interpolate: a multi-part line yields the samples of every part in
      part order, a single line its own samples; any other geometry kind
      yields Python's `None`. */
  function Interpolate(g: LinearGeometry, m: Metric): (r: Option<seq<Sample>>)
    requires m.Valid()
    ensures g.Other? <==> r.None?
    ensures g.Single? ==> r == Some(SampleLine(g.line, m)) && |r.value| >= 1
    ensures g.Multi? ==> r == Some(SampleParts(g.parts, m)) && |r.value| >= |g.parts|
  {
    match g
    case Multi(parts) => Some(SampleParts(parts, m))
    case Single(l) => Some(SampleLine(l, m))
    case Other => None
  }
}
