/**
 The arithmetic mean the width estimator reports, `sum(xs) / len(xs)`
 (functions.py, get_avg_distances), with the bounds it satisfies.
 */
module Means {

  /** Python's `sum`: a left fold of `+` starting from 0. */
  function Sum(xs: seq<real>): real {
    if xs == [] then 0.0 else Sum(xs[..|xs| - 1]) + xs[|xs| - 1]
  }

  function Min(xs: seq<real>): (r: real)
    requires |xs| > 0
    ensures r in xs
    ensures forall k :: 0 <= k < |xs| ==> r <= xs[k]
  {
    if |xs| == 1 then xs[0]
    else
      var m := Min(xs[..|xs| - 1]);
      if xs[|xs| - 1] < m then xs[|xs| - 1] else m
  }

  function Max(xs: seq<real>): (r: real)
    requires |xs| > 0
    ensures r in xs
    ensures forall k :: 0 <= k < |xs| ==> xs[k] <= r
  {
    if |xs| == 1 then xs[0]
    else
      var m := Max(xs[..|xs| - 1]);
      if xs[|xs| - 1] > m then xs[|xs| - 1] else m
  }

  /** `sum(xs) / len(xs)`; only defined on a non-empty list. */
  function Mean(xs: seq<real>): (r: real)
    requires |xs| > 0
    ensures Min(xs) <= r <= Max(xs)
  {
    MeanBounds(xs);
    Sum(xs) / |xs| as real
  }

  /** The mean lies between the smallest and the largest value. */
  lemma MeanBounds(xs: seq<real>)
    requires |xs| > 0
    ensures Min(xs) <= Sum(xs) / |xs| as real <= Max(xs)
  {
    MeanAtLeast(xs, Min(xs));
    MeanAtMost(xs, Max(xs));
  }

  /** A lower bound on every value bounds the mean: the sum is at least
      |xs| * lo, and dividing by |xs| keeps the bound. */
  lemma {:induction false} MeanAtLeast(xs: seq<real>, lo: real)
    requires |xs| > 0
    requires forall k :: 0 <= k < |xs| ==> lo <= xs[k]
    ensures lo <= Sum(xs) / |xs| as real
  {
    SumAtLeast(xs, lo);
    DivAtLeast(Sum(xs), |xs| as real, lo);
  }

  /** An upper bound on every value bounds the mean, symmetrically. */
  lemma {:induction false} MeanAtMost(xs: seq<real>, hi: real)
    requires |xs| > 0
    requires forall k :: 0 <= k < |xs| ==> xs[k] <= hi
    ensures Sum(xs) / |xs| as real <= hi
  {
    SumAtMost(xs, hi);
    DivAtMost(Sum(xs), |xs| as real, hi);
  }

  lemma {:induction false} SumAtLeast(xs: seq<real>, lo: real)
    requires forall k :: 0 <= k < |xs| ==> lo <= xs[k]
    ensures |xs| as real * lo <= Sum(xs)
  {
    if xs != [] {
      SumAtLeast(xs[..|xs| - 1], lo);
    }
  }

  lemma {:induction false} SumAtMost(xs: seq<real>, hi: real)
    requires forall k :: 0 <= k < |xs| ==> xs[k] <= hi
    ensures Sum(xs) <= |xs| as real * hi
  {
    if xs != [] {
      SumAtMost(xs[..|xs| - 1], hi);
    }
  }

  lemma DivAtLeast(s: real, n: real, lo: real)
    requires n > 0.0 && n * lo <= s
    ensures lo <= s / n
  {
  }

  lemma DivAtMost(s: real, n: real, hi: real)
    requires n > 0.0 && s <= n * hi
    ensures s / n <= hi
  {
  }
}
