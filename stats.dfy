/**
 * The column statistics the aggregator uses: dropping missing values, the
 * arithmetic mean and the sample (n-1) variance, over exact reals.
 */
module Statistics {
  import opened Types

  /** `series.dropna()`: the present values, in order. */
  function Defined(xs: seq<Option<real>>): seq<real>
  {
    if xs == [] then []
    else
      var last := xs[|xs| - 1];
      Defined(xs[..|xs| - 1]) + (if last.Some? then [last.value] else [])
  }

  function Sum(xs: seq<real>): real
  {
    if xs == [] then 0.0 else Sum(xs[..|xs| - 1]) + xs[|xs| - 1]
  }

  function Mean(xs: seq<real>): real
    requires |xs| > 0
  {
    Sum(xs) / (|xs| as real)
  }

  /** The sum of squared deviations from `m`. */
  function SquaredDeviations(xs: seq<real>, m: real): real
  {
    if xs == [] then 0.0
    else SquaredDeviations(xs[..|xs| - 1], m) + (xs[|xs| - 1] - m) * (xs[|xs| - 1] - m)
  }

  /** `std(ddof=1)` squared: the sample variance, defined for two or more values. */
  function SampleVariance(xs: seq<real>): real
    requires |xs| > 1
  {
    SquaredDeviations(xs, Mean(xs)) / ((|xs| - 1) as real)
  }

  /** `float(s.mean()) if len(s) else None`. */
  function MeanOf(xs: seq<real>): Option<real>
  {
    if |xs| > 0 then Some(Mean(xs)) else None
  }

  lemma {:induction false} DefinedEmpty(xs: seq<Option<real>>)
    ensures |Defined(xs)| == 0 <==> forall k :: 0 <= k < |xs| ==> xs[k].None?
  {
    if xs != [] {
      DefinedEmpty(xs[..|xs| - 1]);
      assert forall k :: 0 <= k < |xs| - 1 ==> xs[..|xs| - 1][k] == xs[k];
    }
  }

  /** Two present values at distinct positions. */
  predicate TwoDefined(xs: seq<Option<real>>)
  {
    exists i, j :: 0 <= i < j < |xs| && xs[i].Some? && xs[j].Some?
  }

  lemma {:induction false} DefinedAtMostOne(xs: seq<Option<real>>)
    ensures |Defined(xs)| <= 1 <==> !TwoDefined(xs)
  {
    if xs != [] {
      var n := |xs| - 1;
      var front := xs[..n];
      DefinedAtMostOne(front);
      DefinedEmpty(front);
      TwoDefinedStep(xs);
    }
  }

  /** Two present values in `xs` are two in its front, or one in its front and the last. */
  lemma TwoDefinedStep(xs: seq<Option<real>>)
    requires xs != []
    ensures var n := |xs| - 1;
            TwoDefined(xs) <==>
              TwoDefined(xs[..n]) || (xs[n].Some? && exists i :: 0 <= i < n && xs[..n][i].Some?)
  {
    var n := |xs| - 1;
    var front := xs[..n];
    assert forall k :: 0 <= k < n ==> front[k] == xs[k];
    if TwoDefined(xs) {
      var i, j :| 0 <= i < j < |xs| && xs[i].Some? && xs[j].Some?;
      if j < n {
        assert front[i].Some? && front[j].Some?;
      } else {
        assert front[i].Some?;
      }
    }
    if TwoDefined(front) {
      var i, j :| 0 <= i < j < n && front[i].Some? && front[j].Some?;
      assert xs[i].Some? && xs[j].Some?;
    }
    if xs[n].Some? && exists i :: 0 <= i < n && front[i].Some? {
      var i :| 0 <= i < n && front[i].Some?;
      assert xs[i].Some? && xs[n].Some?;
    }
  }

  lemma {:induction false} SumBounds(xs: seq<real>, lo: real, hi: real)
    requires forall k :: 0 <= k < |xs| ==> lo <= xs[k] <= hi
    ensures (|xs| as real) * lo <= Sum(xs) <= (|xs| as real) * hi
  {
    if xs != [] {
      var n := |xs| - 1;
      assert forall k :: 0 <= k < n ==> xs[..n][k] == xs[k];
      SumBounds(xs[..n], lo, hi);
      assert Sum(xs) == Sum(xs[..n]) + xs[n];
      assert (|xs| as real) * lo == (n as real) * lo + lo;
      assert (|xs| as real) * hi == (n as real) * hi + hi;
    }
  }

  /** The mean lies between any lower and upper bound of the values. */
  lemma MeanBounds(xs: seq<real>, lo: real, hi: real)
    requires |xs| > 0
    requires forall k :: 0 <= k < |xs| ==> lo <= xs[k] <= hi
    ensures lo <= Mean(xs) <= hi
  {
    SumBounds(xs, lo, hi);
    var n := |xs| as real;
    assert n * lo <= Sum(xs) <= n * hi;
    assert Sum(xs) / n >= (n * lo) / n;
    assert Sum(xs) / n <= (n * hi) / n;
  }

  lemma {:induction false} SquaredDeviationsNonNegative(xs: seq<real>, m: real)
    ensures SquaredDeviations(xs, m) >= 0.0
  {
    if xs != [] {
      SquaredDeviationsNonNegative(xs[..|xs| - 1], m);
      var d := xs[|xs| - 1] - m;
      assert d * d >= 0.0;
    }
  }

  /** The sample variance is never negative, so its square root is a real number. */
  lemma SampleVarianceNonNegative(xs: seq<real>)
    requires |xs| > 1
    ensures SampleVariance(xs) >= 0.0
  {
    SquaredDeviationsNonNegative(xs, Mean(xs));
  }
}
