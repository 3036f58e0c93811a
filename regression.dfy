/**
 * Single-variable ordinary least squares over exact reals: the regression that the
 * estimator runs three times (baseline, support line, resistance line).
 */
module Regression {
  import opened Outcome
  import opened Stats

  /** A fitted line: `predict(x) = intercept + slope * x`. */
  datatype Line = Line(slope: real, intercept: real)

  function Predict(l: Line, x: real): real
  {
    l.intercept + l.slope * x
  }

  /** Sum of squared deviations of the regressor from its mean. */
  function Spread(xs: seq<real>): real
    requires |xs| > 0
  {
    Dot(xs, xs) - Mean(xs) * Sum(xs)
  }

  /** Sum of co-deviations of regressor and response from their means. */
  function Covariation(xs: seq<real>, ys: seq<real>): real
    requires |xs| == |ys| > 0
  {
    Dot(xs, ys) - Mean(xs) * Sum(ys)
  }

  /**
   * Least-squares fit of `ys` against `xs`. An empty sample is rejected. When every
   * x is the same the slope is not determined; the fit then takes slope 0 and the
   * mean response as intercept, the minimum-norm least-squares solution.
   */
  function Fit(xs: seq<real>, ys: seq<real>): (r: Result<Line, Error>)
    requires |xs| == |ys|
    ensures r.Err? <==> |xs| == 0
    ensures r.Err? ==> r.error == NoSamples
    ensures r.Ok? ==> Predict(r.value, Mean(xs)) == Mean(ys)
  {
    if |xs| == 0 then Err(NoSamples)
    else
      var spread := Spread(xs);
      var slope := if spread == 0.0 then 0.0 else Covariation(xs, ys) / spread;
      Ok(Line(slope, Mean(ys) - slope * Mean(xs)))
  }

  /** A single sample is fitted by the level line through it: no spread, so slope 0. */
  lemma FitSinglePoint(x: real, y: real)
    ensures Fit([x], [y]) == Ok(Line(0.0, y))
  {
    SumSingle([x]);
    SumSingle([y]);
    SumSingle(Products([x], [x]));
    assert Spread([x]) == 0.0;
  }

  /** The predictions of a line at every regressor value. */
  function Predictions(xs: seq<real>, l: Line): (r: seq<real>)
    ensures |r| == |xs|
  {
    seq(|xs|, i requires 0 <= i < |xs| => Predict(l, xs[i]))
  }

  /** The residuals `y - l(x)` of a line over a sample. */
  function Residuals(xs: seq<real>, ys: seq<real>, l: Line): (r: seq<real>)
    requires |xs| == |ys|
    ensures |r| == |xs|
  {
    Sub(ys, Predictions(xs, l))
  }

  /** The differences between the predictions of two lines over a sample. */
  function Gaps(xs: seq<real>, l1: Line, l2: Line): (r: seq<real>)
    ensures |r| == |xs|
  {
    Sub(Predictions(xs, l1), Predictions(xs, l2))
  }

  function ResidualSum(xs: seq<real>, ys: seq<real>, l: Line): real
    requires |xs| == |ys|
  {
    Sum(Residuals(xs, ys, l))
  }

  /** Residuals weighted by the regressor. */
  function ResidualMoment(xs: seq<real>, ys: seq<real>, l: Line): real
    requires |xs| == |ys|
  {
    Dot(xs, Residuals(xs, ys, l))
  }

  /** Sum of squared residuals: the quantity least squares minimises. */
  function SquaredError(xs: seq<real>, ys: seq<real>, l: Line): real
    requires |xs| == |ys|
  {
    var r := Residuals(xs, ys, l);
    Dot(r, r)
  }

  /** Sum of squared differences between the predictions of two lines. */
  function SquaredGap(xs: seq<real>, l1: Line, l2: Line): real
  {
    var g := Gaps(xs, l1, l2);
    Dot(g, g)
  }

  // Each closed form below is proved in two steps: an identity between sequences,
  // checked one sample point at a time, and then the linearity of `Sum`.

  /** A line's predictions are its intercept plus its slope times each regressor value. */
  lemma PredictionsSplit(xs: seq<real>, l: Line)
    ensures Predictions(xs, l) == Add(Constant(|xs|, l.intercept), Scale(l.slope, xs))
  {
    var p, q := Predictions(xs, l), Add(Constant(|xs|, l.intercept), Scale(l.slope, xs));
    forall i | 0 <= i < |xs|
      ensures p[i] == q[i]
    {
    }
  }

  /** The residual sum of a line, in terms of the sample's plain sums. */
  lemma ResidualSumClosed(xs: seq<real>, ys: seq<real>, l: Line)
    requires |xs| == |ys|
    ensures ResidualSum(xs, ys, l) == Sum(ys) - |xs| as real * l.intercept - l.slope * Sum(xs)
  {
    PredictionsSplit(xs, l);
    SumSub(ys, Predictions(xs, l));
    SumAdd(Constant(|xs|, l.intercept), Scale(l.slope, xs));
    SumConstant(|xs|, l.intercept);
    SumScale(l.slope, xs);
  }

  lemma MomentTerms(xs: seq<real>, ys: seq<real>, l: Line)
    requires |xs| == |ys|
    ensures Products(xs, Residuals(xs, ys, l))
         == Sub(Products(xs, ys), Add(Scale(l.intercept, xs), Scale(l.slope, Products(xs, xs))))
  {
    var r := Residuals(xs, ys, l);
    var p := Products(xs, r);
    var q := Sub(Products(xs, ys), Add(Scale(l.intercept, xs), Scale(l.slope, Products(xs, xs))));
    forall i | 0 <= i < |xs|
      ensures p[i] == q[i]
    {
      MomentTerm(xs[i], ys[i], r[i], l.intercept, l.slope);
    }
  }

  lemma MomentTerm(x: real, y: real, r: real, a: real, b: real)
    requires r == y - (a + b * x)
    ensures x * r == x * y - (a * x + b * (x * x))
  {}

  /** The residual moment of a line, in terms of the sample's plain sums. */
  lemma ResidualMomentClosed(xs: seq<real>, ys: seq<real>, l: Line)
    requires |xs| == |ys|
    ensures ResidualMoment(xs, ys, l) == Dot(xs, ys) - l.intercept * Sum(xs) - l.slope * Dot(xs, xs)
  {
    MomentTerms(xs, ys, l);
    var a, b := Scale(l.intercept, xs), Scale(l.slope, Products(xs, xs));
    SumSub(Products(xs, ys), Add(a, b));
    SumAdd(a, b);
    SumScale(l.intercept, xs);
    SumScale(l.slope, Products(xs, xs));
  }

  lemma SquareTerms(u: seq<real>, g: seq<real>)
    requires |u| == |g|
    ensures Products(Sub(u, g), Sub(u, g))
         == Add(Sub(Products(u, u), Scale(2.0, Products(u, g))), Products(g, g))
  {
    var d := Sub(u, g);
    var p := Products(d, d);
    var q := Add(Sub(Products(u, u), Scale(2.0, Products(u, g))), Products(g, g));
    forall i | 0 <= i < |u|
      ensures p[i] == q[i]
    {
      SquareTerm(u[i], g[i], d[i]);
    }
  }

  lemma SquareTerm(u: real, g: real, d: real)
    requires d == u - g
    ensures d * d == u * u - 2.0 * (u * g) + g * g
  {}

  /** The square of a difference, summed over a sample. */
  lemma SquareExpansion(u: seq<real>, g: seq<real>)
    requires |u| == |g|
    ensures Dot(Sub(u, g), Sub(u, g)) == Dot(u, u) - 2.0 * Dot(u, g) + Dot(g, g)
  {
    SquareTerms(u, g);
    var p := Sub(Products(u, u), Scale(2.0, Products(u, g)));
    SumAdd(p, Products(g, g));
    SumSub(Products(u, u), Scale(2.0, Products(u, g)));
    SumScale(2.0, Products(u, g));
  }

  /** Moving from one line to another moves every residual by the gap between them. */
  lemma ResidualsShift(xs: seq<real>, ys: seq<real>, l1: Line, l2: Line)
    requires |xs| == |ys|
    ensures Residuals(xs, ys, l2) == Sub(Residuals(xs, ys, l1), Gaps(xs, l2, l1))
  {
  }

  lemma CrossTerms(xs: seq<real>, ys: seq<real>, l1: Line, l2: Line)
    requires |xs| == |ys|
    ensures var r := Residuals(xs, ys, l1);
      Products(r, Gaps(xs, l2, l1))
        == Add(Scale(l2.intercept - l1.intercept, r), Scale(l2.slope - l1.slope, Products(xs, r)))
  {
    var r, g := Residuals(xs, ys, l1), Gaps(xs, l2, l1);
    var p := Products(r, g);
    var q := Add(Scale(l2.intercept - l1.intercept, r), Scale(l2.slope - l1.slope, Products(xs, r)));
    forall i | 0 <= i < |xs|
      ensures p[i] == q[i]
    {
      CrossTerm(xs[i], r[i], g[i], l1, l2);
    }
  }

  lemma CrossTerm(x: real, r: real, g: real, l1: Line, l2: Line)
    requires g == Predict(l2, x) - Predict(l1, x)
    ensures r * g == (l2.intercept - l1.intercept) * r + (l2.slope - l1.slope) * (x * r)
  {}

  /**
   * The residuals of one line against the gaps to another: a combination of the
   * first line's residual sum and residual moment.
   */
  lemma CrossClosed(xs: seq<real>, ys: seq<real>, l1: Line, l2: Line)
    requires |xs| == |ys|
    ensures Dot(Residuals(xs, ys, l1), Gaps(xs, l2, l1))
         == (l2.intercept - l1.intercept) * ResidualSum(xs, ys, l1)
          + (l2.slope - l1.slope) * ResidualMoment(xs, ys, l1)
  {
    var r := Residuals(xs, ys, l1);
    CrossTerms(xs, ys, l1, l2);
    SumAdd(Scale(l2.intercept - l1.intercept, r), Scale(l2.slope - l1.slope, Products(xs, r)));
    SumScale(l2.intercept - l1.intercept, r);
    SumScale(l2.slope - l1.slope, Products(xs, r));
  }

  /**
   * The squared error of any line is that of a reference line, minus twice the cross
   * term, plus the squared gap between the two lines.
   */
  lemma SquaredErrorShift(xs: seq<real>, ys: seq<real>, l1: Line, l2: Line)
    requires |xs| == |ys|
    ensures SquaredError(xs, ys, l2)
         == SquaredError(xs, ys, l1)
          - 2.0 * ((l2.intercept - l1.intercept) * ResidualSum(xs, ys, l1)
                 + (l2.slope - l1.slope) * ResidualMoment(xs, ys, l1))
          + SquaredGap(xs, l2, l1)
  {
    ResidualsShift(xs, ys, l1, l2);
    SquareExpansion(Residuals(xs, ys, l1), Gaps(xs, l2, l1));
    CrossClosed(xs, ys, l1, l2);
  }

  /** Each term of a sum of squares is non-negative. */
  lemma SquaresNonnegative(s: seq<real>)
    ensures forall i :: 0 <= i < |s| ==> Products(s, s)[i] >= 0.0
  {
    var u := Products(s, s);
    forall i | 0 <= i < |s|
      ensures u[i] >= 0.0
    {
      Square(s[i]);
    }
  }

  /** A square is never negative, so neither is a sum of squares. */
  lemma SumOfSquaresNonnegative(s: seq<real>)
    ensures Dot(s, s) >= 0.0
  {
    SquaresNonnegative(s);
    SumNonnegative(Products(s, s));
  }

  /** A sum of squares is zero only when every term is zero. */
  lemma SumOfSquaresZero(s: seq<real>, i: nat)
    requires Dot(s, s) == 0.0 && i < |s|
    ensures s[i] == 0.0
  {
    SquaresNonnegative(s);
    SumZeroTerms(Products(s, s), i);
    SquareZero(s[i]);
  }

  lemma SquaredGapNonnegative(xs: seq<real>, l1: Line, l2: Line)
    ensures SquaredGap(xs, l1, l2) >= 0.0
  {
    SumOfSquaresNonnegative(Gaps(xs, l1, l2));
  }

  lemma SquaredErrorNonnegative(xs: seq<real>, ys: seq<real>, l: Line)
    requires |xs| == |ys|
    ensures SquaredError(xs, ys, l) >= 0.0
  {
    SumOfSquaresNonnegative(Residuals(xs, ys, l));
  }

  /** Lines whose predictions have no squared gap agree at every sample point. */
  lemma NoGapAgrees(xs: seq<real>, l1: Line, l2: Line, i: nat)
    requires i < |xs| && SquaredGap(xs, l1, l2) == 0.0
    ensures Predict(l1, xs[i]) == Predict(l2, xs[i])
  {
    SumOfSquaresZero(Gaps(xs, l1, l2), i);
  }

  /** The deviations of the regressor from its mean. */
  function Deviations(xs: seq<real>): (r: seq<real>)
    requires |xs| > 0
    ensures |r| == |xs|
  {
    Sub(xs, Constant(|xs|, Mean(xs)))
  }

  /** The spread is the sum of squared deviations from the mean. */
  lemma SpreadIsSquaredDeviation(xs: seq<real>)
    requires |xs| > 0
    ensures Dot(Deviations(xs), Deviations(xs)) == Spread(xs)
  {
    var n, m := |xs|, Mean(xs);
    var c := Constant(n, m);
    SquareExpansion(xs, c);
    ScaleByConstant(xs, m);
    SumScale(m, xs);
    SquareOfConstant(n, m);
    SumConstant(n, m * m);
    MeanTimesCount(Sum(xs), n as real, m);
  }

  lemma ScaleByConstant(xs: seq<real>, m: real)
    ensures Products(xs, Constant(|xs|, m)) == Scale(m, xs)
  {
    var p, q := Products(xs, Constant(|xs|, m)), Scale(m, xs);
    forall i | 0 <= i < |xs|
      ensures p[i] == q[i]
    {
    }
  }

  lemma SquareOfConstant(n: nat, m: real)
    ensures Products(Constant(n, m), Constant(n, m)) == Constant(n, m * m)
  {
    var p, q := Products(Constant(n, m), Constant(n, m)), Constant(n, m * m);
    forall i | 0 <= i < n
      ensures p[i] == q[i]
    {
    }
  }

  lemma MeanTimesCount(s: real, n: real, m: real)
    requires n > 0.0 && m == s / n
    ensures n * (m * m) == m * s
  {
    assert n * m == s;
  }

  /** With no spread, every regressor value is the mean. */
  lemma ZeroSpreadConstant(xs: seq<real>, i: nat)
    requires i < |xs| && Spread(xs) == 0.0
    ensures xs[i] == Mean(xs)
  {
    SpreadIsSquaredDeviation(xs);
    SumOfSquaresZero(Deviations(xs), i);
  }

  /** A zero spread leaves no covariation either. */
  lemma ZeroSpreadNoCovariation(xs: seq<real>, ys: seq<real>)
    requires |xs| == |ys| > 0 && Spread(xs) == 0.0
    ensures Covariation(xs, ys) == 0.0
  {
    var m := Mean(xs);
    forall i | 0 <= i < |xs|
      ensures xs[i] == m
    {
      ZeroSpreadConstant(xs, i);
    }
    var p, q := Products(xs, ys), Scale(m, ys);
    forall i | 0 <= i < |xs|
      ensures p[i] == q[i]
    {
    }
    assert p == q;
    SumScale(m, ys);
  }

  /**
   * A line through the centroid leaves residuals summing to zero, and its residual
   * moment is the covariation less the slope times the spread.
   */
  lemma CentroidResidualSum(xs: seq<real>, ys: seq<real>, l: Line)
    requires |xs| == |ys| > 0
    requires l.intercept == Mean(ys) - l.slope * Mean(xs)
    ensures ResidualSum(xs, ys, l) == 0.0
  {
    ResidualSumClosed(xs, ys, l);
    InterceptAlgebra(|xs| as real, Sum(xs), Sum(ys), l.slope, l.intercept);
  }

  lemma InterceptAlgebra(n: real, sx: real, sy: real, b: real, a: real)
    requires n > 0.0 && a == sy / n - b * (sx / n)
    ensures sy - n * a - b * sx == 0.0
  {
    assert n * (sy / n) == sy && n * (sx / n) == sx;
  }

  lemma CentroidResidualMoment(xs: seq<real>, ys: seq<real>, l: Line)
    requires |xs| == |ys| > 0
    requires l.intercept == Mean(ys) - l.slope * Mean(xs)
    ensures ResidualMoment(xs, ys, l) == Covariation(xs, ys) - l.slope * Spread(xs)
  {
    ResidualMomentClosed(xs, ys, l);
    CentroidMoment(xs, ys, l);
  }

  lemma CentroidMoment(xs: seq<real>, ys: seq<real>, l: Line)
    requires |xs| == |ys| > 0
    requires l.intercept == Mean(ys) - l.slope * Mean(xs)
    ensures Dot(xs, ys) - l.intercept * Sum(xs) - l.slope * Dot(xs, xs)
         == Covariation(xs, ys) - l.slope * Spread(xs)
  {
    MomentAlgebra(|xs| as real, Sum(xs), Sum(ys), Dot(xs, ys), Dot(xs, xs), l.slope, l.intercept);
  }

  lemma MomentAlgebra(n: real, sx: real, sy: real, sxy: real, sxx: real, b: real, a: real)
    requires n > 0.0 && a == sy / n - b * (sx / n)
    ensures sxy - a * sx - b * sxx == (sxy - sx / n * sy) - b * (sxx - sx / n * sx)
  {
    assert (sy / n) * sx == (sx / n) * sy;
  }

  /** The fitted slope makes the covariation less the slope times the spread vanish. */
  lemma SlopeAlgebra(sp: real, cv: real, b: real)
    requires sp == 0.0 ==> cv == 0.0
    requires b == (if sp == 0.0 then 0.0 else cv / sp)
    ensures cv - b * sp == 0.0
  {
  }

  /**
   * The normal equations of least squares: the residuals of the fitted line sum to
   * zero and are orthogonal to the regressor.
   */
  lemma FitNormalEquations(xs: seq<real>, ys: seq<real>)
    requires |xs| == |ys| > 0
    ensures ResidualSum(xs, ys, Fit(xs, ys).value) == 0.0
    ensures ResidualMoment(xs, ys, Fit(xs, ys).value) == 0.0
  {
    var l := Fit(xs, ys).value;
    CentroidResidualSum(xs, ys, l);
    CentroidResidualMoment(xs, ys, l);
    FitSlopeBalances(xs, ys);
  }

  /** The fitted slope times the spread is exactly the covariation. */
  lemma FitSlopeBalances(xs: seq<real>, ys: seq<real>)
    requires |xs| == |ys| > 0
    ensures Covariation(xs, ys) - Fit(xs, ys).value.slope * Spread(xs) == 0.0
  {
    if Spread(xs) == 0.0 {
      ZeroSpreadNoCovariation(xs, ys);
    }
    SlopeAlgebra(Spread(xs), Covariation(xs, ys), Fit(xs, ys).value.slope);
  }

  /** The fitted line has the least squared error of all lines. */
  lemma FitIsLeastSquares(xs: seq<real>, ys: seq<real>, other: Line)
    requires |xs| == |ys| > 0
    ensures SquaredError(xs, ys, Fit(xs, ys).value) <= SquaredError(xs, ys, other)
  {
    FitNormalEquations(xs, ys);
    SquaredErrorShift(xs, ys, Fit(xs, ys).value, other);
    SquaredGapNonnegative(xs, other, Fit(xs, ys).value);
  }

  /** A line through every sample point leaves no squared error. */
  lemma ExactLineNoError(xs: seq<real>, ys: seq<real>, l: Line)
    requires |xs| == |ys|
    requires forall i :: 0 <= i < |xs| ==> ys[i] == Predict(l, xs[i])
    ensures SquaredError(xs, ys, l) == 0.0
  {
    var r := Residuals(xs, ys, l);
    assert Products(r, r) == Constant(|xs|, 0.0);
    SumConstant(|xs|, 0.0);
  }

  /** Two lines that agree at two distinct points are the same line. */
  lemma TwoPointsFixLine(l1: Line, l2: Line, x1: real, x2: real)
    requires x1 != x2
    requires Predict(l1, x1) == Predict(l2, x1) && Predict(l1, x2) == Predict(l2, x2)
    ensures l1 == l2
  {
    var db := l1.slope - l2.slope;
    assert db * (x1 - x2) == 0.0;
    ProductZero(db, x1 - x2);
  }

  /**
   * Data lying exactly on a line, with at least two distinct regressor values, is
   * fitted by that very line.
   */
  lemma FitRecoversLine(xs: seq<real>, ys: seq<real>, l: Line, i: nat, j: nat)
    requires |xs| == |ys|
    requires forall k :: 0 <= k < |xs| ==> ys[k] == Predict(l, xs[k])
    requires i < |xs| && j < |xs| && xs[i] != xs[j]
    ensures Fit(xs, ys) == Ok(l)
  {
    var f := Fit(xs, ys).value;
    ExactLineNoError(xs, ys, l);
    SquaredErrorNonnegative(xs, ys, f);
    SquaredGapNonnegative(xs, l, f);
    FitNormalEquations(xs, ys);
    SquaredErrorShift(xs, ys, f, l);
    assert SquaredGap(xs, l, f) == 0.0;
    NoGapAgrees(xs, l, f, i);
    NoGapAgrees(xs, l, f, j);
    TwoPointsFixLine(l, f, xs[i], xs[j]);
  }
}
