/**
 * SimpleRegressionTTest: slope, intercept, the second-pass sums of squares
 * and the degrees of freedom of `linreg_ttest`, over exact reals.  The
 * square roots, the t statistic and the Student-t p-value are not part of
 * this model; what is kept is the squared standard error they start from.
 */
module Regression {
  import opened Wrappers
  import opened Series
  import opened Sparse
  import opened Accumulation

  /** One past the largest `std::size_t` value. */
  const SizeLimit: nat := 0x1_0000_0000_0000_0000

  /** The fitted line x ↦ slope·x + intercept (the `fx` closure of linreg_ttest.cpp). */
  datatype Line = Line(slope: real, intercept: real) {
    function Eval(v: real): real
    {
      slope * v + intercept
    }
  }

  /** Everything linreg_ttest.cpp computes before taking square roots. */
  datatype Estimate = Estimate(line: Line, seLine: real, seXMean: real, dof: nat)

  /** The float code divides by zero here and yields NaN or Inf. */
  datatype RegressionError = SlopeUndefined

  /** n·s_xx − s_x², the slope's denominator. */
  function Denominator(n: nat, s: Sums): real
  {
    Mul(n as real, s.sxx) - Sq(s.sx)
  }

  /**
   * Slope and intercept from the raw sums.  Defined unless linreg_ttest.cpp would
   * divide by zero: the denominator vanishes or there are no samples.
   */
  function Fit(n: nat, s: Sums): (r: Option<Line>)
    ensures r.Some? <==> n > 0 && Denominator(n, s) != 0.0
    ensures r.Some? ==> Mul(r.value.slope, Denominator(n, s)) == Mul(n as real, s.sxy) - Mul(s.sx, s.sy)
    ensures r.Some? ==> Mul(n as real, r.value.intercept) == s.sy - Mul(r.value.slope, s.sx)
  {
    if n == 0 || Denominator(n, s) == 0.0 then None
    else
      var nr := n as real;
      var m := (Mul(nr, s.sxy) - Mul(s.sx, s.sy)) / Denominator(n, s);
      var b := (s.sy - Mul(m, s.sx)) / nr;
      Quotient(Mul(nr, s.sxy) - Mul(s.sx, s.sy), Denominator(n, s), m);
      Quotient(s.sy - Mul(m, s.sx), nr, b);
      Some(Line(m, b))
  }

  /** q = a / d undoes to q·d = a. */
  lemma Quotient(a: real, d: real, q: real)
    requires d != 0.0 && q == a / d
    ensures Mul(q, d) == a && Mul(d, q) == a
  {
  }

  /** The fitted line passes through the mean point (x̄, ȳ). */
  lemma FitThroughMean(n: nat, s: Sums)
    requires Fit(n, s).Some?
    ensures Fit(n, s).value.Eval(s.sx / (n as real)) == s.sy / (n as real)
  {
    var line := Fit(n, s).value;
    MeanStep(line.slope, line.intercept, n as real, s.sx, s.sy);
  }

  lemma MeanStep(m: real, b: real, n: real, sx: real, sy: real)
    requires n > 0.0 && Mul(n, b) == sy - Mul(m, sx)
    ensures m * (sx / n) + b == sy / n
  {
  }

  /** Σ (y[i] − fx(x[i]))², the residual sum of squares `se_line`. */
  function SSE(x: seq<real>, y: seq<real>, line: Line): (r: real)
    requires |x| == |y|
    ensures r >= 0.0
  {
    if |x| == 0 then 0.0
    else
      var d := y[|y| - 1] - line.Eval(x[|x| - 1]);
      SquareNonneg(d);
      SSE(x[..|x| - 1], y[..|y| - 1], line) + Sq(d)
  }

  /** `dof = n - 2` evaluated in `std::size_t`, so it wraps below two samples. */
  function Dof(n: nat): (d: nat)
    requires n < SizeLimit
    ensures d < SizeLimit
    ensures n >= 2 ==> d == n - 2
    ensures n < 2 ==> d == SizeLimit - 2 + n
  {
    (n - 2) % SizeLimit
  }

  /**
   * Everything after the sums: fit, second pass over the dense view of x,
   * degrees of freedom.  Shared by all four overloads.
   */
  function Finish(x: seq<real>, y: seq<real>, s: Sums): Result<Estimate, RegressionError>
    requires |x| == |y| && |x| < SizeLimit
  {
    match Fit(|x|, s)
    case None => Failure(SlopeUndefined)
    case Some(line) =>
      Success(Estimate(line, SSE(x, y, line), SumSqDev(x, s.sx / (|x| as real)), Dof(|x|)))
  }

  /** `linreg_ttest_old`: sums by accumulate / inner_product, then Finish. */
  function LinRegTTestOld(x: seq<real>, y: seq<real>): Result<Estimate, RegressionError>
    requires |x| == |y| && |x| < SizeLimit
  {
    Finish(x, y, DenseSums(x, y))
  }

  /** `sp_lin_reg_old`: sums over the stored pairs, second pass over the expansion. */
  function SpLinRegOld(v: SparseVector, y: seq<real>): Result<Estimate, RegressionError>
    requires v.Valid() && |y| == v.size && v.size < SizeLimit
  {
    Finish(Expand(v), y, SparseSums(v, y))
  }

  /** The fused second loop: residual sum of squares and spread of x in one pass. */
  method SecondPass(x: seq<real>, y: seq<real>, line: Line, xMean: real)
    returns (seLine: real, seXMean: real)
    requires |x| == |y|
    ensures seLine == SSE(x, y, line) && seXMean == SumSqDev(x, xMean)
  {
    seLine, seXMean := 0.0, 0.0;
    var i := 0;
    while i < |x|
      invariant 0 <= i <= |x|
      invariant seLine == SSE(x[..i], y[..i], line)
      invariant seXMean == SumSqDev(x[..i], xMean)
    {
      assert x[..i + 1][..i] == x[..i] && y[..i + 1][..i] == y[..i];
      seLine := seLine + Sq(y[i] - line.Eval(x[i]));
      seXMean := seXMean + Sq(x[i] - xMean);
      i := i + 1;
    }
    assert x[..i] == x && y[..i] == y;
  }

  /** Fit, second pass and dof, as the body of both `linreg_ttest` overloads runs them. */
  method FinishFused(x: seq<real>, y: seq<real>, s: Sums)
    returns (r: Result<Estimate, RegressionError>)
    requires |x| == |y| && |x| < SizeLimit
    ensures r == Finish(x, y, s)
  {
    var fit := Fit(|x|, s);
    if fit.None? {
      return Failure(SlopeUndefined);
    }
    var xMean := s.sx / (|x| as real);
    var seLine, seXMean := SecondPass(x, y, fit.value, xMean);
    r := Success(Estimate(fit.value, seLine, seXMean, Dof(|x|)));
  }

  /** The dense `linreg_ttest`: one fused accumulation loop, one fused second pass. */
  method LinRegTTest(x: seq<real>, y: seq<real>) returns (r: Result<Estimate, RegressionError>)
    requires |x| == |y| && |x| < SizeLimit
    ensures r == LinRegTTestOld(x, y)
  {
    var s := DenseAccumulate(x, y);
    r := FinishFused(x, y, s);
  }

  /**
   * The sparse `linreg_ttest`: accumulation over stored pairs, second pass
   * over every slot read through random access (zero where nothing is
   * stored).  Same result as the dense version on the expansion.
   */
  method SparseLinRegTTest(v: SparseVector, y: seq<real>) returns (r: Result<Estimate, RegressionError>)
    requires v.Valid() && |y| == v.size && v.size < SizeLimit
    ensures r == SpLinRegOld(v, y)
    ensures r == LinRegTTestOld(Expand(v), y)
  {
    var s := SparseAccumulate(v, y);
    SparseMatchesDense(v, y);
    r := FinishFused(Expand(v), y, s);
  }

  /** Square of the `std_err` of linreg_ttest.cpp; absent where the float code divides by zero. */
  function StdErrSquared(e: Estimate): (r: Option<real>)
    ensures r.Some? <==> e.dof > 0 && e.seXMean != 0.0
    ensures r.Some? && e.seLine >= 0.0 && e.seXMean > 0.0 ==> r.value >= 0.0
    ensures r.Some? ==> Mul(Mul(r.value, e.dof as real), e.seXMean) == e.seLine
  {
    if e.dof == 0 || e.seXMean == 0.0 then None
    else
      NonnegQuotient(e.seLine, e.dof as real, e.seXMean);
      UndoQuotients(e.seLine, e.dof as real, e.seXMean);
      Some(e.seLine / (e.dof as real) / e.seXMean)
  }

  /** Dividing by b and then by c is undone by multiplying back. */
  lemma UndoQuotients(a: real, b: real, c: real)
    requires b != 0.0 && c != 0.0
    ensures Mul(Mul(a / b / c, b), c) == a
  {
    assert a / b / c * c == a / b;
  }

  lemma NonnegQuotient(a: real, b: real, c: real)
    requires b > 0.0
    ensures a >= 0.0 && c > 0.0 ==> a / b / c >= 0.0
  {
  }

  // ---------------------------------------------------------------------
  // Algebra of the formulas

  /** On the dense sums the denominator is the spread of x. */
  lemma DenominatorIsSpread(x: seq<real>, y: seq<real>)
    requires |x| == |y|
    ensures Denominator(|x|, DenseSums(x, y)) == Spread(x)
  {
  }

  /** The denominator is never negative. */
  lemma DenominatorNonneg(x: seq<real>, y: seq<real>)
    requires |x| == |y|
    ensures Denominator(|x|, DenseSums(x, y)) >= 0.0
  {
    DenominatorIsSpread(x, y);
    SpreadNonneg(x);
  }

  /** The slope's denominator vanishes exactly for a monomorphic predictor. */
  lemma MonomorphicIffZeroDenominator(x: seq<real>, y: seq<real>)
    requires |x| == |y|
    ensures Denominator(|x|, DenseSums(x, y)) == 0.0 <==> AllEqual(x)
  {
    DenominatorIsSpread(x, y);
    SpreadZeroIff(x);
  }

  /** The regression fails exactly when every genotype value is the same. */
  lemma FailsIffMonomorphic(x: seq<real>, y: seq<real>)
    requires |x| == |y| && |x| < SizeLimit
    ensures LinRegTTestOld(x, y).Failure? <==> AllEqual(x)
  {
    MonomorphicIffZeroDenominator(x, y);
  }

  /**
   * A predictor that is not monomorphic gives a successful fit with at
   * least two samples, so `n - 2` does not wrap, and a positive spread of x
   * equal to s_xx − s_x²/n.
   */
  lemma SuccessShape(x: seq<real>, y: seq<real>)
    requires |x| == |y| && |x| < SizeLimit && !AllEqual(x)
    ensures var r := LinRegTTestOld(x, y);
            && r.Success?
            && |x| >= 2
            && r.value.dof == |x| - 2
            && Mul(|x| as real, r.value.seXMean) == Spread(x)
            && r.value.seXMean > 0.0
  {
    SuccessSize(x, y);
    SuccessSpread(x, y);
    SuccessSpreadPositive(x, y);
  }

  lemma SuccessSize(x: seq<real>, y: seq<real>)
    requires |x| == |y| && |x| < SizeLimit && !AllEqual(x)
    ensures LinRegTTestOld(x, y).Success? && |x| >= 2 && LinRegTTestOld(x, y).value.dof == |x| - 2
  {
    FailsIffMonomorphic(x, y);
  }

  lemma SuccessSpread(x: seq<real>, y: seq<real>)
    requires |x| == |y| && |x| < SizeLimit && !AllEqual(x)
    ensures LinRegTTestOld(x, y).Success? && Mul(|x| as real, LinRegTTestOld(x, y).value.seXMean) == Spread(x)
  {
    FailsIffMonomorphic(x, y);
    FinishSpread(x, y, DenseSums(x, y));
  }

  /** Finish's spread of x, on sums whose s_x is the sum of x. */
  lemma FinishSpread(x: seq<real>, y: seq<real>, s: Sums)
    requires |x| == |y| && |x| < SizeLimit && s.sx == Sum(x)
    requires Finish(x, y, s).Success?
    ensures Mul(|x| as real, Finish(x, y, s).value.seXMean) == Spread(x)
  {
    MeanSpread(x, s.sx / (|x| as real), Finish(x, y, s).value.seXMean);
  }

  lemma MeanSpread(x: seq<real>, c: real, v: real)
    requires |x| > 0 && c == Sum(x) / (|x| as real) && v == SumSqDev(x, c)
    ensures Mul(|x| as real, v) == Spread(x)
  {
    DivideStep(Sum(x), |x| as real, c);
    CentredSpread(x, c);
  }

  lemma SuccessSpreadPositive(x: seq<real>, y: seq<real>)
    requires |x| == |y| && |x| < SizeLimit && !AllEqual(x)
    ensures LinRegTTestOld(x, y).Success? && LinRegTTestOld(x, y).value.seXMean > 0.0
  {
    SpreadZeroIff(x);
    SpreadNonneg(x);
    SuccessSpread(x, y);
    PositiveFactor(|x| as real, LinRegTTestOld(x, y).value.seXMean, Spread(x));
  }

  lemma DivideStep(a: real, n: real, c: real)
    requires n > 0.0 && c == a / n
    ensures Mul(n, c) == a
  {
  }

  lemma PositiveFactor(n: real, a: real, p: real)
    requires n > 0.0 && Mul(n, a) == p && p > 0.0
    ensures a > 0.0
  {
  }

  /**
   * For a predictor that is not monomorphic the standard error exists
   * exactly when there are more than two samples, and it is non-negative.
   */
  lemma StdErrDefinedIff(x: seq<real>, y: seq<real>)
    requires |x| == |y| && |x| < SizeLimit && !AllEqual(x)
    ensures var r := LinRegTTestOld(x, y);
            && r.Success?
            && (StdErrSquared(r.value).Some? <==> |x| > 2)
            && (StdErrSquared(r.value).Some? ==> StdErrSquared(r.value).value >= 0.0)
  {
    SuccessShape(x, y);
  }

  // ---------------------------------------------------------------------
  // Least squares: the fitted line satisfies the normal equations

  /** A predictor that is not monomorphic always has a fitted line. */
  lemma FitsUnlessMonomorphic(x: seq<real>, y: seq<real>)
    requires |x| == |y| && !AllEqual(x)
    ensures Fit(|x|, DenseSums(x, y)).Some?
  {
    MonomorphicIffZeroDenominator(x, y);
  }

  /** fx(x[i]) for every sample. */
  function Fitted(x: seq<real>, line: Line): (f: seq<real>)
    ensures |f| == |x|
  {
    Affine(x, line.slope, line.intercept)
  }

  /**
   * The fitted line solves both normal equations of least squares, stated
   * on the sums: m·s_x + n·b = s_y and m·s_xx + b·s_x = s_xy.
   */
  lemma FitNormalEquations(n: nat, s: Sums)
    requires Fit(n, s).Some?
    ensures Mul(Fit(n, s).value.slope, s.sx) + Mul(n as real, Fit(n, s).value.intercept) == s.sy
    ensures Mul(Fit(n, s).value.slope, s.sxx) + Mul(Fit(n, s).value.intercept, s.sx) == s.sxy
  {
    var line := Fit(n, s).value;
    NormalStep(line.slope, line.intercept, n as real, s.sx, s.sy, s.sxx, s.sxy, Denominator(n, s));
  }

  lemma NormalStep(m: real, b: real, n: real, sx: real, sy: real, sxx: real, sxy: real, d: real)
    requires n > 0.0 && d == Mul(n, sxx) - Sq(sx) && d != 0.0
    requires Mul(m, d) == Mul(n, sxy) - Mul(sx, sy)
    requires Mul(n, b) == sy - Mul(m, sx)
    ensures Mul(m, sx) + Mul(n, b) == sy
    ensures Mul(m, sxx) + Mul(b, sx) == sxy
  {
    assert n * (m * sxx + b * sx) == m * d + sx * sy;
  }

  /** On the samples the fitted values add up to Σ y: the residuals sum to zero. */
  lemma FittedSumMatches(x: seq<real>, y: seq<real>)
    requires |x| == |y| && !AllEqual(x)
    ensures Fit(|x|, DenseSums(x, y)).Some? && Sum(Fitted(x, Fit(|x|, DenseSums(x, y)).value)) == Sum(y)
  {
    FitsUnlessMonomorphic(x, y);
    FitNormalEquations(|x|, DenseSums(x, y));
    FittedSum(x, y, Fit(|x|, DenseSums(x, y)).value);
  }

  lemma FittedSum(x: seq<real>, y: seq<real>, line: Line)
    requires Mul(line.slope, Sum(x)) + Mul(|x| as real, line.intercept) == Sum(y)
    ensures Sum(Fitted(x, line)) == Sum(y)
  {
    SumAffine(x, line.slope, line.intercept);
  }

  /** The residuals are orthogonal to x: Σ x·fitted = Σ x·y. */
  lemma FittedDotMatches(x: seq<real>, y: seq<real>)
    requires |x| == |y| && !AllEqual(x)
    ensures Fit(|x|, DenseSums(x, y)).Some? && Dot(x, Fitted(x, Fit(|x|, DenseSums(x, y)).value)) == Dot(x, y)
  {
    FitsUnlessMonomorphic(x, y);
    FitNormalEquations(|x|, DenseSums(x, y));
    FittedDot(x, y, Fit(|x|, DenseSums(x, y)).value);
  }

  lemma FittedDot(x: seq<real>, y: seq<real>, line: Line)
    requires |x| == |y|
    requires Mul(line.slope, SumSq(x)) + Mul(line.intercept, Sum(x)) == Dot(x, y)
    ensures Dot(x, Fitted(x, line)) == Dot(x, y)
  {
    DotAffine(x, line.slope, line.intercept);
  }
}
