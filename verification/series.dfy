/**
 * Exact-arithmetic sums over sequences of reals: the abstraction of the
 * single-precision accumulation loops of `linreg_ttest`.  Every sum is
 * defined by peeling off the LAST element, which is the order in which a
 * left-to-right loop (or `std::accumulate` / `std::inner_product`) adds.
 */
module Series {

  /**
   * a·b.  The identities about spreads and fitted values write their
   * products through Mul, so that two products with equal factors are
   * equal by congruence alone and only the small polynomial lemmas need
   * nonlinear arithmetic.
   */
  function Mul(a: real, b: real): real { a * b }

  /** The value itself.  Used only by Sq below. */
  function Id(v: real): real { v }

  /**
   * v², the `square` helper of linreg_ttest.cpp.  It is written as v times Id(v)
   * so that the solver keeps it as a product of two factors, which is the
   * shape its sign reasoning handles.
   */
  function Sq(v: real): real { v * Id(v) }

  lemma SquarePositive(v: real)
    requires v != 0.0
    ensures Sq(v) > 0.0
  {
    if v < 0.0 {
      assert Sq(v) == (-v) * (-Id(v));
    }
  }

  lemma SquareNonneg(v: real)
    ensures Sq(v) >= 0.0
  {
    if v != 0.0 { SquarePositive(v); }
  }

  /** Σ s[i] */
  function Sum(s: seq<real>): real
  {
    if |s| == 0 then 0.0 else Sum(s[..|s| - 1]) + s[|s| - 1]
  }

  /** Σ x[i] * y[i] */
  function Dot(x: seq<real>, y: seq<real>): real
    requires |x| == |y|
  {
    if |x| == 0 then 0.0 else Dot(x[..|x| - 1], y[..|y| - 1]) + Mul(x[|x| - 1], y[|y| - 1])
  }

  /** Σ x[i]² */
  function SumSq(x: seq<real>): real
  {
    if |x| == 0 then 0.0 else SumSq(x[..|x| - 1]) + Sq(x[|x| - 1])
  }

  /** Σ (x[i] - c)², the sum of squared deviations from a centre c. */
  function SumSqDev(x: seq<real>, c: real): (r: real)
    ensures r >= 0.0
  {
    if |x| == 0 then 0.0
    else
      var d := x[|x| - 1] - c;
      SquareNonneg(d);
      SumSqDev(x[..|x| - 1], c) + Sq(d)
  }

  /** Every element equals c. */
  predicate AllAt(x: seq<real>, c: real)
  {
    forall i :: 0 <= i < |x| ==> x[i] == c
  }

  /** Every element equals every other one (a monomorphic predictor). */
  predicate AllEqual(x: seq<real>)
  {
    forall i, j :: 0 <= i < |x| && 0 <= j < |x| ==> x[i] == x[j]
  }

  lemma {:induction false} SumSqDevExpand(x: seq<real>, c: real)
    ensures SumSqDev(x, c) == SumSq(x) - 2.0 * Mul(c, Sum(x)) + Mul(|x| as real, Sq(c))
  {
    if |x| > 0 {
      var x' := x[..|x| - 1];
      SumSqDevExpand(x', c);
      LastElement(x, c);
      ExpandStep(SumSqDev(x', c), SumSq(x'), Sum(x'), |x'| as real, x[|x| - 1], c,
                 SumSqDev(x, c), SumSq(x), Sum(x), |x| as real);
    }
  }

  /** One unfolding of Sum, Dot and SumSqDev at the last element. */
  lemma LastElement(x: seq<real>, c: real)
    requires |x| > 0
    ensures SumSqDev(x, c) == SumSqDev(x[..|x| - 1], c) + Sq(x[|x| - 1] - c)
    ensures SumSq(x) == SumSq(x[..|x| - 1]) + Sq(x[|x| - 1])
    ensures Sum(x) == Sum(x[..|x| - 1]) + x[|x| - 1]
  {
  }

  /** The polynomial identity behind one step of SumSqDevExpand. */
  lemma ExpandStep(dev0: real, dot0: real, sum0: real, n0: real, a: real, c: real,
                   dev: real, dot: real, sum: real, n: real)
    requires dev0 == dot0 - 2.0 * Mul(c, sum0) + Mul(n0, Sq(c))
    requires dev == dev0 + Sq(a - c)
    requires dot == dot0 + Sq(a) && sum == sum0 + a && n == n0 + 1.0
    ensures dev == dot - 2.0 * Mul(c, sum) + Mul(n, Sq(c))
  {
  }

  /** The deviation sum is zero exactly when every element sits on the centre. */
  lemma {:induction false} SumSqDevZero(x: seq<real>, c: real)
    ensures SumSqDev(x, c) == 0.0 <==> AllAt(x, c)
  {
    if |x| > 0 {
      var x' := x[..|x| - 1];
      var d := x[|x| - 1] - c;
      SumSqDevZero(x', c);
      assert SumSqDev(x, c) == SumSqDev(x', c) + Sq(d);
      if SumSqDev(x, c) == 0.0 {
        assert d == 0.0 by {
          if d != 0.0 { SquarePositive(d); }
        }
        forall i | 0 <= i < |x| ensures x[i] == c {
          if i < |x'| { assert x[i] == x'[i]; }
        }
      }
      if AllAt(x, c) {
        forall i | 0 <= i < |x'| ensures x'[i] == c {
          assert x'[i] == x[i];
        }
        assert d == 0.0;
      }
    }
  }

  /**
   * n·Σ x[i]² − (Σ x[i])², the spread of x scaled by n: the denominator of
   * the least-squares slope.
   */
  function Spread(x: seq<real>): real
  {
    Mul(|x| as real, SumSq(x)) - Sq(Sum(x))
  }

  /**
   * Appending a to x adds Σ (x[i] − a)² to the spread, so the spread only
   * grows as samples come in.
   */
  lemma SpreadStep(x: seq<real>)
    requires |x| > 0
    ensures Spread(x) == Spread(x[..|x| - 1]) + SumSqDev(x[..|x| - 1], x[|x| - 1])
  {
    var x', a := x[..|x| - 1], x[|x| - 1];
    SumSqDevExpand(x', a);
    GrowStep(SumSqDev(x', a), SumSq(x'), Sum(x'), |x'| as real, |x| as real, a,
             Spread(x'), Spread(x), SumSq(x), Sum(x));
  }

  /** The polynomial identity behind one step of SpreadStep. */
  lemma GrowStep(dev: real, sxx: real, sx: real, m: real, m1: real, a: real,
                 sp0: real, sp: real, sxx1: real, sx1: real)
    requires dev == sxx - 2.0 * Mul(a, sx) + Mul(m, Sq(a))
    requires sp0 == Mul(m, sxx) - Sq(sx)
    requires sxx1 == sxx + Sq(a) && sx1 == sx + a
    requires m1 == m + 1.0 && sp == Mul(m1, sxx1) - Sq(sx1)
    ensures sp == sp0 + dev
  {
  }

  lemma {:induction false} SpreadNonneg(x: seq<real>)
    ensures Spread(x) >= 0.0
  {
    if |x| == 0 {
      assert Sq(0.0) == 0.0;
    } else {
      SpreadNonneg(x[..|x| - 1]);
      SpreadStep(x);
    }
  }

  /**
   * Centred on the mean c (n·c = Σ x), the deviation sum is the spread
   * divided by n.
   */
  lemma CentredSpread(x: seq<real>, c: real)
    requires Mul(|x| as real, c) == Sum(x)
    ensures Mul(|x| as real, SumSqDev(x, c)) == Spread(x)
  {
    SumSqDevExpand(x, c);
    ScaleStep(SumSqDev(x, c), SumSq(x), Sum(x), |x| as real, c, Spread(x));
  }

  /** The polynomial identity behind CentredSpread. */
  lemma ScaleStep(dev: real, sxx: real, sx: real, n: real, c: real, sp: real)
    requires Mul(n, c) == sx && sp == Mul(n, sxx) - Sq(sx)
    requires dev == sxx - 2.0 * Mul(c, sx) + Mul(n, Sq(c))
    ensures Mul(n, dev) == sp
  {
    assert n * Sq(c) == c * sx;
  }

  /** The spread vanishes exactly when every element is the same. */
  lemma {:induction false} SpreadZeroIff(x: seq<real>)
    ensures Spread(x) == 0.0 <==> AllEqual(x)
  {
    if |x| == 0 {
      SpreadEmpty(x);
    } else {
      SpreadZeroIff(x[..|x| - 1]);
      SpreadZeroStep(x);
    }
  }

  lemma SpreadEmpty(x: seq<real>)
    requires |x| == 0
    ensures Spread(x) == 0.0 && AllEqual(x)
  {
    assert Mul(0.0, 0.0) == 0.0 && Sq(0.0) == 0.0;
  }

  /** The induction step of SpreadZeroIff. */
  lemma SpreadZeroStep(x: seq<real>)
    requires |x| > 0
    requires Spread(x[..|x| - 1]) == 0.0 <==> AllEqual(x[..|x| - 1])
    ensures Spread(x) == 0.0 <==> AllEqual(x)
  {
    var x', a := x[..|x| - 1], x[|x| - 1];
    SpreadNonneg(x');
    SpreadStep(x);
    SumSqDevZero(x', a);
    AllEqualSplit(x);
    ZeroSplit(Spread(x), Spread(x'), SumSqDev(x', a), AllEqual(x), AllEqual(x'), AllAt(x', a));
  }

  /** A sum of two non-negative parts is zero iff both parts are. */
  lemma ZeroSplit(sp: real, sp0: real, dev: real, all: bool, all0: bool, at: bool)
    requires sp0 >= 0.0 && dev >= 0.0 && sp == sp0 + dev
    requires (sp0 == 0.0 <==> all0) && (dev == 0.0 <==> at) && (all <==> all0 && at)
    ensures sp == 0.0 <==> all
  {
  }

  /** x is constant iff its prefix is constant and sits on the last element. */
  lemma AllEqualSplit(x: seq<real>)
    requires |x| > 0
    ensures AllEqual(x) <==>
              AllEqual(x[..|x| - 1]) && AllAt(x[..|x| - 1], x[|x| - 1])
  {
    var x' := x[..|x| - 1];
    if AllEqual(x') && AllAt(x', x[|x| - 1]) {
      forall i, j | 0 <= i < |x| && 0 <= j < |x| ensures x[i] == x[j] {
        if i < |x'| { assert x[i] == x'[i]; }
        if j < |x'| { assert x[j] == x'[j]; }
      }
    }
    if AllEqual(x) {
      forall i, j | 0 <= i < |x'| && 0 <= j < |x'| ensures x'[i] == x'[j] {
        assert x'[i] == x[i] && x'[j] == x[j];
      }
    }
  }

  /** Replacing one element shifts the sum by the difference. */
  lemma {:induction false} SumUpdate(s: seq<real>, k: nat, a: real)
    requires k < |s|
    ensures Sum(s[k := a]) == Sum(s) - s[k] + a
  {
    var t := s[k := a];
    if k == |s| - 1 {
      assert t[..|t| - 1] == s[..|s| - 1];
    } else {
      assert t[..|t| - 1] == s[..|s| - 1][k := a];
      SumUpdate(s[..|s| - 1], k, a);
    }
  }

  /** Replacing one element shifts the sum of squares by the change of its square. */
  lemma {:induction false} SumSqUpdate(s: seq<real>, k: nat, a: real)
    requires k < |s|
    ensures SumSq(s[k := a]) == SumSq(s) - Sq(s[k]) + Sq(a)
  {
    var t := s[k := a];
    if k == |s| - 1 {
      assert t[..|t| - 1] == s[..|s| - 1];
    } else {
      assert t[..|t| - 1] == s[..|s| - 1][k := a];
      SumSqUpdate(s[..|s| - 1], k, a);
    }
  }

  /** A sequence of equal elements sums to its length times that element. */
  lemma {:induction false} SumConstant(s: seq<real>, a: real)
    requires forall i :: 0 <= i < |s| ==> s[i] == a
    ensures Sum(s) == (|s| as real) * a
  {
    if |s| > 0 {
      SumConstant(s[..|s| - 1], a);
    }
  }

  /** An all-zero sequence contributes nothing to any of the sums. */
  lemma {:induction false} ZeroSums(z: seq<real>, y: seq<real>)
    requires |z| == |y| && forall i :: 0 <= i < |z| ==> z[i] == 0.0
    ensures Sum(z) == 0.0 && SumSq(z) == 0.0 && Dot(z, y) == 0.0
  {
    if |z| > 0 {
      ZeroSums(z[..|z| - 1], y[..|y| - 1]);
      assert Sq(0.0) == 0.0;
    }
  }

  /** Replacing one aligned pair shifts the inner product by the change of that product. */
  lemma {:induction false} DotUpdate(x: seq<real>, y: seq<real>, k: nat, a: real, b: real)
    requires |x| == |y| && k < |x|
    ensures Dot(x[k := a], y[k := b]) == Dot(x, y) - Mul(x[k], y[k]) + Mul(a, b)
  {
    var x1, y1 := x[k := a], y[k := b];
    if k == |x| - 1 {
      assert x1[..|x1| - 1] == x[..|x| - 1];
      assert y1[..|y1| - 1] == y[..|y| - 1];
    } else {
      assert x1[..|x1| - 1] == x[..|x| - 1][k := a];
      assert y1[..|y1| - 1] == y[..|y| - 1][k := b];
      DotUpdate(x[..|x| - 1], y[..|y| - 1], k, a, b);
    }
  }

  /** The pointwise image m·x[i] + c. */
  function Affine(x: seq<real>, m: real, c: real): (z: seq<real>)
    ensures |z| == |x|
  {
    seq(|x|, i requires 0 <= i < |x| => Mul(m, x[i]) + c)
  }

  /** The pointwise difference u[i] − v[i]. */
  function Diff(u: seq<real>, v: seq<real>): (w: seq<real>)
    requires |u| == |v|
    ensures |w| == |u|
  {
    seq(|u|, i requires 0 <= i < |u| => u[i] - v[i])
  }

  /** The inner product is linear in its second argument. */
  lemma {:induction false} DotDiff(x: seq<real>, u: seq<real>, v: seq<real>)
    requires |x| == |u| == |v|
    ensures Dot(x, Diff(u, v)) == Dot(x, u) - Dot(x, v)
  {
    if |x| > 0 {
      var n := |x|;
      DotDiff(x[..n - 1], u[..n - 1], v[..n - 1]);
      assert Diff(u, v)[..n - 1] == Diff(u[..n - 1], v[..n - 1]);
      DiffStep(x[n - 1], u[n - 1], v[n - 1], Dot(x[..n - 1], Diff(u[..n - 1], v[..n - 1])),
               Dot(x[..n - 1], u[..n - 1]), Dot(x[..n - 1], v[..n - 1]));
    }
  }

  lemma DiffStep(a: real, p: real, q: real, d0: real, u0: real, v0: real)
    requires d0 == u0 - v0
    ensures d0 + Mul(a, p - q) == (u0 + Mul(a, p)) - (v0 + Mul(a, q))
  {
  }

  /** Σ (m·x[i] + c) = m·Σ x[i] + n·c. */
  lemma {:induction false} SumAffine(x: seq<real>, m: real, c: real)
    ensures Sum(Affine(x, m, c)) == Mul(m, Sum(x)) + Mul(|x| as real, c)
  {
    if |x| > 0 {
      SumAffine(x[..|x| - 1], m, c);
      AffinePrefix(x, m, c);
    }
  }

  /** Σ x[i]·(m·x[i] + c) = m·Σ x[i]² + c·Σ x[i]. */
  lemma {:induction false} DotAffine(x: seq<real>, m: real, c: real)
    ensures Dot(x, Affine(x, m, c)) == Mul(m, SumSq(x)) + Mul(c, Sum(x))
  {
    if |x| > 0 {
      var n := |x|;
      DotAffine(x[..n - 1], m, c);
      AffinePrefix(x, m, c);
      AffineStep(x[n - 1], Affine(x, m, c)[n - 1], m, c,
                 Dot(x[..n - 1], Affine(x[..n - 1], m, c)), SumSq(x[..n - 1]), Sum(x[..n - 1]),
                 Dot(x, Affine(x, m, c)), SumSq(x), Sum(x));
    }
  }

  lemma AffinePrefix(x: seq<real>, m: real, c: real)
    requires |x| > 0
    ensures Affine(x, m, c)[..|x| - 1] == Affine(x[..|x| - 1], m, c)
    ensures Affine(x, m, c)[|x| - 1] == Mul(m, x[|x| - 1]) + c
  {
    var n := |x| - 1;
    forall i | 0 <= i < n
      ensures Affine(x, m, c)[..n][i] == Affine(x[..n], m, c)[i]
    {
    }
  }

  /** The polynomial identity behind one step of DotAffine. */
  lemma AffineStep(a: real, z: real, m: real, c: real, d0: real, sq0: real, s0: real,
                   d: real, sq: real, s: real)
    requires z == Mul(m, a) + c && d0 == Mul(m, sq0) + Mul(c, s0)
    requires d == d0 + Mul(a, z) && sq == sq0 + Sq(a) && s == s0 + a
    ensures d == Mul(m, sq) + Mul(c, s)
  {
  }
}
