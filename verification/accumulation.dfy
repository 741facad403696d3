/**
 * SufficientStatsAccumulator: the four raw sums a simple regression needs,
 * gathered from a dense or a sparse genotype vector and the trait vector.
 */
module Accumulation {
  import opened Series
  import opened Sparse

  /** s_x = Σx, s_y = Σy, s_xx = Σx², s_xy = Σxy */
  datatype Sums = Sums(sx: real, sy: real, sxx: real, sxy: real)

  /**
   * The sums as the accumulate / inner_product calls of `linreg_ttest_old`
   * form them, each over the whole of its vector.
   */
  function DenseSums(x: seq<real>, y: seq<real>): Sums
    requires |x| == |y|
  {
    Sums(Sum(x), Sum(y), SumSq(x), Dot(x, y))
  }

  /**
   * The sums of the sparse paths: s_x, s_xx and s_xy over the stored pairs
   * only, s_y over the full trait vector.
   */
  function SparseSums(v: SparseVector, y: seq<real>): Sums
    requires v.Valid() && |y| == v.size
  {
    Sums(Sum(v.values), Sum(y), SumSq(v.values), GatherDot(v, y))
  }

  /** The fused loop of the dense `linreg_ttest`: one pass, four running sums. */
  method DenseAccumulate(x: seq<real>, y: seq<real>) returns (s: Sums)
    requires |x| == |y|
    ensures s == DenseSums(x, y)
  {
    var sx, sy, sxx, sxy := 0.0, 0.0, 0.0, 0.0;
    var i := 0;
    while i < |x|
      invariant 0 <= i <= |x|
      invariant sx == Sum(x[..i]) && sy == Sum(y[..i])
      invariant sxx == SumSq(x[..i]) && sxy == Dot(x[..i], y[..i])
    {
      assert x[..i + 1][..i] == x[..i] && y[..i + 1][..i] == y[..i];
      sx := sx + x[i];
      sy := sy + y[i];
      sxx := sxx + Sq(x[i]);
      sxy := sxy + Mul(x[i], y[i]);
      i := i + 1;
    }
    assert x[..i] == x && y[..i] == y;
    s := Sums(sx, sy, sxx, sxy);
  }

  /**
   * The loop of the sparse `linreg_ttest`: walks the stored pairs only, then
   * takes s_y from the whole trait vector.
   */
  method SparseAccumulate(v: SparseVector, y: seq<real>) returns (s: Sums)
    requires v.Valid() && |y| == v.size
    ensures s == SparseSums(v, y)
    ensures s.sy == Sum(y)
  {
    var sx, sxx, sxy := 0.0, 0.0, 0.0;
    var j := 0;
    while j < |v.indices|
      invariant 0 <= j <= |v.indices|
      invariant sx == Sum(v.values[..j]) && sxx == SumSq(v.values[..j])
      invariant sxy == GatherDot(v.Prefix(j), y)
    {
      StoredStep(v, y, j);
      var a := v.values[j];
      sx := sx + a;
      sxx := sxx + Sq(a);
      sxy := sxy + Mul(a, y[v.indices[j]]);
      j := j + 1;
    }
    assert v.values[..j] == v.values;
    assert v.Prefix(j) == v;
    s := Sums(sx, Sum(y), sxx, sxy);
  }

  /** One more stored pair extends each running sum by that pair's term. */
  lemma StoredStep(v: SparseVector, y: seq<real>, j: nat)
    requires v.Valid() && |y| == v.size && j < |v.indices|
    ensures Sum(v.values[..j + 1]) == Sum(v.values[..j]) + v.values[j]
    ensures SumSq(v.values[..j + 1]) == SumSq(v.values[..j]) + Sq(v.values[j])
    ensures GatherDot(v.Prefix(j + 1), y) == GatherDot(v.Prefix(j), y) + Mul(v.values[j], y[v.indices[j]])
  {
    assert v.values[..j + 1][..j] == v.values[..j];
    assert v.Prefix(j + 1).Prefix(j) == v.Prefix(j);
  }

  /**
   * Summing only the stored pairs gives exactly the sums of the dense loop
   * over the zero-filled expansion.
   */
  lemma SparseMatchesDense(v: SparseVector, y: seq<real>)
    requires v.Valid() && |y| == v.size
    ensures SparseSums(v, y) == DenseSums(Expand(v), y)
  {
    SparseSumMatches(v);
    SparseSumSqMatches(v);
    SparseDotMatches(v, y);
  }

  /** The last stored pair lands on a slot the shorter prefix left at zero. */
  lemma LastStored(v: SparseVector)
    requires v.Valid() && |v.indices| > 0
    ensures var n := |v.indices|;
            var e := Expand(v.Prefix(n - 1));
            && e[v.indices[n - 1]] == 0.0
            && Expand(v) == e[v.indices[n - 1] := v.values[n - 1]]
  {
    var n := |v.indices|;
    var w := v.Prefix(n - 1);
    ExpandAt(w);
    forall j | 0 <= j < |w.indices| ensures w.indices[j] != v.indices[n - 1] {
      assert w.indices[j] == v.indices[j];
    }
  }

  /** Filling a zero slot adds exactly that slot's product to the inner product. */
  lemma FillZeroSlot(e: seq<real>, y: seq<real>, i: nat, a: real)
    requires |e| == |y| && i < |e| && e[i] == 0.0
    ensures Dot(e[i := a], y) == Dot(e, y) + Mul(a, y[i])
  {
    DotUpdate(e, y, i, a, y[i]);
    assert y[i := y[i]] == y;
    assert Mul(e[i], y[i]) == 0.0;
  }

  lemma {:induction false} SparseSumMatches(v: SparseVector)
    requires v.Valid()
    ensures Sum(v.values) == Sum(Expand(v))
    decreases |v.indices|
  {
    var n := |v.indices|;
    if n == 0 {
      ZeroSums(Expand(v), Expand(v));
    } else {
      var w := v.Prefix(n - 1);
      SparseSumMatches(w);
      LastStored(v);
      SumUpdate(Expand(w), v.indices[n - 1], v.values[n - 1]);
      assert v.values[..n - 1] == w.values;
    }
  }

  lemma {:induction false} SparseSumSqMatches(v: SparseVector)
    requires v.Valid()
    ensures SumSq(v.values) == SumSq(Expand(v))
    decreases |v.indices|
  {
    var n := |v.indices|;
    if n == 0 {
      ZeroSums(Expand(v), Expand(v));
    } else {
      var w := v.Prefix(n - 1);
      SparseSumSqMatches(w);
      LastStored(v);
      SumSqUpdate(Expand(w), v.indices[n - 1], v.values[n - 1]);
      assert Sq(0.0) == 0.0;
      assert v.values[..n - 1] == w.values;
    }
  }

  lemma {:induction false} SparseDotMatches(v: SparseVector, y: seq<real>)
    requires v.Valid() && |y| == v.size
    ensures GatherDot(v, y) == Dot(Expand(v), y)
    decreases |v.indices|
  {
    var n := |v.indices|;
    if n == 0 {
      ZeroSums(Expand(v), y);
    } else {
      var w := v.Prefix(n - 1);
      var i := v.indices[n - 1];
      SparseDotMatches(w, y);
      LastStored(v);
      FillZeroSlot(Expand(w), y, i, v.values[n - 1]);
    }
  }
}
