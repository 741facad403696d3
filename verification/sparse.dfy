/**
 * The compressed (sparse) genotype vector: only the stored (index, value)
 * pairs are materialised; every other slot of the logical length is an
 * exact structural zero.
 */
module Sparse {
  import opened Series

  datatype SparseVector = SparseVector(size: nat, indices: seq<nat>, values: seq<real>) {

    /** Parallel arrays, indices strictly increasing and inside [0, size). */
    predicate Valid()
    {
      && |indices| == |values|
      && (forall j :: 0 <= j < |indices| ==> indices[j] < size)
      && (forall j, k :: 0 <= j < k < |indices| ==> indices[j] < indices[k])
    }

    /** The first k stored pairs, same logical length. */
    function Prefix(k: nat): (p: SparseVector)
      requires Valid() && k <= |indices|
      ensures p.Valid() && p.size == size && |p.indices| == k
    {
      SparseVector(size, indices[..k], values[..k])
    }
  }

  /** All-zero dense vector of length n. */
  function Zeros(n: nat): (z: seq<real>)
    ensures |z| == n && forall p :: 0 <= p < n ==> z[p] == 0.0
  {
    seq(n, _ => 0.0)
  }

  /** The dense vector a sparse vector stands for. */
  function Expand(v: SparseVector): (e: seq<real>)
    requires v.Valid()
    ensures |e| == v.size
    decreases |v.indices|
  {
    var n := |v.indices|;
    if n == 0 then Zeros(v.size)
    else Expand(v.Prefix(n - 1))[v.indices[n - 1] := v.values[n - 1]]
  }

  /**
   * Reading slot p of the expansion gives the value stored for p, or zero
   * when p is not listed: the random-access view the second pass of the
   * sparse regression uses.
   */
  lemma {:induction false} ExpandAt(v: SparseVector)
    requires v.Valid()
    ensures forall j :: 0 <= j < |v.indices| ==> Expand(v)[v.indices[j]] == v.values[j]
    ensures forall p :: 0 <= p < v.size && p !in v.indices ==> Expand(v)[p] == 0.0
    decreases |v.indices|
  {
    var n := |v.indices|;
    if n > 0 {
      var w := v.Prefix(n - 1);
      ExpandAt(w);
      forall j | 0 <= j < n ensures Expand(v)[v.indices[j]] == v.values[j] {
        if j < n - 1 {
          assert w.indices[j] == v.indices[j] && w.values[j] == v.values[j];
          assert v.indices[j] < v.indices[n - 1];
        }
      }
      forall p | 0 <= p < v.size && p !in v.indices ensures Expand(v)[p] == 0.0 {
        assert p != v.indices[n - 1];
      }
    }
  }

  /** Σ values[j] * y[indices[j]]: the stored pairs against the matching trait values. */
  function GatherDot(v: SparseVector, y: seq<real>): real
    requires v.Valid() && |y| == v.size
    decreases |v.indices|
  {
    var n := |v.indices|;
    if n == 0 then 0.0
    else GatherDot(v.Prefix(n - 1), y) + Mul(v.values[n - 1], y[v.indices[n - 1]])
  }
}
