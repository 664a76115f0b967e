/** The two numpy operations the vectorisation uses, over reals: `np.zeros`
    and `np.mean(..., axis=0)` of a list of one-dimensional arrays. */
module Vectors {
  import opened Wrappers

  type Vector = seq<real>

  /** `np.zeros(n)`. */
  function Zeros(n: nat): (r: Vector)
    ensures |r| == n
    ensures forall i :: 0 <= i < n ==> r[i] == 0.0
  {
    seq(n, _ => 0.0)
  }

  /** Every vector in `vs` has `w` components. */
  predicate AllWidth(vs: seq<Vector>, w: nat)
  {
    forall k :: 0 <= k < |vs| ==> |vs[k]| == w
  }

  /** Sum of component `j` over all vectors. */
  function ColumnSum(vs: seq<Vector>, j: nat): real
    requires forall k :: 0 <= k < |vs| ==> j < |vs[k]|
  {
    if vs == [] then 0.0 else vs[0][j] + ColumnSum(vs[1..], j)
  }

  /** `np.mean(vs, axis=0)`: the componentwise average of equally long
      vectors; a list of unequal lengths is an inhomogeneous array, which
      numpy rejects with a ValueError (None here). */
  function Mean(vs: seq<Vector>): (r: Option<Vector>)
    requires |vs| > 0
    ensures r.Some? <==> AllWidth(vs, |vs[0]|)
    ensures r.Some? ==> |r.value| == |vs[0]|
  {
    if AllWidth(vs, |vs[0]|) then
      Some(seq(|vs[0]|, j requires 0 <= j < |vs[0]| => ColumnSum(vs, j) / (|vs| as real)))
    else None
  }

  lemma {:induction false} ColumnSumOfCopies(vs: seq<Vector>, v: Vector, j: nat)
    requires j < |v|
    requires forall k :: 0 <= k < |vs| ==> vs[k] == v
    ensures ColumnSum(vs, j) == (|vs| as real) * v[j]
    decreases |vs|
  {
    if vs != [] {
      ColumnSumOfCopies(vs[1..], v, j);
    }
  }

  /** Averaging copies of one vector gives that vector back; in particular
      the mean of zero vectors is the zero vector. */
  lemma MeanOfCopies(vs: seq<Vector>, v: Vector)
    requires |vs| > 0
    requires forall k :: 0 <= k < |vs| ==> vs[k] == v
    ensures Mean(vs) == Some(v)
  {
    assert AllWidth(vs, |vs[0]|);
    var m := Mean(vs).value;
    var n := |vs| as real;
    forall j | 0 <= j < |v| ensures m[j] == v[j] {
      ColumnSumOfCopies(vs, v, j);
      assert m[j] == (n * v[j]) / n;
    }
    assert m == v;
  }

  /** The mean of two equally long vectors is their componentwise midpoint. */
  lemma MeanOfPair(a: Vector, b: Vector)
    requires |a| == |b|
    ensures Mean([a, b]) == Some(seq(|a|, j requires 0 <= j < |a| => (a[j] + b[j]) / 2.0))
  {
    assert AllWidth([a, b], |a|);
    var m := Mean([a, b]).value;
    forall j | 0 <= j < |a| ensures m[j] == (a[j] + b[j]) / 2.0 {
      assert [a, b][1..] == [b];
      assert [b][1..] == [];
      calc {
        ColumnSum([a, b], j);
        a[j] + ColumnSum([b], j);
        a[j] + (b[j] + ColumnSum([], j));
      }
    }
    var mid := seq(|a|, j requires 0 <= j < |a| => (a[j] + b[j]) / 2.0);
    assert m == mid;
  }
}
