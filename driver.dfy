/** The data preparation of the training script: the number of entities
    across both graphs and the split of the (already shuffled) alignment
    links into a training and a test part. */
module Driver {
  import opened Configuration

  /** `len(ILL) // 10 * Config.seed`: the number of training links. */
  function TrainSize(n: nat): (m: nat)
    ensures m <= n
    ensures 10 * m <= Config.Seed * n
    ensures n < 10 ==> m == 0
  {
    var tenth := n / 10;
    assert tenth * 10 <= n;
    tenth * Config.Seed
  }

  /** `ILL[:m]` and `ILL[m:]` for `m = TrainSize(|ILL|)`: the training
      links are a prefix of the links and the test links the rest. */
  function SplitLinks<T>(ill: seq<T>): (r: (seq<T>, seq<T>))
    ensures r.0 + r.1 == ill
    ensures |r.0| == (|ill| / 10) * Config.Seed
    ensures |r.1| == |ill| - |r.0|
  {
    var m := TrainSize(|ill|);
    (ill[..m], ill[m..])
  }

  /** Every link goes to exactly one side, duplicates included. */
  lemma SplitIsPermutation<T>(ill: seq<T>)
    ensures multiset(SplitLinks(ill).0) + multiset(SplitLinks(ill).1) == multiset(ill)
  {
    var r := SplitLinks(ill);
    assert ill == r.0 + r.1;
  }

  /** Fewer than ten links leave nothing for training. */
  lemma SmallSplit<T>(ill: seq<T>)
    requires |ill| < 10
    ensures SplitLinks(ill).0 == [] && SplitLinks(ill).1 == ill
  {
  }

  /** The two parts share a link exactly when some link occurs both before
      and at or after the split point. */
  lemma SplitOverlap<T>(ill: seq<T>)
    ensures var m := TrainSize(|ill|);
      (exists x :: x in SplitLinks(ill).0 && x in SplitLinks(ill).1) <==>
      (exists i, j :: 0 <= i < m <= j < |ill| && ill[i] == ill[j])
  {
    var m := TrainSize(|ill|);
    var r := SplitLinks(ill);
    if exists x :: x in r.0 && x in r.1 {
      var x :| x in r.0 && x in r.1;
      var i :| 0 <= i < |r.0| && r.0[i] == x;
      var k :| 0 <= k < |r.1| && r.1[k] == x;
      assert ill[i] == ill[m + k];
    }
    if exists i, j :: 0 <= i < m <= j < |ill| && ill[i] == ill[j] {
      var i, j :| 0 <= i < m <= j < |ill| && ill[i] == ill[j];
      assert r.0[i] == ill[i] && r.1[j - m] == ill[j];
      assert ill[i] in r.0 && ill[i] in r.1;
    }
  }

  /** Without repeated links the two parts are disjoint. */
  lemma SplitDisjoint<T>(ill: seq<T>)
    requires forall i, j :: 0 <= i < j < |ill| ==> ill[i] != ill[j]
    ensures forall x :: x in SplitLinks(ill).0 ==> x !in SplitLinks(ill).1
  {
    SplitOverlap(ill);
  }

  /** The distinct values of a sequence, as Python's `set(list)`. */
  function Distinct(s: seq<int>): set<int>
  {
    set x | x in s
  }

  /** A sequence has no more distinct values than elements. */
  lemma {:induction false} DistinctAtMostLength(s: seq<int>)
    ensures |Distinct(s)| <= |s|
    decreases |s|
  {
    if s != [] {
      var t := s[1..];
      DistinctAtMostLength(t);
      assert Distinct(s) == Distinct(t) + {s[0]};
    }
  }

  /** `len(set(ids1) | set(ids2))`: the number of distinct entity IDs over
      both graphs. */
  function EntityCount(ids1: seq<int>, ids2: seq<int>): (e: nat)
    ensures |Distinct(ids1)| <= e && |Distinct(ids2)| <= e
    ensures e <= |Distinct(ids1)| + |Distinct(ids2)|
  {
    var u := Distinct(ids1) + Distinct(ids2);
    assert Distinct(ids1) <= u && Distinct(ids2) <= u;
    SubsetCard(Distinct(ids1), u);
    SubsetCard(Distinct(ids2), u);
    |u|
  }

  lemma SubsetCard(a: set<int>, b: set<int>)
    requires a <= b
    ensures |a| <= |b|
  {
    assert b == a + (b - a);
  }

  /** The count is at most the total length of both ID lists, and equals
      the sum of the two distinct counts exactly when no ID is shared. */
  lemma EntityCountBounds(ids1: seq<int>, ids2: seq<int>)
    ensures EntityCount(ids1, ids2) <= |ids1| + |ids2|
    ensures EntityCount(ids1, ids2) == |Distinct(ids1)| + |Distinct(ids2)| <==>
      Distinct(ids1) !! Distinct(ids2)
  {
    DistinctAtMostLength(ids1);
    DistinctAtMostLength(ids2);
    var a, b := Distinct(ids1), Distinct(ids2);
    assert |a + b| + |a * b| == |a| + |b|;
    if |a + b| == |a| + |b| {
      assert a * b == {};
      forall x | x in a ensures x !in b {
        assert x !in a * b;
      }
    }
    if a !! b {
      assert a * b == {};
    }
  }
}
