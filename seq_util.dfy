/** Facts about sequences of ids used by several modules. */
module SeqUtil {

  /** No id occurs twice. */
  predicate NoDuplicates(ids: seq<int>)
  {
    forall i, j :: 0 <= i < j < |ids| ==> ids[i] != ids[j]
  }

  /** The distinct elements of a sequence without duplicates number its length. */
  lemma {:induction false} DistinctCardinality(ids: seq<int>)
    requires NoDuplicates(ids)
    ensures |set x | x in ids| == |ids|
  {
    if ids != [] {
      var rest := ids[1..];
      DistinctCardinality(rest);
      assert (set x | x in ids) == (set x | x in rest) + {ids[0]};
      forall k | 0 <= k < |rest| ensures rest[k] != ids[0] {
        assert rest[k] == ids[k + 1];
      }
    }
  }

  /** A subset of a finite set has its size exactly when it is the whole set. */
  lemma SubsetSameSize(a: set<int>, b: set<int>)
    requires a <= b
    ensures |a| == |b| <==> a == b
  {
    assert b == a + (b - a);
    assert a * (b - a) == {};
  }

  /** Every prefix of a prefix without duplicates has none either. */
  lemma PrefixNoDuplicates(ids: seq<int>, n: nat, m: nat)
    requires n <= m <= |ids|
    requires NoDuplicates(ids[..m])
    ensures NoDuplicates(ids[..n])
  {
    forall a, b | 0 <= a < b < n ensures ids[..n][a] != ids[..n][b] {
      assert ids[..n][a] == ids[..m][a] && ids[..n][b] == ids[..m][b];
    }
  }

  /** A set of at most one element holds no two different values. */
  lemma AtMostOneElement<T>(xs: set<T>, a: T, b: T)
    requires |xs| <= 1 && a in xs && b in xs
    ensures a == b
  {
    assert |xs - {a}| == |xs| - 1;
    assert b !in xs - {a};
  }
}
