/** Sets of ids, and of those the ones that are in flight together. */
module Sets {

  /** The numbers lo, lo + 1, .., hi - 1. */
  function Ids(lo: nat, hi: nat): set<nat> {
    if lo >= hi then {} else Ids(lo, hi - 1) + {hi - 1}
  }

  lemma {:induction false} IdsAre(lo: nat, hi: nat)
    ensures forall i :: i in Ids(lo, hi) <==> lo <= i < hi
    ensures lo <= hi ==> |Ids(lo, hi)| == hi - lo
  {
    if lo < hi {
      IdsAre(lo, hi - 1);
      assert hi - 1 !in Ids(lo, hi - 1);
    }
  }

  lemma {:induction false} IdsFront(j: nat, k: nat)
    requires 0 < j <= k
    ensures Ids(j - 1, k) == Ids(j, k) + {j - 1} && j - 1 !in Ids(j, k)
    decreases k
  {
    if j < k {
      IdsFront(j, k - 1);
    } else {
      assert Ids(j - 1, j - 1) == {} && Ids(j, j) == {};
    }
  }

  lemma {:induction false} SubsetCardinality<T>(small: set<T>, large: set<T>)
    requires small <= large
    ensures |small| <= |large|
  {
    if small != {} {
      var x :| x in small;
      SubsetCardinality(small - {x}, large - {x});
    }
  }
}
