/** Lists of ids without repetition. */
module Ids {
  ghost predicate Twice(ids: seq<int>, i: nat, j: nat)
    requires i < j < |ids|
  {
    ids[i] == ids[j]
  }

  ghost predicate Distinct(ids: seq<int>) {
    forall i, j {:trigger Twice(ids, i, j)} :: 0 <= i < j < |ids| ==> !Twice(ids, i, j)
  }

  lemma DistinctTail(ids: seq<int>)
    requires Distinct(ids) && ids != []
    ensures Distinct(ids[1..]) && ids[0] !in ids[1..]
  {
    forall i: nat, j: nat | i < j < |ids| - 1 ensures !Twice(ids[1..], i, j) {
      assert !Twice(ids, i + 1, j + 1);
    }
    forall i: nat | i < |ids| - 1 ensures ids[1..][i] != ids[0] {
      assert !Twice(ids, 0, i + 1);
    }
  }
}
