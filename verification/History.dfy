/** Past moments: what has happened since when. */
module History {

  /** `began` holds at moment `i`, and `ended` at no moment between `i` and `j`. */
  ghost predicate Stands(began: nat -> bool, ended: nat -> bool, i: nat, j: nat) {
    i < j && began(i) && forall k | i < k < j :: !ended(k)
  }

  /** At some moment before `j` it began, and it has not ended since. */
  ghost predicate Since(began: nat -> bool, ended: nat -> bool, j: nat) {
    exists i :: Stands(began, ended, i, j)
  }

  /** It has never ended before `j`. */
  ghost predicate Never(ended: nat -> bool, j: nat) {
    forall k | 0 <= k < j :: !ended(k)
  }

  lemma SinceStep(began: nat -> bool, ended: nat -> bool, j: nat)
    ensures Since(began, ended, j + 1) <==> began(j) || (Since(began, ended, j) && !ended(j))
  {
    if began(j) {
      assert Stands(began, ended, j, j + 1);
    }
    if Since(began, ended, j) && !ended(j) {
      var i :| Stands(began, ended, i, j);
      assert Stands(began, ended, i, j + 1);
    }
    if Since(began, ended, j + 1) && !began(j) {
      var i :| Stands(began, ended, i, j + 1);
      assert Stands(began, ended, i, j);
    }
  }

  lemma NeverStep(ended: nat -> bool, j: nat)
    ensures Never(ended, j + 1) <==> Never(ended, j) && !ended(j)
  {
  }
}
