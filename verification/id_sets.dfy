/** Extremes of finite sets of row ids, as the engine computes them for a
    table scan and for AUTOINCREMENT. */
module IdSets {

  /** Smallest element of a non-empty set of ids. */
  function Smallest(ids: set<int>): (m: int)
    requires ids != {}
    ensures m in ids
    ensures forall k :: k in ids ==> m <= k
  {
    SmallestExists(ids);
    var m :| m in ids && forall k :: k in ids ==> m <= k; m
  }

  /** Largest of `floor` and every element of `ids`. */
  function LargestAtLeast(ids: set<int>, floor: int): (m: int)
    ensures floor <= m
    ensures forall k :: k in ids ==> k <= m
    ensures m == floor || m in ids
  {
    if forall k :: k in ids ==> k <= floor then floor
    else
      LargestExists(ids);
      var m :| m in ids && forall k :: k in ids ==> k <= m; m
  }

  /** A set that is not empty has a member one can pick. */
  lemma EmptyOrInhabited(ids: set<int>)
    ensures ids == {} || exists k :: k in ids
  {
    if forall k :: k !in ids {
      assert ids == {};
    }
  }

  lemma {:induction false} SmallestExists(ids: set<int>)
    requires ids != {}
    ensures exists m :: m in ids && forall k :: k in ids ==> m <= k
  {
    EmptyOrInhabited(ids);
    var x :| x in ids;
    if ids != {x} {
      SmallestExists(ids - {x});
      var m :| m in ids - {x} && forall k :: k in ids - {x} ==> m <= k;
      var low := if x < m then x else m;
      forall k | k in ids
        ensures low <= k
      {
        if k != x {
          assert k in ids - {x};
        }
      }
      assert low in ids;
    }
  }

  lemma {:induction false} LargestExists(ids: set<int>)
    requires ids != {}
    ensures exists m :: m in ids && forall k :: k in ids ==> k <= m
  {
    EmptyOrInhabited(ids);
    var x :| x in ids;
    if ids != {x} {
      LargestExists(ids - {x});
      var m :| m in ids - {x} && forall k :: k in ids - {x} ==> k <= m;
      var high := if m < x then x else m;
      forall k | k in ids
        ensures k <= high
      {
        if k != x {
          assert k in ids - {x};
        }
      }
      assert high in ids;
    }
  }
}
