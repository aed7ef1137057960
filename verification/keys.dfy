/**
 * Primary keys: how the storage engine picks a fresh one, and the
 * ascending order listings use.
 */
module Keys {

  /** Primary keys are integers assigned by the storage engine. */
  type Id = int

  /** Some key of a non-empty key set. */
  lemma PickKey(ids: set<Id>) returns (x: Id)
    requires ids != {}
    ensures x in ids
  {
    // Hands the solver the witness that `:|` needs: some `y` is in `ids`.
    if forall y :: y !in ids {
      assert false;
    }
    x :| x in ids;
  }

  /** The largest key of a non-empty key set. */
  lemma {:induction false} Largest(ids: set<Id>) returns (m: Id)
    requires ids != {}
    ensures m in ids && forall k :: k in ids ==> k <= m
    decreases ids
  {
    var x := PickKey(ids);
    if ids == {x} {
      m := x;
    } else {
      var m' := Largest(ids - {x});
      m := if m' < x then x else m';
      forall k | k in ids ensures k <= m {
        if k != x {
          assert k in ids - {x};
        }
      }
    }
  }

  /** The smallest key of a non-empty key set. */
  lemma {:induction false} Smallest(ids: set<Id>) returns (m: Id)
    requires ids != {}
    ensures m in ids && forall k :: k in ids ==> m <= k
    decreases ids
  {
    var x := PickKey(ids);
    if ids == {x} {
      m := x;
    } else {
      var m' := Smallest(ids - {x});
      m := if x < m' then x else m';
      forall k | k in ids ensures m <= k {
        if k != x {
          assert k in ids - {x};
        }
      }
    }
  }

  /** The largest key in use. */
  function MaxId(ids: set<Id>): (m: Id)
    requires ids != {}
    ensures m in ids && forall k :: k in ids ==> k <= m
  {
    assert exists m :: m in ids && forall k :: k in ids ==> k <= m by {
      var m := Largest(ids);
    }
    var m :| m in ids && forall k :: k in ids ==> k <= m;
    m
  }

  /** The smallest key in use. */
  function MinId(ids: set<Id>): (m: Id)
    requires ids != {}
    ensures m in ids && forall k :: k in ids ==> m <= k
  {
    assert exists m :: m in ids && forall k :: k in ids ==> m <= k by {
      var m := Smallest(ids);
    }
    var m :| m in ids && forall k :: k in ids ==> m <= k;
    m
  }

  /** The key an insert receives: SQLite's default rowid rule, one more than
      the largest key in the table, or 1 in an empty table. */
  function NextId(ids: set<Id>): (r: Id)
    ensures r !in ids
    ensures forall k :: k in ids ==> k < r
    ensures ids == {} ==> r == 1
    ensures ids != {} ==> r - 1 in ids
  {
    if ids == {} then 1 else MaxId(ids) + 1
  }

  predicate StrictlyIncreasing(ks: seq<Id>) {
    forall i, j :: 0 <= i < j < |ks| ==> ks[i] < ks[j]
  }

  /** A key set listed in ascending order (`ORDER BY id ASC`). */
  function Ascending(ids: set<Id>): (r: seq<Id>)
    ensures StrictlyIncreasing(r)
    ensures forall k :: k in r <==> k in ids
    ensures |r| == |ids|
    decreases ids
  {
    if ids == {} then []
    else
      var m := MinId(ids);
      var rest := Ascending(ids - {m});
      assert forall i :: 0 <= i < |rest| ==> rest[i] in ids - {m};
      [m] + rest
  }
}
