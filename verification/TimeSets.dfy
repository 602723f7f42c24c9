/** First and last of a stored set of times, as the ordered queries with a limit of one return them. */
module TimeSets {
  import opened Basics

  ghost predicate IsLeast(x: int, store: set<int>) {
    x in store && forall y <- store :: x <= y
  }

  ghost predicate IsGreatest(x: int, store: set<int>) {
    x in store && forall y <- store :: y <= x
  }

  lemma HasLeast(store: set<int>) returns (x: int)
    requires store != {}
    ensures IsLeast(x, store)
  {
    assert (forall y :: y !in store) ==> store == {};
    var t :| t in store;
    var rest := store - {t};
    assert forall y <- store :: y == t || y in rest;
    if rest == {} {
      x := t;
    } else {
      var least := HasLeast(rest);
      x := Min(t, least);
    }
  }

  function Earliest(store: set<int>): (first: int)
    requires store != {}
    ensures IsLeast(first, store)
  {
    assert exists x :: IsLeast(x, store) by {
      var least := HasLeast(store);
    }
    var x :| x in store && forall y <- store :: x <= y;
    x
  }

  function Newest(store: set<int>): (last: int)
    requires store != {}
    ensures IsGreatest(last, store)
  {
    var negated := set y <- store :: -y;
    assert forall y <- store :: -y in negated;
    -Earliest(negated)
  }
}
