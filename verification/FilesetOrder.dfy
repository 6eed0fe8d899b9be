/** The order in which a fileset's entries are looked at: cyclic, by index. */
module FilesetOrder {
  import opened AvlOrder

  /** `fileset_entry_compare`. */
  function CompareIndex(a: nat, b: nat): (diff: int) {
    if a < b then -1 else if a == b then 0 else 1
  }

  lemma CompareIsTotal()
    ensures TotalOrder(CompareIndex)
  {
  }

  // ---------- the cyclic successor ----------

  ghost predicate IsLeast(s: set<nat>, x: nat) {
    x in s && forall y :: y in s ==> x <= y
  }

  lemma LeastExists(s: set<nat>)
    requires s != {}
    ensures exists x :: IsLeast(s, x)
  {
    var x :| x in s;
    if s == {x} {
      assert IsLeast(s, x);
    } else {
      LeastExists(s - {x});
      var y :| IsLeast(s - {x}, y);
      forall z | z in s ensures (if y < x then y else x) <= z {
        assert z == x || z in s - {x};
      }
      assert IsLeast(s, if y < x then y else x);
    }
  }

  ghost function Least(s: set<nat>): (x: nat)
    requires s != {}
    ensures IsLeast(s, x)
  {
    LeastExists(s);
    var x :| IsLeast(s, x);
    x
  }

  ghost function From(s: set<nat>, i: nat): (r: set<nat>) {
    set x | x in s && i <= x
  }

  /** The least index not below `i`, or the least of all when there is none. */
  ghost function CyclicFrom(s: set<nat>, i: nat): (x: nat)
    requires s != {}
    ensures x in s
  {
    if From(s, i) != {} then Least(From(s, i)) else Least(s)
  }

  /** What decides the cyclic successor. */
  lemma CyclicIs(s: set<nat>, i: nat, x: nat)
    requires x in s
    requires (i <= x && forall y :: y in s && i <= y ==> x <= y)
          || ((forall y :: y in s ==> y < i) && forall y :: y in s ==> x <= y)
    ensures CyclicFrom(s, i) == x
  {
    if i <= x {
      assert x in From(s, i);
    } else {
      assert From(s, i) == {};
    }
  }

  /** Skipping the busy ones from the place found is the same as looking only at the others from the start. */
  lemma CyclicSkips(s: set<nat>, busy: set<nat>, i: nat)
    requires s - busy != {}
    ensures CyclicFrom(s - busy, CyclicFrom(s, i)) == CyclicFrom(s - busy, i)
  {
    var x, r := CyclicFrom(s, i), s - busy;
    if From(r, i) != {} {
      var y := Least(From(r, i));
      assert y in From(s, i);
      forall z | z in r && x <= z ensures y <= z {
        assert z in From(r, i);
      }
      CyclicIs(r, x, y);
    } else {
      forall z | z in r ensures z < i {
        assert z !in From(r, i);
      }
      assert Least(r) in s;
      CyclicIs(r, x, Least(r));
    }
  }
}
