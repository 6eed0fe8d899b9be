/** `avl_update`, `avl_update_lt` and `avl_update_gt`: putting a member whose key has changed back in order. */
module AvlUpdate {
  import opened AvlShape
  import opened AvlHeap
  import opened AvlLocate
  import opened AvlWalk
  import opened AvlRemove
  import opened AvlOrder

  /** The other members, in order. */
  ghost function Others(order: seq<Node>, obj: Node): (rest: seq<Node>)
    requires obj in order
  {
    RemoveAt(order, IndexOf(order, obj))
  }

  /**
   What an update does to the order. Nothing moves exactly when the member is in place with its neighbours. If the
   new key is distinct from all the others the tree holds the same nodes in full order, and something moved exactly
   when the old order had become wrong. If it is not, a member out of place is dropped from the tree and one in
   place stays beside its equal: either way the tree does not hold all its nodes in full order.
   */
  ghost predicate Updated<K>(cmp: (K, K) -> int, key: Keys<K>, order: seq<Node>, obj: Node, order': seq<Node>, moved: bool)
    requires obj in order && Keyed(key, order) && Keyed(key, Others(order, obj)) && obj in key && Keyed(key, order')
  {
    && (moved <==> !InPlace(cmp, key, order, IndexOf(order, obj))) && (!moved ==> order' == order)
    && if Absent(cmp, key, Others(order, obj), key[obj]) then
         && Elems(order') == Elems(order) && Ordered(cmp, key, order') && (moved <==> !Ordered(cmp, key, order))
       else
         && (moved ==> order' == Others(order, obj))
         && !(Elems(order') == Elems(order) && Ordered(cmp, key, order'))
  }

  /** The member at place `i` compares wrongly with its neighbour on one side. */
  ghost predicate Wrong<K>(cmp: (K, K) -> int, key: Keys<K>, order: seq<Node>, i: nat, side: Dir)
    requires Keyed(key, order) && i < |order|
  {
    if side == 0 then i > 0 && cmp(key[order[i]], key[order[i - 1]]) < 0
    else i + 1 < |order| && cmp(key[order[i]], key[order[i + 1]]) > 0
  }

  /** Nothing compares wrongly with the neighbours of place `i`. */
  ghost predicate InPlace<K>(cmp: (K, K) -> int, key: Keys<K>, order: seq<Node>, i: nat)
    requires Keyed(key, order) && i < |order|
  {
    !Wrong(cmp, key, order, i, 0) && !Wrong(cmp, key, order, i, 1)
  }

  /** With the others in order, a member not out of place with its neighbours is in place with everyone. */
  lemma InPlaceBounds<K(!new)>(cmp: (K, K) -> int, key: Keys<K>, a: seq<Node>, x: Node, b: seq<Node>)
    requires TotalOrder(cmp) && Keyed(key, a) && Keyed(key, b) && x in key
    requires Ordered(cmp, key, a + b) && Absent(cmp, key, a + b, key[x])
    requires a != [] ==> cmp(key[x], key[a[|a| - 1]]) >= 0
    requires b != [] ==> cmp(key[x], key[b[0]]) <= 0
    ensures Below(cmp, key, a, key[x]) && Above(cmp, key, b, key[x])
  {
    var s := a + b;
    forall i | 0 <= i < |a| ensures cmp(key[x], key[a[i]]) > 0 {
      var n := |a| - 1;
      assert s[n] == a[n] && s[i] == a[i];
      assert cmp(key[x], key[s[n]]) != 0;
      if i < n {
        assert cmp(key[s[i]], key[s[n]]) < 0;
        Transitive(cmp, key[a[i]], key[a[n]], key[x]);
      }
    }
    forall i | 0 <= i < |b| ensures cmp(key[x], key[b[i]]) < 0 {
      assert s[|a|] == b[0] && s[|a| + i] == b[i];
      assert cmp(key[x], key[s[|a|]]) != 0;
      if i > 0 {
        assert cmp(key[s[|a|]], key[s[|a| + i]]) < 0;
        Transitive(cmp, key[x], key[b[0]], key[b[i]]);
      }
    }
  }

  lemma AtIndex(order: seq<Node>, obj: Node)
    requires obj in order
    ensures var i := IndexOf(order, obj);
            order == order[..i] + [obj] + order[i + 1..] && Others(order, obj) == order[..i] + order[i + 1..]
  {
  }

  /** In place among others it is distinct from, a member is in order with them. */
  lemma StaysOrdered<K(!new)>(cmp: (K, K) -> int, key: Keys<K>, order: seq<Node>, obj: Node)
    requires TotalOrder(cmp) && obj in order && Keyed(key, order) && obj in key && Keyed(key, Others(order, obj))
    requires Ordered(cmp, key, Others(order, obj)) && InPlace(cmp, key, order, IndexOf(order, obj))
    requires Absent(cmp, key, Others(order, obj), key[obj])
    ensures Ordered(cmp, key, order)
  {
    var i := IndexOf(order, obj);
    var a, b := order[..i], order[i + 1..];
    AtIndex(order, obj);
    InPlaceBounds(cmp, key, a, obj, b);
    OrderedAround(cmp, key, a, obj, b);
  }

  /** A member with an equal is not in order with the others. */
  lemma EqualDisorders<K(!new)>(cmp: (K, K) -> int, key: Keys<K>, order: seq<Node>, obj: Node)
    requires TotalOrder(cmp) && obj in order && Keyed(key, order) && obj in key && Keyed(key, Others(order, obj))
    requires !Absent(cmp, key, Others(order, obj), key[obj])
    ensures !Ordered(cmp, key, order)
  {
    var i, rest := IndexOf(order, obj), Others(order, obj);
    var j :| 0 <= j < |rest| && cmp(key[obj], key[rest[j]]) == 0;
    var j' := if j < i then j else j + 1;
    assert order[j'] == rest[j];
    assert cmp(key[order[j']], key[order[i]]) == 0;
  }

  /** Staying put is right exactly when the new key is distinct from the others. */
  lemma StayedPut<K(!new)>(cmp: (K, K) -> int, key: Keys<K>, order: seq<Node>, obj: Node)
    requires TotalOrder(cmp) && obj in order && Keyed(key, order) && obj in key && Keyed(key, Others(order, obj))
    requires Ordered(cmp, key, Others(order, obj)) && InPlace(cmp, key, order, IndexOf(order, obj))
    ensures Updated(cmp, key, order, obj, order, false)
  {
    if Absent(cmp, key, Others(order, obj), key[obj]) {
      StaysOrdered(cmp, key, order, obj);
    } else {
      EqualDisorders(cmp, key, order, obj);
    }
  }

  /** Taking the member out and adding it again is right exactly when the new key is distinct. */
  lemma Reinserted<K(!new)>(cmp: (K, K) -> int, key: Keys<K>, order: seq<Node>, obj: Node, order': seq<Node>, k: nat)
    requires TotalOrder(cmp) && obj in order && NoDup(order) && Keyed(key, order) && obj in key && Keyed(key, Others(order, obj))
    requires !InPlace(cmp, key, order, IndexOf(order, obj))
    requires Keyed(key, order') && Ordered(cmp, key, order')
    requires if Absent(cmp, key, Others(order, obj), key[obj])
             then k <= |Others(order, obj)| && order' == InsertAt(Others(order, obj), k, obj)
             else order' == Others(order, obj)
    ensures Updated(cmp, key, order, obj, order', true)
  {
    var i, rest := IndexOf(order, obj), Others(order, obj);
    AtIndex(order, obj);
    assert Elems(order) == Elems(rest) + {obj} by {
      ElemsMid(order[..i], obj, order[i + 1..]);
    }
    if Absent(cmp, key, rest, key[obj]) {
      assert rest == rest[..k] + rest[k..];
      ElemsMid(rest[..k], obj, rest[k..]);
      if i > 0 { assert order[i - 1] == order[..i][i - 1]; }
    } else {
      forall j | 0 <= j < |rest| ensures rest[j] != obj {
        assert rest[j] == order[if j < i then j else j + 1];
      }
      assert obj !in Elems(rest);
    }
  }

  lemma ElemsMid<T>(a: seq<T>, x: T, b: seq<T>)
    ensures Elems(a + [x] + b) == Elems(a + b) + {x}
  {
  }

  /** `AVL_REINSERT`. */
  method Reinsert<K(!new)>(tree: Tree, cmp: (K, K) -> int, key: Keys<K>, obj: Node)
    requires tree.Valid() && TotalOrder(cmp) && obj in InOrder(tree.shape)
    requires Keyed(key, InOrder(tree.shape)) && obj in key && Keyed(key, Others(InOrder(tree.shape), obj))
    requires Ordered(cmp, key, Others(InOrder(tree.shape), obj))
    requires !InPlace(cmp, key, InOrder(tree.shape), IndexOf(InOrder(tree.shape), obj))
    modifies tree, Nodes(tree.shape)
    ensures tree.Valid() && Keyed(key, InOrder(tree.shape))
    ensures Updated(cmp, key, old(InOrder(tree.shape)), obj, InOrder(tree.shape), true)
  {
    ghost var order := InOrder(tree.shape);
    InOrderNoDup(tree.shape);
    NodesInOrder(tree.shape, obj);
    Remove(tree, obj);
    ghost var k := Add(tree, cmp, key, obj);
    Reinserted(cmp, key, order, obj, InOrder(tree.shape), k);
  }

  /** Compares `obj` with its neighbour on one side. */
  method Misplaced<K>(tree: Tree, cmp: (K, K) -> int, key: Keys<K>, obj: Node, side: Dir) returns (wrong: bool)
    requires tree.Valid() && obj in InOrder(tree.shape) && Keyed(key, InOrder(tree.shape)) && obj in key
    ensures tree.Valid() && wrong == Wrong(cmp, key, InOrder(tree.shape), IndexOf(InOrder(tree.shape), obj), side)
  {
    var neighbor := Walk(tree, obj, side);
    assert Snap(Nodes(tree.shape)) == old(Snap(Nodes(tree.shape)));
    wrong := neighbor != null && if side == 0 then cmp(key[obj], key[neighbor]) < 0 else cmp(key[obj], key[neighbor]) > 0;
  }

  /** `avl_update`: the key of `obj` is now `key[obj]`; the other members are in order. */
  method Update<K(!new)>(tree: Tree, cmp: (K, K) -> int, key: Keys<K>, obj: Node) returns (moved: bool)
    requires tree.Valid() && TotalOrder(cmp) && obj in InOrder(tree.shape)
    requires Keyed(key, InOrder(tree.shape)) && obj in key && Keyed(key, Others(InOrder(tree.shape), obj))
    requires Ordered(cmp, key, Others(InOrder(tree.shape), obj))
    modifies tree, Nodes(tree.shape)
    ensures tree.Valid() && Keyed(key, InOrder(tree.shape))
    ensures Updated(cmp, key, old(InOrder(tree.shape)), obj, InOrder(tree.shape), moved)
  {
    var wrong := Misplaced(tree, cmp, key, obj, 0);
    if wrong {
      Reinsert(tree, cmp, key, obj);
      return true;
    }
    wrong := Misplaced(tree, cmp, key, obj, 1);
    if wrong {
      Reinsert(tree, cmp, key, obj);
      return true;
    }
    StayedPut(cmp, key, InOrder(tree.shape), obj);
    return false;
  }

  /** When only `obj` has a new key, the others are still in order. */
  lemma OthersStillOrdered<K>(cmp: (K, K) -> int, was: Keys<K>, order: seq<Node>, obj: Node, v: K)
    requires NoDup(order) && obj in order && Keyed(was, order) && Ordered(cmp, was, order)
    ensures var key := was[obj := v];
            Keyed(key, order) && Keyed(key, Others(order, obj)) && Ordered(cmp, key, Others(order, obj))
  {
    var key, i, rest := was[obj := v], IndexOf(order, obj), Others(order, obj);
    forall j | 0 <= j < |rest| ensures rest[j] == order[if j < i then j else j + 1] && key[rest[j]] == was[rest[j]] {
    }
    forall j, k | 0 <= j < k < |rest| ensures cmp(key[rest[j]], key[rest[k]]) < 0 {
      var j' := if j < i then j else j + 1;
      var k' := if k < i then k else k + 1;
      assert rest[j] == order[j'] && rest[k] == order[k'];
    }
  }

  /** A key that only fell still compares rightly with the node after; one that only rose, with the node before. */
  lemma OneSideRight<K(!new)>(cmp: (K, K) -> int, was: Keys<K>, order: seq<Node>, obj: Node, v: K)
    requires TotalOrder(cmp) && obj in order && Keyed(was, order) && Ordered(cmp, was, order)
    ensures var i := IndexOf(order, obj);
            && (cmp(v, was[obj]) <= 0 && i + 1 < |order| ==> cmp(v, was[order[i + 1]]) <= 0)
            && (cmp(v, was[obj]) >= 0 && i > 0 ==> cmp(v, was[order[i - 1]]) >= 0)
  {
    var i := IndexOf(order, obj);
    if cmp(v, was[obj]) <= 0 && i + 1 < |order| {
      Transitive(cmp, v, was[obj], was[order[i + 1]]);
    }
    if cmp(v, was[obj]) >= 0 && i > 0 {
      Transitive(cmp, was[order[i - 1]], was[obj], v);
    }
  }

  /** Looks at the neighbour on one side only. */
  method UpdateSide<K(!new)>(tree: Tree, cmp: (K, K) -> int, key: Keys<K>, obj: Node, side: Dir) returns (moved: bool)
    requires tree.Valid() && TotalOrder(cmp) && obj in InOrder(tree.shape)
    requires Keyed(key, InOrder(tree.shape)) && obj in key && Keyed(key, Others(InOrder(tree.shape), obj))
    requires Ordered(cmp, key, Others(InOrder(tree.shape), obj))
    requires !Wrong(cmp, key, InOrder(tree.shape), IndexOf(InOrder(tree.shape), obj), 1 - side)
    modifies tree, Nodes(tree.shape)
    ensures tree.Valid() && Keyed(key, InOrder(tree.shape))
    ensures Updated(cmp, key, old(InOrder(tree.shape)), obj, InOrder(tree.shape), moved)
  {
    var wrong := Misplaced(tree, cmp, key, obj, 1 - side);
    assert !wrong; // what the source asserts of the other neighbour
    wrong := Misplaced(tree, cmp, key, obj, side);
    if wrong {
      Reinsert(tree, cmp, key, obj);
      return true;
    }
    StayedPut(cmp, key, InOrder(tree.shape), obj);
    return false;
  }

  /** `avl_update_lt`: only the node before is looked at, which is enough when the key fell. */
  method UpdateLt<K(!new)>(tree: Tree, cmp: (K, K) -> int, ghost was: Keys<K>, key: Keys<K>, obj: Node) returns (moved: bool)
    requires tree.Valid() && TotalOrder(cmp) && obj in InOrder(tree.shape)
    requires Keyed(was, InOrder(tree.shape)) && Ordered(cmp, was, InOrder(tree.shape))
    requires obj in key && obj in was && key == was[obj := key[obj]] && cmp(key[obj], was[obj]) <= 0
    modifies tree, Nodes(tree.shape)
    ensures tree.Valid() && Keyed(key, InOrder(tree.shape))
    ensures Keyed(key, old(InOrder(tree.shape))) && Keyed(key, Others(old(InOrder(tree.shape)), obj))
    ensures Updated(cmp, key, old(InOrder(tree.shape)), obj, InOrder(tree.shape), moved)
  {
    ghost var order := InOrder(tree.shape);
    InOrderNoDup(tree.shape);
    OthersStillOrdered(cmp, was, order, obj, key[obj]);
    OneSideRight(cmp, was, order, obj, key[obj]);
    moved := UpdateSide(tree, cmp, key, obj, 0);
  }

  /** `avl_update_gt`: only the node after is looked at, which is enough when the key rose. */
  method UpdateGt<K(!new)>(tree: Tree, cmp: (K, K) -> int, ghost was: Keys<K>, key: Keys<K>, obj: Node) returns (moved: bool)
    requires tree.Valid() && TotalOrder(cmp) && obj in InOrder(tree.shape)
    requires Keyed(was, InOrder(tree.shape)) && Ordered(cmp, was, InOrder(tree.shape))
    requires obj in key && obj in was && key == was[obj := key[obj]] && cmp(key[obj], was[obj]) >= 0
    modifies tree, Nodes(tree.shape)
    ensures tree.Valid() && Keyed(key, InOrder(tree.shape))
    ensures Keyed(key, old(InOrder(tree.shape))) && Keyed(key, Others(old(InOrder(tree.shape)), obj))
    ensures Updated(cmp, key, old(InOrder(tree.shape)), obj, InOrder(tree.shape), moved)
  {
    ghost var order := InOrder(tree.shape);
    InOrderNoDup(tree.shape);
    OthersStillOrdered(cmp, was, order, obj, key[obj]);
    OneSideRight(cmp, was, order, obj, key[obj]);
    moved := UpdateSide(tree, cmp, key, obj, 1);
  }
}
