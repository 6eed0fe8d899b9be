/**
 The ordered side of the tree: `avl_find` and `avl_add`. A comparator and the key each node
 stands for say what order means; the structure below never looks at them.
 */
module AvlOrder {
  import opened AvlShape
  import opened AvlHeap
  import opened AvlLocate
  import opened AvlInsert
  import opened AvlWalk

  /** What a comparator must be: exactly -1, 0 or 1, and a total order. */
  ghost predicate TotalOrder<K(!new)>(cmp: (K, K) -> int) {
    && (forall a, b :: -1 <= cmp(a, b) <= 1)
    && (forall a, b :: cmp(a, b) == -cmp(b, a))
    && (forall a, b, c :: cmp(a, b) <= 0 && cmp(b, c) <= 0 ==> cmp(a, c) <= 0)
  }

  lemma Transitive<K(!new)>(cmp: (K, K) -> int, a: K, b: K, c: K)
    requires TotalOrder(cmp) && cmp(a, b) <= 0 && cmp(b, c) <= 0
    ensures cmp(a, c) <= 0 && (cmp(a, b) < 0 || cmp(b, c) < 0 ==> cmp(a, c) < 0)
  {
    if cmp(a, c) == 0 {
      assert cmp(c, a) <= 0;
      assert cmp(b, a) <= 0;
      assert cmp(c, b) <= 0;
    }
  }

  type Keys<K> = map<Node, K>

  ghost predicate Keyed<K>(key: Keys<K>, s: seq<Node>) {
    forall i :: 0 <= i < |s| ==> s[i] in key
  }

  ghost predicate Ordered<K>(cmp: (K, K) -> int, key: Keys<K>, s: seq<Node>)
    requires Keyed(key, s)
  {
    forall i, j :: 0 <= i < j < |s| ==> cmp(key[s[i]], key[s[j]]) < 0
  }

  /** All of `s` is below, or all above, `v`. */
  ghost predicate Below<K>(cmp: (K, K) -> int, key: Keys<K>, s: seq<Node>, v: K)
    requires Keyed(key, s)
  {
    forall i :: 0 <= i < |s| ==> cmp(v, key[s[i]]) > 0
  }

  ghost predicate Above<K>(cmp: (K, K) -> int, key: Keys<K>, s: seq<Node>, v: K)
    requires Keyed(key, s)
  {
    forall i :: 0 <= i < |s| ==> cmp(v, key[s[i]]) < 0
  }

  /** Nothing in `s` compares equal to `v`. */
  ghost predicate Absent<K>(cmp: (K, K) -> int, key: Keys<K>, s: seq<Node>, v: K)
    requires Keyed(key, s)
  {
    forall i :: 0 <= i < |s| ==> cmp(v, key[s[i]]) != 0
  }

  lemma OrderedParts<K(!new)>(cmp: (K, K) -> int, key: Keys<K>, a: seq<Node>, x: Node, b: seq<Node>)
    requires Keyed(key, a + [x] + b) && Ordered(cmp, key, a + [x] + b) && TotalOrder(cmp)
    ensures Keyed(key, a) && Keyed(key, b) && x in key && Ordered(cmp, key, a) && Ordered(cmp, key, b)
    ensures Below(cmp, key, a, key[x]) && Above(cmp, key, b, key[x])
  {
    var s := a + [x] + b;
    assert s[|a|] == x;
    assert forall i :: 0 <= i < |a| ==> s[i] == a[i];
    assert forall i :: 0 <= i < |b| ==> s[|a| + 1 + i] == b[i];
  }

  lemma OrderedAround<K(!new)>(cmp: (K, K) -> int, key: Keys<K>, a: seq<Node>, x: Node, b: seq<Node>)
    requires Keyed(key, a) && Keyed(key, b) && x in key && Ordered(cmp, key, a + b) && TotalOrder(cmp)
    requires Below(cmp, key, a, key[x]) && Above(cmp, key, b, key[x])
    ensures Keyed(key, a + [x] + b) && Ordered(cmp, key, a + [x] + b)
  {
    var s, r := a + [x] + b, a + b;
    forall i, j | 0 <= i < j < |s| ensures cmp(key[s[i]], key[s[j]]) < 0 {
      var i' := if i <= |a| then i else i - 1;
      var j' := if j <= |a| then j else j - 1;
      if i == |a| {
        assert s[j] == b[j - |a| - 1];
      } else if j == |a| {
        assert cmp(key[x], key[a[i]]) > 0;
      } else {
        assert s[i] == r[i'] && s[j] == r[j'];
      }
    }
  }

  lemma BeyondNode<K(!new)>(cmp: (K, K) -> int, key: Keys<K>, s: seq<Node>, x: K, v: K)
    requires TotalOrder(cmp) && Keyed(key, s)
    ensures Above(cmp, key, s, x) && cmp(v, x) < 0 ==> Above(cmp, key, s, v)
    ensures Below(cmp, key, s, x) && cmp(v, x) > 0 ==> Below(cmp, key, s, v)
  {
    forall i | 0 <= i < |s|
      ensures Above(cmp, key, s, x) && cmp(v, x) < 0 ==> cmp(v, key[s[i]]) < 0
      ensures Below(cmp, key, s, x) && cmp(v, x) > 0 ==> cmp(v, key[s[i]]) > 0
    {
      if Above(cmp, key, s, x) && cmp(v, x) < 0 {
        Transitive(cmp, v, x, key[s[i]]);
      }
      if Below(cmp, key, s, x) && cmp(v, x) > 0 {
        assert cmp(key[s[i]], x) < 0 && cmp(x, v) < 0;
        Transitive(cmp, key[s[i]], x, v);
      }
    }
  }

  /** The search keeps everything before the hole below `v` and everything after it above. */
  ghost predicate Brackets<K>(cmp: (K, K) -> int, key: Keys<K>, c: Ctx, v: K) {
    && Keyed(key, Before(c)) && Keyed(key, After(c))
    && Below(cmp, key, Before(c), v) && Above(cmp, key, After(c), v)
  }

  lemma SidesOf<K(!new)>(cmp: (K, K) -> int, key: Keys<K>, a: seq<Node>, x: Node, b: seq<Node>, v: K)
    requires TotalOrder(cmp) && Keyed(key, a + [x] + b) && Ordered(cmp, key, a + [x] + b)
    ensures x in key && Keyed(key, a + [x]) && Keyed(key, [x] + b)
    ensures cmp(v, key[x]) < 0 ==> Above(cmp, key, [x] + b, v)
    ensures cmp(v, key[x]) > 0 ==> Below(cmp, key, a + [x], v)
  {
    OrderedParts(cmp, key, a, x, b);
    BeyondNode(cmp, key, b, key[x], v);
    BeyondNode(cmp, key, a, key[x], v);
  }

  /** What the order says about the two sides of the node in focus. */
  lemma SidesOrdered<K(!new)>(cmp: (K, K) -> int, key: Keys<K>, c: Ctx, t: Shape, v: K)
    requires TotalOrder(cmp) && t.Br? && Distinct(Plug(c, t))
    requires Keyed(key, InOrder(Plug(c, t))) && Ordered(cmp, key, InOrder(Plug(c, t)))
    ensures t.node in key && Keyed(key, BeforeNode(c, t) + [t.node]) && Keyed(key, [t.node] + AfterNode(c, t))
    ensures cmp(v, key[t.node]) < 0 ==> Above(cmp, key, [t.node] + AfterNode(c, t), v)
    ensures cmp(v, key[t.node]) > 0 ==> Below(cmp, key, BeforeNode(c, t) + [t.node], v)
  {
    IndexOfFocus(c, t);
    SidesOf(cmp, key, BeforeNode(c, t), t.node, AfterNode(c, t), v);
  }

  lemma BracketsDown<K(!new)>(cmp: (K, K) -> int, key: Keys<K>, c: Ctx, t: Shape, v: K, d: Dir)
    requires TotalOrder(cmp) && t.Br? && Distinct(Plug(c, t))
    requires Keyed(key, InOrder(Plug(c, t))) && Ordered(cmp, key, InOrder(Plug(c, t)))
    requires Brackets(cmp, key, c, v) && t.node in key
    requires if d == 0 then cmp(v, key[t.node]) < 0 else cmp(v, key[t.node]) > 0
    ensures Brackets(cmp, key, SlotCtx(c, t, d), v)
  {
    SidesOrdered(cmp, key, c, t, v);
    SlotSides(c, t);
    SideDescend(c, t, d);
  }

  /** The empty hole a search ends in is an empty slot, and splits the order in two. */
  lemma FoundSlot(m: Mem, shape: Shape, c: Ctx)
    requires Rep(m, shape, null, 0) && Distinct(shape) && Plug(c, Leaf) == shape && c.Step?
    ensures c.node in m && m[c.node].Child(c.dir) == null && c.node in Nodes(shape) && c.node in InOrder(shape)
    ensures SlotIndex(InOrder(shape), Where(c.node, c.dir)) == |Before(c)|
  {
    var t := Mk(c.dir, Leaf, c.node, c.bal, c.other);
    NodeAt(m, shape, c.up, t);
    IndexOfFocus(c.up, t);
    EndSides(c.up, t);
  }

  lemma Halves(c: Ctx)
    ensures var w := InOrder(Plug(c, Leaf)); |Before(c)| <= |w| && w[..|Before(c)|] == Before(c) && w[|Before(c)|..] == After(c)
  {
    PlugInOrder(c, Leaf);
    assert Before(c) + InOrder(Leaf) + After(c) == Before(c) + After(c);
  }

  /**
   `avl_find`: the node whose key equals `value`, or the place where it would go. The search takes no more
   steps than the tree has levels.
   */
  method Find<K(!new)>(tree: Tree, cmp: (K, K) -> int, key: Keys<K>, value: K)
    returns (found: Node?, w: Where, ghost steps: nat)
    requires tree.Valid() && TotalOrder(cmp)
    requires Keyed(key, InOrder(tree.shape)) && Ordered(cmp, key, InOrder(tree.shape))
    ensures found != null ==> found in InOrder(tree.shape) && found in key && cmp(value, key[found]) == 0
    ensures found == null ==>
              && EmptySlot(tree, w)
              && var i := SlotIndex(InOrder(tree.shape), w);
                 && Keyed(key, InOrder(tree.shape)[..i]) && Below(cmp, key, InOrder(tree.shape)[..i], value)
                 && Keyed(key, InOrder(tree.shape)[i..]) && Above(cmp, key, InOrder(tree.shape)[i..], value)
    ensures steps <= Height(tree.shape)
  {
    var node: Node?, prev: Node?, child: Dir := tree.root, null, 0;
    ghost var shape, c, t, m := tree.shape, Top, tree.shape, Snap(Nodes(tree.shape));
    steps := 0;
    while node != null
      invariant Plug(c, t) == shape && node == Root(t)
      invariant prev == HoleParent(c) && (c.Step? ==> child == c.dir)
      invariant Brackets(cmp, key, c, value)
      invariant steps + Height(t) <= Height(shape)
      decreases t
    {
      prev := node;
      NodeAt(m, shape, c, t);
      SidesOrdered(cmp, key, c, t, value);
      IndexOfFocus(c, t);
      var diff := cmp(value, key[node]);
      steps := steps + 1;
      if diff == 0 {
        found, w := node, Where(null, 0);
        return;
      }
      child := if diff < 0 then 0 else 1;
      BracketsDown(cmp, key, c, t, value, child);
      SideDescend(c, t, child);
      node, c, t := node.Child(child), SlotCtx(c, t, child), t.Sub(child);
    }
    found, w := null, Where(prev, child);
    if c.Step? {
      FoundSlot(m, shape, c);
    }
    Halves(c);
  }

  // ---------- avl_add ----------

  lemma NotAbsent<K>(cmp: (K, K) -> int, key: Keys<K>, s: seq<Node>, v: K, n: Node)
    requires Keyed(key, s) && n in s && cmp(v, key[n]) == 0
    ensures !Absent(cmp, key, s, v)
  {
    var i := IndexOf(s, n);
    assert s[i] == n;
  }

  lemma SplitAbsent<K(!new)>(cmp: (K, K) -> int, key: Keys<K>, s: seq<Node>, i: nat, x: Node)
    requires TotalOrder(cmp) && i <= |s| && Keyed(key, s) && Ordered(cmp, key, s) && x in key
    requires Keyed(key, s[..i]) && Below(cmp, key, s[..i], key[x])
    requires Keyed(key, s[i..]) && Above(cmp, key, s[i..], key[x])
    ensures Absent(cmp, key, s, key[x])
    ensures Keyed(key, InsertAt(s, i, x)) && Ordered(cmp, key, InsertAt(s, i, x))
  {
    assert s == s[..i] + s[i..];
    OrderedAround(cmp, key, s[..i], x, s[i..]);
    forall j | 0 <= j < |s| ensures cmp(key[x], key[s[j]]) != 0 {
      if j < i {
        assert s[j] == s[..i][j];
      } else {
        assert s[j] == s[i..][j - i];
      }
    }
  }

  /** `avl_add`: inserts `newNode` in order, unless an equal key is already there. */
  method Add<K(!new)>(tree: Tree, cmp: (K, K) -> int, key: Keys<K>, newNode: Node) returns (ghost i: nat)
    requires tree.Valid() && TotalOrder(cmp)
    requires Keyed(key, InOrder(tree.shape)) && Ordered(cmp, key, InOrder(tree.shape))
    requires newNode in key && newNode !in Nodes(tree.shape)
    modifies tree, Nodes(tree.shape), newNode
    ensures tree.Valid() && Keyed(key, InOrder(tree.shape)) && Ordered(cmp, key, InOrder(tree.shape))
    ensures var order := old(InOrder(tree.shape));
            if Absent(cmp, key, order, key[newNode]) then
              && i <= |order| && InOrder(tree.shape) == InsertAt(order, i, newNode)
              && Nodes(tree.shape) == old(Nodes(tree.shape)) + {newNode}
            else
              InOrder(tree.shape) == order && Nodes(tree.shape) == old(Nodes(tree.shape))
  {
    i := 0;
    ghost var order := InOrder(tree.shape);
    var found, w;
    ghost var steps;
    found, w, steps := Find(tree, cmp, key, key[newNode]);
    assert Snap(Nodes(tree.shape)) == old(Snap(Nodes(tree.shape)));
    if found != null {
      NotAbsent(cmp, key, order, key[newNode], found);
      return;
    }
    i := SlotIndex(order, w);
    SplitAbsent(cmp, key, order, i, newNode);
    Insert(tree, newNode, w);
  }
}
