/** `avl_insert`. */
module AvlInsert {
  import opened AvlShape
  import opened AvlHeap
  import opened AvlRotation
  import opened AvlRotate
  import opened AvlLocate

  /** A new node put in an empty hole. */
  lemma Attach(m: Mem, m': Mem, c: Ctx, n: Node, root: Node?, root': Node?)
    requires Focus(m, c, Leaf, root) && n !in m
    requires m'.Keys == m.Keys + {n}
    requires m'[n].child0 == null && m'[n].child1 == null && m'[n].balance == 0 && m'[n].parent == HoleParent(c)
    requires c.Step? ==> m'[n].childIndex == c.dir
    requires Agree(m, m', m.Keys - HoleSet(c))
    requires if c.Top? then root' == n
             else root' == root && c.node in m && m'[c.node] == m[c.node].SetChild(c.dir, n)
    ensures Focus(m', c, Br(Leaf, n, 0, Leaf), root')
  {
    HoleRefilled(m, m', c, null, root, n, root');
  }

  // ---------- balance on the way up, when the hole's subtree has grown by one ----------

  /** The subtree in the hole is one taller than the context was balanced for. */
  ghost predicate Grown(c: Ctx, t: Shape) {
    Balanced(t) && Height(t) >= 1 && CtxBalanced(c, Height(t) - 1) && (Height(t) >= 2 ==> t.bal != 0)
  }

  /** The growth evens the node out and stops there. */
  lemma GrowLevel(c: Ctx, t: Shape)
    requires c.Step? && Grown(c, t) && c.bal + Heavy(c.dir) == 0
    ensures var u := Mk(c.dir, t, c.node, 0, c.other); Balanced(u) && CtxBalanced(c.up, Height(u))
  {
    MkBalanced(c.dir, t, c.node, 0, c.other);
  }

  /** The growth tips an even node and passes on up. */
  lemma GrowLean(c: Ctx, t: Shape)
    requires c.Step? && Grown(c, t) && c.bal == 0
    ensures Grown(c.up, Mk(c.dir, t, c.node, Heavy(c.dir), c.other))
  {
    MkBalanced(c.dir, t, c.node, Heavy(c.dir), c.other);
  }

  /** The growth unbalances the node; a rotation there takes it back. */
  lemma GrowTall(c: Ctx, t: Shape)
    requires c.Step? && Grown(c, t) && c.bal == Heavy(c.dir)
    ensures var u := Mk(c.dir, t, c.node, c.bal, c.other);
            && TooTall(c.dir, u) && t.Br? && t.bal != 0 && u.Br? && u.node == c.node && u.Sub(c.dir) == t
            && CtxBalanced(c.up, Height(u) - 1)
  {
    MkBalanced(c.dir, t, c.node, c.bal, c.other);
  }

  /** Plugging a node's parent in is plugging the node in. */
  lemma PlugUp(c: Ctx, t: Shape, b: int)
    requires c.Step?
    ensures Before(c) + InOrder(t) + After(c)
         == Before(c.up) + InOrder(Mk(c.dir, t, c.node, b, c.other)) + After(c.up)
    ensures CtxNodes(c) + Nodes(t) == CtxNodes(c.up) + Nodes(Mk(c.dir, t, c.node, b, c.other))
  {
    MkInOrder(c.dir, t, c.node, b, c.other);
    if c.dir == 0 {
      Regroup(Before(c.up), InOrder(t), [c.node], InOrder(c.other), After(c.up));
    } else {
      Regroup(Before(c.up), InOrder(c.other), [c.node], InOrder(t), After(c.up));
    }
  }

  /** The growth stops at `node`, and the tree is settled. */
  method StopGrown(tree: Tree, node: Node, ghost c: Ctx, ghost t: Shape, ghost s: set<Node>, ghost order: seq<Node>)
    requires Focus(Snap(s), c, t, tree.root) && Grown(c, t) && s == CtxNodes(c) + Nodes(t)
    requires c.Step? && node == c.node && c.bal + Heavy(c.dir) == 0 && order == Before(c) + InOrder(t) + After(c)
    modifies tree`shape, s
    ensures Settled(tree, s, order)
  {
    GrowLevel(c, t);
    PlugUp(c, t, 0);
    StoreBalance(tree, node, 0, c, t, s);
    Settle(tree, c.up, Mk(c.dir, t, node, 0, c.other), s, order);
  }

  /** A grown subtree unbalances `node`: one rotation there takes the growth back. */
  method RotateGrown(tree: Tree, node: Node, balance: int, ghost c: Ctx, ghost t: Shape, ghost s: set<Node>)
    returns (ghost r: Shape)
    requires Focus(Snap(s), c, t, tree.root) && Grown(c, t) && s == CtxNodes(c) + Nodes(t)
    requires c.Step? && node == c.node && c.bal == Heavy(c.dir) && balance == 2 * c.bal
    modifies tree`root, s
    ensures Focus(Snap(s), c.up, r, tree.root) && s == CtxNodes(c.up) + Nodes(r)
    ensures Before(c.up) + InOrder(r) + After(c.up) == Before(c) + InOrder(t) + After(c)
    ensures Balanced(r) && CtxBalanced(c.up, Height(r))
  {
    GrowTall(c, t);
    PlugUp(c, t, c.bal);
    StoreBalance(tree, node, node.balance, c, t, s);
    var shorter;
    shorter, r := Rotation(tree, node, balance, c.up, Mk(c.dir, t, node, c.bal, c.other), s);
  }

  /** The growth passes `node` by. */
  method PassGrown(tree: Tree, node: Node, balance: int, ghost c: Ctx, ghost t: Shape, ghost s: set<Node>, ghost order: seq<Node>)
    returns (ghost u: Shape)
    requires Focus(Snap(s), c, t, tree.root) && Grown(c, t) && s == CtxNodes(c) + Nodes(t)
    requires c.Step? && node == c.node && c.bal == 0 && balance == Heavy(c.dir) && order == Before(c) + InOrder(t) + After(c)
    modifies s
    ensures Focus(Snap(s), c.up, u, tree.root) && Grown(c.up, u) && s == CtxNodes(c.up) + Nodes(u)
    ensures order == Before(c.up) + InOrder(u) + After(c.up) && u.Br? && u.node == node
  {
    GrowLean(c, t);
    PlugUp(c, t, balance);
    StoreBalance(tree, node, balance, c, t, s);
    u := Mk(c.dir, t, node, balance, c.other);
  }

  /** The upward loop of `avl_insert`: rebalances from the hole of `c0`, whose subtree `t0` has grown. */
  method RebalanceGrown(tree: Tree, ghost c0: Ctx, ghost t0: Shape, ghost s: set<Node>, parent0: Node?, which0: Dir)
    requires Focus(Snap(s), c0, t0, tree.root) && Grown(c0, t0)
    requires s == CtxNodes(c0) + Nodes(t0)
    requires parent0 == HoleParent(c0) && (c0.Step? ==> which0 == c0.dir)
    modifies tree`root, tree`shape, s
    ensures Settled(tree, s, Before(c0) + InOrder(t0) + After(c0))
  {
    var parent, whichChild := parent0, which0;
    ghost var c, t := c0, t0;
    ghost var order := Before(c) + InOrder(t) + After(c);
    while true
      invariant Focus(Snap(s), c, t, tree.root) && Grown(c, t)
      invariant s == CtxNodes(c) + Nodes(t)
      invariant parent == HoleParent(c) && (c.Step? ==> whichChild == c.dir)
      invariant order == Before(c) + InOrder(t) + After(c)
      decreases c
    {
      var node := parent;
      if node == null {
        Settle(tree, c, t, s, order);
        return;
      }
      HoleNode(Snap(s), c, t, tree.root);
      var oldBalance := node.balance;
      var newBalance := oldBalance + Heavy(whichChild);
      if newBalance == 0 {
        StopGrown(tree, node, c, t, s, order);
        return;
      }
      if oldBalance != 0 {
        ghost var r := RotateGrown(tree, node, newBalance, c, t, s);
        Settle(tree, c.up, r, s, order);
        return;
      }
      t := PassGrown(tree, node, newBalance, c, t, s, order);
      c := c.up;
      parent := node.parent;
      whichChild := node.childIndex;
    }
  }

  // ---------- avl_insert ----------

  /** An insertion point, `avl_index_t`: side `child` of `node`, or the root of an empty tree. */
  datatype Where = Where(node: Node?, child: Dir)

  ghost predicate EmptySlot(tree: Tree, w: Where)
    reads tree, w.node
  {
    if w.node == null then tree.root == null
    else w.node in InOrder(tree.shape) && w.node.Child(w.child) == null
  }

  /** The place in `order` that the insertion point stands for. */
  ghost function SlotIndex(order: seq<Node>, w: Where): (i: nat)
    requires w.node != null ==> w.node in order
    ensures i <= |order|
  {
    if w.node == null then 0 else IndexOf<Node>(order, w.node) + w.child
  }

  /** The context of an empty slot. */
  ghost function SlotAt(t: Shape, w: Where): (h: Ctx)
    requires w.node != null ==> w.node in Nodes(t)
  {
    if w.node == null then Top
    else var (c, u) := Locate(Top, t, w.node); SlotCtx(c, u, w.child)
  }

  /** The slot's child pointer is null, so its subtree is empty. */
  lemma SlotEmpty(m: Mem, t: Shape, n: Node, d: Dir)
    requires Rep(m, t, null, 0) && Nodes(t) <= m.Keys && n in Nodes(t) && m[n].Child(d) == null
    ensures Locate(Top, t, n).1.Sub(d) == Leaf
  {
    var (c, u) := Locate(Top, t, n);
    RepPlug(m, c, u, Root(t));
  }

  /** The hole an insertion point names is empty, and filling it inserts at the point's place in order. */
  lemma SlotOpens(m: Mem, t: Shape, w: Where, x: Node)
    requires Rep(m, t, null, 0) && Distinct(t) && m.Keys == Nodes(t)
    requires if w.node == null then t == Leaf else w.node in Nodes(t) && m[w.node].Child(w.child) == null
    ensures Plug(SlotAt(t, w), Leaf) == t && (w.node != null ==> w.node in InOrder(t))
    ensures Before(SlotAt(t, w)) + [x] + After(SlotAt(t, w)) == InsertAt(InOrder(t), SlotIndex(InOrder(t), w), x)
  {
    if w.node != null {
      var (c, u) := Locate(Top, t, w.node);
      SlotEmpty(m, t, w.node, w.child);
      SlotOrder(c, u, w.child, x);
      assert Plug(c, u) == t && SlotAt(t, w) == SlotCtx(c, u, w.child);
    } else {
      assert InsertAt(InOrder(t), 0, x) == [x];
    }
  }

  /** Makes `node` a leaf in the empty hole. */
  method AttachNode(tree: Tree, node: Node, w: Where, ghost h: Ctx, ghost s: set<Node>)
    requires Focus(Snap(s), h, Leaf, tree.root) && node !in s
    requires w.node == HoleParent(h) && (h.Step? ==> w.child == h.dir)
    modifies tree`root, node, w.node
    ensures Focus(Snap(s + {node}), h, Br(Leaf, node, 0, Leaf), tree.root)
  {
    ghost var m, root := Snap(s), tree.root;
    assert h.Step? ==> h.node in CtxNodes(h);
    node.child0 := null;
    node.child1 := null;
    node.childIndex := w.child;
    node.balance := 0;
    node.parent := w.node;
    SetHole(tree, w.node, w.child, node);
    Attach(m, Snap(s + {node}), h, node, root, tree.root);
  }

  method InsertInHole(tree: Tree, node: Node, w: Where, ghost h: Ctx, ghost s: set<Node>)
    requires Focus(Snap(s), h, Leaf, tree.root) && node !in s && s == CtxNodes(h) && CtxBalanced(h, 0)
    requires w.node == HoleParent(h) && (h.Step? ==> w.child == h.dir)
    modifies tree`root, tree`shape, s, node
    ensures Settled(tree, s + {node}, Before(h) + [node] + After(h))
  {
    AttachNode(tree, node, w, h, s);
    ghost var t := Br(Leaf, node, 0, Leaf);
    assert InOrder(t) == [node] && Nodes(t) == {node};
    RebalanceGrown(tree, h, t, s + {node}, w.node, w.child);
  }

  /** Inserts `node` at the given empty place. */
  method Insert(tree: Tree, node: Node, w: Where)
    requires tree.Valid() && node !in Nodes(tree.shape) && EmptySlot(tree, w)
    modifies tree, Nodes(tree.shape), node
    ensures tree.Valid() && Nodes(tree.shape) == old(Nodes(tree.shape)) + {node}
    ensures InOrder(tree.shape) == old(InsertAt(InOrder(tree.shape), SlotIndex(InOrder(tree.shape), w), node))
  {
    ghost var s, t := Nodes(tree.shape), tree.shape;
    if w.node != null { NodesInOrder(t, w.node); }
    ghost var h := SlotAt(t, w);
    SlotOpens(Snap(s), t, w, node);
    Refocus(Snap(s), h, Leaf, tree.root);
    PlugBalanced(h, Leaf);
    PlugNodes(h, Leaf);
    tree.numNodes := tree.numNodes + 1;
    InsertInHole(tree, node, w, h, s);
  }
}
