/** `avl_remove`. */
module AvlRemove {
  import opened AvlShape
  import opened AvlHeap
  import opened AvlRotation
  import opened AvlRotate
  import opened AvlLocate
  import opened AvlInsert
  import opened AvlWalk
  import opened AvlSwap

  // ---------- balance on the way up, when the hole's subtree has shrunk by one ----------

  /** The subtree in the hole is one shorter than the context was balanced for. */
  ghost predicate Shrunk(c: Ctx, t: Shape) {
    Balanced(t) && CtxBalanced(c, Height(t) + 1)
  }

  /** An even node tips towards the other side and the change stops there. */
  lemma ShrinkLean(c: Ctx, t: Shape)
    requires c.Step? && Shrunk(c, t) && c.bal == 0
    ensures var u := Mk(c.dir, t, c.node, -Heavy(c.dir), c.other); Balanced(u) && CtxBalanced(c.up, Height(u))
  {
    MkBalanced(c.dir, t, c.node, -Heavy(c.dir), c.other);
  }

  /** A node heavy on the hole's side evens out and passes the change on up. */
  lemma ShrinkLevel(c: Ctx, t: Shape)
    requires c.Step? && Shrunk(c, t) && c.bal == Heavy(c.dir)
    ensures Shrunk(c.up, Mk(c.dir, t, c.node, 0, c.other))
  {
    MkBalanced(c.dir, t, c.node, 0, c.other);
  }

  /** A node heavy on the other side becomes too tall there. */
  lemma ShrinkTall(c: Ctx, t: Shape)
    requires c.Step? && Shrunk(c, t) && c.bal == -Heavy(c.dir)
    ensures var u := Mk(c.dir, t, c.node, c.bal, c.other);
            TooTall(1 - c.dir, u) && c.other.Br? && CtxBalanced(c.up, Height(u))
  {
    MkBalanced(c.dir, t, c.node, c.bal, c.other);
  }

  /** The upward loop of `avl_remove`: rebalances from the hole of `c0`, whose subtree `t0` has shrunk. */
  method RebalanceShrunk(tree: Tree, ghost c0: Ctx, ghost t0: Shape, ghost s: set<Node>, parent0: Node, which0: Dir,
                         ghost order: seq<Node>)
    requires Focus(Snap(s), c0, t0, tree.root) && Shrunk(c0, t0)
    requires s == CtxNodes(c0) + Nodes(t0) && order == Before(c0) + InOrder(t0) + After(c0)
    requires c0.Step? && parent0 == c0.node && which0 == c0.dir
    modifies tree`root, tree`shape, s
    ensures Settled(tree, s, order)
  {
    var parent: Node?, whichChild := parent0, which0;
    ghost var c, t := c0, t0;
    while parent != null
      invariant Focus(Snap(s), c, t, tree.root) && Shrunk(c, t)
      invariant s == CtxNodes(c) + Nodes(t)
      invariant parent == HoleParent(c) && (c.Step? ==> whichChild == c.dir)
      invariant order == Before(c) + InOrder(t) + After(c)
      decreases c
    {
      HoleNode(Snap(s), c, t, tree.root);
      var node: Node := parent;
      var oldBalance := node.balance;
      var newBalance := oldBalance - Heavy(whichChild);
      parent := node.parent;
      whichChild := node.childIndex;
      if oldBalance == 0 {
        ShrinkLean(c, t);
        PlugUp(c, t, newBalance);
        StoreBalance(tree, node, newBalance, c, t, s);
        Settle(tree, c.up, Mk(c.dir, t, node, newBalance, c.other), s, order);
        return;
      }
      if newBalance == 0 {
        ShrinkLevel(c, t);
        PlugUp(c, t, 0);
        StoreBalance(tree, node, newBalance, c, t, s);
        c, t := c.up, Mk(c.dir, t, node, 0, c.other);
      } else {
        var shorter;
        ghost var r;
        shorter, r := RotateShrunk(tree, node, newBalance, c, t, s);
        if !shorter {
          Settle(tree, c.up, r, s, order);
          return;
        }
        c, t := c.up, r;
      }
    }
    Settle(tree, c, t, s, order);
  }

  /** A shrunk subtree leaves `node` too tall on the other side: rotate there. */
  method RotateShrunk(tree: Tree, node: Node, balance: int, ghost c: Ctx, ghost t: Shape, ghost s: set<Node>)
    returns (shorter: bool, ghost r: Shape)
    requires Focus(Snap(s), c, t, tree.root) && Shrunk(c, t) && s == CtxNodes(c) + Nodes(t)
    requires c.Step? && node == c.node && c.bal == -Heavy(c.dir) && balance == 2 * c.bal
    modifies tree`root, s
    ensures Focus(Snap(s), c.up, r, tree.root) && s == CtxNodes(c.up) + Nodes(r)
    ensures Before(c.up) + InOrder(r) + After(c.up) == Before(c) + InOrder(t) + After(c)
    ensures if shorter then Shrunk(c.up, r) else Balanced(r) && CtxBalanced(c.up, Height(r))
  {
    ShrinkTall(c, t);
    PlugUp(c, t, c.bal);
    StoreBalance(tree, node, node.balance, c, t, s);
    shorter, r := Rotation(tree, node, balance, c.up, Mk(c.dir, t, node, c.bal, c.other), s);
  }

  // ---------- unlinking a node with at most one child ----------

  lemma UnlinkReady(m: Mem, c: Ctx, d: Dir, u: Shape, del: Node, b: int, root: Node?)
    requires Focus(m, c, Mk(d, u, del, b, Leaf), root)
    ensures del in m && m[del].Child(d) == Root(u) && m[del].Child(1 - d) == null
    ensures m[del].parent == HoleParent(c) && (c.Step? ==> m[del].childIndex == c.dir)
    ensures RootSet(u) <= m.Keys && HoleSet(c) <= m.Keys && del !in RootSet(u) && del !in HoleSet(c) && RootSet(u) !! HoleSet(c)
  {
    RepMk(m, d, u, del, b, Leaf, HoleParent(c), HoleDir(c));
    MkInOrder(d, u, del, b, Leaf);
  }

  lemma UnlinkFocus(m: Mem, m': Mem, c: Ctx, d: Dir, u: Shape, del: Node, b: int, root: Node?, root': Node?)
    requires Focus(m, c, Mk(d, u, del, b, Leaf), root) && del in m
    requires m'.Keys == m.Keys - {del}
    requires u.Br? ==> u.node in m && u.node in m' && m'[u.node] == m[u.node].(parent := m[del].parent, childIndex := m[del].childIndex)
    requires if c.Top? then root' == Root(u)
             else root' == root && c.node in m && c.node in m' && m'[c.node] == m[c.node].SetChild(c.dir, Root(u))
    requires Agree(m, m', m.Keys - {del} - RootSet(u) - HoleSet(c))
    ensures Focus(m', c, u, root')
  {
    UnlinkReady(m, c, d, u, del, b, root);
    RepMk(m, d, u, del, b, Leaf, HoleParent(c), HoleDir(c));
    MkInOrder(d, u, del, b, Leaf);
    RepRehang(m, m', u, del, d, HoleParent(c), m[del].childIndex);
    HoleRefilled(m, m', c, del, root, Root(u), root');
  }

  /** Connects the parent of `delete` directly to its only child. */
  method Unlink(tree: Tree, delete: Node, ghost c: Ctx, ghost d: Dir, ghost u: Shape, ghost b: int, ghost s: set<Node>)
    returns (parent: Node?, whichChild: Dir)
    requires Focus(Snap(s), c, Mk(d, u, delete, b, Leaf), tree.root)
    modifies tree`root, s
    ensures Focus(Snap(s - {delete}), c, u, tree.root)
    ensures parent == HoleParent(c) && (c.Step? ==> whichChild == c.dir)
  {
    ghost var m, root := Snap(s), tree.root;
    UnlinkReady(m, c, d, u, delete, b, root);
    parent, whichChild := delete.parent, delete.childIndex;
    var node := if delete.child0 != null then delete.child0 else delete.child1;
    assert node == Root(u);
    if node != null {
      node.parent := parent;
      node.childIndex := whichChild;
    }
    SetHole(tree, parent, whichChild, node);
    UnlinkFocus(m, Snap(s - {delete}), c, d, u, delete, b, root, tree.root);
  }

  /** Removes `delete`, which has at most one child, and rebalances. */
  method RemoveThin(tree: Tree, delete: Node, ghost c: Ctx, ghost d: Dir, ghost u: Shape, ghost b: int, ghost s: set<Node>,
                    ghost h: nat, ghost order: seq<Node>)
    requires Focus(Snap(s), c, Mk(d, u, delete, b, Leaf), tree.root) && order == Before(c) + InOrder(u) + After(c)
    requires Balanced(u) && h == Height(u) + 1 && CtxBalanced(c, h) && s == CtxNodes(c) + Nodes(u) + {delete}
    modifies tree`root, tree`shape, s
    ensures Settled(tree, s - {delete}, order)
  {
    MkInOrder(d, u, delete, b, Leaf);
    var parent, whichChild := Unlink(tree, delete, c, d, u, b, s);
    if parent == null {
      Settle(tree, c, u, s - {delete}, order);
      return;
    }
    RebalanceShrunk(tree, c, u, s - {delete}, parent, whichChild, order);
  }

  // ---------- avl_remove ----------

  lemma {:induction false} UnderSides(inner: Ctx, outer: Ctx)
    ensures Before(Under(inner, outer)) == Before(outer) + Before(inner)
    ensures After(Under(inner, outer)) == After(inner) + After(outer)
  {
    if inner.Step? {
      UnderSides(inner.up, outer);
      if inner.dir == 0 {
        Assoc([inner.node], InOrder(inner.other), After(inner.up), After(outer));
      } else {
        Assoc(Before(outer), Before(inner.up), InOrder(inner.other), [inner.node]);
      }
    }
  }

  lemma Assoc<T>(a: seq<T>, b: seq<T>, c: seq<T>, d: seq<T>)
    ensures (a + b + c) + d == a + b + (c + d)
    ensures (a + b) + c + d == a + (b + c + d)
  {
  }

  /** Which node stands above the inner path does not matter for balance. */
  lemma {:induction false} DeepBalanced(inner: Ctx, c: Ctx, y: Node, y': Node, d: Dir, b: int, o: Shape, h: nat)
    requires CtxBalanced(Under(inner, Step(c, y, d, b, o)), h)
    ensures CtxBalanced(Under(inner, Step(c, y', d, b, o)), h)
  {
    if inner.Step? {
      DeepBalanced(inner.up, c, y, y', d, b, o, 1 + Max(h, Height(inner.other)));
    }
  }

  /** A node with an empty side is as tall as its other subtree and one more. */
  lemma ThinBalanced(c: Ctx, d: Dir, u: Shape, n: Node, b: int, h: nat)
    requires Balanced(Plug(c, Mk(d, u, n, b, Leaf))) && h == Height(u) + 1
    ensures Balanced(u) && CtxBalanced(c, h)
  {
    PlugBalanced(c, Mk(d, u, n, b, Leaf));
    MkBalanced(d, u, n, b, Leaf);
  }

  lemma ThreeParts<T>(a: seq<T>, b: seq<T>, c: seq<T>)
    ensures a + (b + c) == a + b + c && (a + b) + ([] + c) == a + b + c && (a + []) + (b + c) == a + b + c
  {
  }

  lemma ThinSides(c: Ctx, d: Dir, u: Shape, n: Node, b: int)
    ensures var t := Mk(d, u, n, b, Leaf); BeforeNode(c, t) + AfterNode(c, t) == Before(c) + InOrder(u) + After(c)
  {
    ThreeParts(Before(c), InOrder(u), After(c));
  }

  /** Taking a node with an empty side out of the order. */
  lemma ThinOrder(c: Ctx, d: Dir, u: Shape, n: Node, b: int)
    requires Distinct(Plug(c, Mk(d, u, n, b, Leaf)))
    ensures var w := InOrder(Plug(c, Mk(d, u, n, b, Leaf)));
            n in w && Before(c) + InOrder(u) + After(c) == RemoveAt(w, IndexOf(w, n))
  {
    var t := Mk(d, u, n, b, Leaf);
    IndexOfFocus(c, t);
    RemoveMid(BeforeNode(c, t), n, AfterNode(c, t));
    ThinSides(c, d, u, n, b);
  }

  lemma RegroupSix<T>(a: seq<T>, b: seq<T>, c: seq<T>, d: seq<T>, e: seq<T>, f: seq<T>)
    ensures (a + (b + c + d)) + (e + f) == (a + b) + c + (d + e + f)
    ensures (a + b) + ((c + d + e) + f) == (a + b + c) + d + (e + f)
  {
  }

  /** The parts of the order around a site. */
  lemma SiteOrder(w: Site)
    requires Side(w.inner, 1 - w.left) == []
    ensures var t, n := w.Whole(w.node, w.del), [w.node];
            if w.left == 0 then
              && BeforeNode(w.c, t) == Before(w.c) + (Before(w.inner) + InOrder(w.a) + n)
              && AfterNode(w.c, t) == InOrder(w.far) + After(w.c)
            else
              && BeforeNode(w.c, t) == Before(w.c) + InOrder(w.far)
              && AfterNode(w.c, t) == (n + InOrder(w.a) + After(w.inner)) + After(w.c)
  {
    PlugInOrder(w.inner, w.Thin(w.node));
    var l := InOrder(Plug(w.inner, w.Thin(w.node)));
    if w.left == 0 {
      assert l == Before(w.inner) + InOrder(w.a) + [w.node];
    } else {
      assert l == [w.node] + InOrder(w.a) + After(w.inner);
    }
  }

  /** The order left when `node` has gone up to the place of `del`. */
  lemma SwapOrder(w: Site)
    requires Side(w.inner, 1 - w.left) == [] && Distinct(Plug(w.c, w.Whole(w.node, w.del)))
    ensures var order := InOrder(Plug(w.c, w.Whole(w.node, w.del)));
            && w.del in order
            && Before(w.Deep(w.node)) + InOrder(w.a) + After(w.Deep(w.node)) == RemoveAt(order, IndexOf(order, w.del))
  {
    var t := w.Whole(w.node, w.del);
    IndexOfFocus(w.c, t);
    RemoveMid(BeforeNode(w.c, t), w.del, AfterNode(w.c, t));
    SiteOrder(w);
    var hole := Step(w.c, w.node, w.left, w.b, w.far);
    UnderSides(w.inner, hole);
    var a, bc, ac, f := InOrder(w.a), Before(w.c), After(w.c), InOrder(w.far);
    if w.left == 0 {
      assert After(w.Deep(w.node)) == After(hole);
      RegroupSix(bc, Before(w.inner), a, [w.node], f, ac);
    } else {
      assert Before(w.Deep(w.node)) == Before(hole);
      RegroupSix(bc, f, [w.node], a, After(w.inner), ac);
    }
  }

  /** What a swap at a site of the tree starts from. */
  lemma WideReady(m: Mem, w: Site, shape: Shape, root: Node?, h: nat)
    requires Rep(m, shape, null, 0) && root == Root(shape) && Distinct(shape) && Balanced(shape) && m.Keys == Nodes(shape)
    requires shape == Plug(w.c, w.Whole(w.node, w.del)) && Side(w.inner, 1 - w.left) == [] && h == Height(w.a) + 1
    ensures Focus(m, w.c, w.Whole(w.node, w.del), root) && m.Keys == CtxNodes(w.c) + Nodes(w.Whole(w.node, w.del))
    ensures Balanced(w.a) && CtxBalanced(w.Deep(w.node), h)
    ensures var order := InOrder(shape);
            && w.del in order
            && Before(w.Deep(w.node)) + InOrder(w.a) + After(w.Deep(w.node)) == RemoveAt(order, IndexOf(order, w.del))
  {
    Refocus(m, w.c, w.Whole(w.node, w.del), root);
    PlugNodes(w.c, w.Whole(w.node, w.del));
    SwapOrder(w);
    PlugUnder(w.inner, Step(w.c, w.del, w.left, w.b, w.far), w.Thin(w.node));
    ThinBalanced(w.Deep(w.del), w.left, w.a, w.node, w.nb, h);
    DeepBalanced(w.inner, w.c, w.del, w.node, w.left, w.b, w.far, h);
  }

  /** Removes a node with two children by way of its neighbour on the taller side. */
  method RemoveWide(tree: Tree, delete: Node, ghost c: Ctx, ghost t: Shape)
    requires Settled(tree, Nodes(tree.shape), InOrder(tree.shape))
    requires t.Br? && t.left.Br? && t.right.Br? && Plug(c, t) == tree.shape && t.node == delete
    modifies tree`root, tree`shape, Nodes(tree.shape)
    ensures var order := old(InOrder(tree.shape));
            delete in order && Settled(tree, old(Nodes(tree.shape)) - {delete}, RemoveAt(order, IndexOf(order, delete)))
  {
    ghost var shape, s := tree.shape, Nodes(tree.shape);
    NodeAt(Snap(s), shape, c, t);
    var left: Dir := if delete.balance == 1 then 1 else 0;
    var node;
    ghost var inner, u;
    node, inner, u := GoDown(delete.Child(left), 1 - left, shape, SlotCtx(c, t, left), t.Sub(left));
    ghost var w := Site(left, c, delete, t.bal, t.Sub(1 - left), inner, u.Sub(left), node, u.bal);
    assert w.Thin(node) == u && w.Whole(node, delete) == t;
    assert Snap(s) == old(Snap(Nodes(tree.shape)));
    ghost var h := Height(w.a) + 1;
    WideReady(Snap(s), w, shape, tree.root, h);
    RemoveSwapped(tree, delete, node, left, w, s, h, Before(w.Deep(node)) + InOrder(w.a) + After(w.Deep(node)));
  }

  method RemoveSwapped(tree: Tree, delete: Node, node: Node, left: Dir, ghost w: Site, ghost s: set<Node>, ghost h: nat,
                       ghost order: seq<Node>)
    requires order == Before(w.Deep(node)) + InOrder(w.a) + After(w.Deep(node))
    requires w.far.Br? && Focus(Snap(s), w.c, w.Whole(node, delete), tree.root)
    requires w.left == left && w.del == delete && w.node == node && s == CtxNodes(w.c) + Nodes(w.Whole(node, delete))
    requires Balanced(w.a) && h == Height(w.a) + 1 && CtxBalanced(w.Deep(node), h)
    modifies tree`root, tree`shape, s
    ensures Settled(tree, s - {delete}, order)
  {
    ghost var m, root := Snap(s), tree.root;
    var tmp := Swap(tree, delete, node, left, w, s);
    SwapLeaves(m, w, root, tmp, s);
    RemoveThin(tree, tmp, w.Deep(node), left, w.a, w.nb, s + {tmp} - {delete}, h, order);
  }

  lemma ThinNodes(c: Ctx, d: Dir, u: Shape, n: Node, b: int)
    ensures Nodes(Plug(c, Mk(d, u, n, b, Leaf))) == CtxNodes(c) + Nodes(u) + {n}
  {
    PlugNodes(c, Mk(d, u, n, b, Leaf));
    MkInOrder(d, u, n, b, Leaf);
  }

  /** Removes a node with at most one child. */
  method RemoveNarrow(tree: Tree, delete: Node, ghost c: Ctx, ghost t: Shape)
    requires Settled(tree, Nodes(tree.shape), InOrder(tree.shape))
    requires t.Br? && (t.left == Leaf || t.right == Leaf) && Plug(c, t) == tree.shape && t.node == delete
    modifies tree`root, tree`shape, Nodes(tree.shape)
    ensures var order := old(InOrder(tree.shape));
            delete in order && Settled(tree, old(Nodes(tree.shape)) - {delete}, RemoveAt(order, IndexOf(order, delete)))
  {
    ghost var s := Nodes(tree.shape);
    ghost var d: Dir := if t.left.Br? then 0 else 1;
    ghost var u := t.Sub(d);
    assert t == Mk(d, u, delete, t.bal, Leaf);
    ghost var h := Height(u) + 1;
    Refocus(Snap(s), c, t, tree.root);
    ThinBalanced(c, d, u, delete, t.bal, h);
    ThinOrder(c, d, u, delete, t.bal);
    ThinNodes(c, d, u, delete, t.bal);
    RemoveThin(tree, delete, c, d, u, t.bal, s, h, Before(c) + InOrder(u) + After(c));
  }

  /** `avl_remove`: takes any member out of the tree. */
  method Remove(tree: Tree, delete: Node)
    requires tree.Valid() && delete in InOrder(tree.shape)
    modifies tree, Nodes(tree.shape)
    ensures tree.Valid() && Nodes(tree.shape) == old(Nodes(tree.shape)) - {delete}
    ensures var order := old(InOrder(tree.shape)); InOrder(tree.shape) == RemoveAt(order, IndexOf(order, delete))
  {
    ghost var shape, s := tree.shape, Nodes(tree.shape);
    NodesInOrder(shape, delete);
    ghost var (c, t) := Locate(Top, shape, delete);
    NodeAt(Snap(s), shape, c, t);
    tree.numNodes := tree.numNodes - 1;
    assert Snap(s) == old(Snap(Nodes(tree.shape)));
    if delete.child0 != null && delete.child1 != null {
      RemoveWide(tree, delete, c, t);
    } else {
      RemoveNarrow(tree, delete, c, t);
    }
  }
}
