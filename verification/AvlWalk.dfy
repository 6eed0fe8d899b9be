/** Moving around a tree: `avl_first`, `avl_last`, `avl_walk`, `avl_nearest`, `avl_insert_here`. */
module AvlWalk {
  import opened AvlShape
  import opened AvlHeap
  import opened AvlLocate
  import opened AvlInsert

  /** The memory under a node anywhere in the tree. */
  lemma NodeAt(m: Mem, w: Shape, c: Ctx, t: Shape)
    requires Rep(m, w, null, 0) && Plug(c, t) == w && t.Br?
    ensures t.node in m && m[t.node].parent == HoleParent(c) && (c.Step? ==> m[t.node].childIndex == c.dir)
    ensures m[t.node].balance == t.bal && m[t.node].child0 == Root(t.left) && m[t.node].child1 == Root(t.right)
    ensures t.node in Nodes(w)
  {
    RepPlug(m, c, t, Root(w));
    PlugNodes(c, t);
  }

  /** What lies on side `d` of the hole. */
  function Side(c: Ctx, d: Dir): seq<Node> {
    if d == 0 then Before(c) else After(c)
  }

  /** Going down on side `d` does not change what lies beyond the hole there. */
  lemma SideDescend(c: Ctx, t: Shape, d: Dir)
    requires t.Br?
    ensures Side(SlotCtx(c, t, d), d) == Side(c, d)
    ensures Plug(SlotCtx(c, t, d), t.Sub(d)) == Plug(c, t)
  {
  }

  /** The neighbour of place `i` on side `d`, or null at the end. */
  function Neighbour(order: seq<Node>, i: nat, d: Dir): (n: Node?)
    requires i < |order|
  {
    if d == 0 then (if i == 0 then null else order[i - 1])
    else if i + 1 < |order| then order[i + 1] else null
  }

  /** `n` is what comes nearest on side `d` of a hole whose `Side` is `s`. */
  function Closest(s: seq<Node>, d: Dir): (n: Node?) {
    if s == [] then null else if d == 0 then s[|s| - 1] else s[0]
  }

  /** With nothing under it on side `d`, a node's neighbour there is the nearest thing beyond its subtree. */
  lemma NeighbourBeyond(c: Ctx, t: Shape, d: Dir)
    requires t.Br? && t.Sub(d) == Leaf && Distinct(Plug(c, t))
    ensures var w := InOrder(Plug(c, t)); t.node in w && Neighbour(w, IndexOf(w, t.node), d) == Closest(Side(c, d), d)
  {
    IndexOfFocus(c, t);
    var w, a, b := InOrder(Plug(c, t)), BeforeNode(c, t), AfterNode(c, t);
    assert d == 0 ==> a == Side(c, d);
    assert d == 1 ==> b == Side(c, d);
    assert a != [] ==> w[|a| - 1] == a[|a| - 1];
    assert b != [] ==> w[|a| + 1] == b[0];
  }

  /** Down from `start` on side `d` as far as it goes; `inner` is the path taken. */
  method GoDown(start: Node, d: Dir, ghost w: Shape, ghost c0: Ctx, ghost t0: Shape)
    returns (node: Node, ghost inner: Ctx, ghost t: Shape)
    requires Rep(Snap(Nodes(w)), w, null, 0) && Plug(c0, t0) == w && t0.Br? && start == t0.node
    ensures t.Br? && node == t.node && t.Sub(d) == Leaf
    ensures Plug(inner, t) == t0 && Plug(Under(inner, c0), t) == w
    ensures Side(inner, d) == [] && Side(Under(inner, c0), d) == Side(c0, d)
  {
    node, t, inner := start, t0, Top;
    ghost var c := c0;
    NodeAt(Snap(Nodes(w)), w, c, t);
    while node.Child(d) != null
      invariant Plug(c, t) == w && t.Br? && node == t.node && node in Nodes(w)
      invariant node.Child(d) == Root(t.Sub(d))
      invariant Plug(inner, t) == t0 && c == Under(inner, c0)
      invariant Side(inner, d) == [] && Side(c, d) == Side(c0, d)
      decreases t
    {
      SideDescend(c, t, d);
      SideDescend(inner, t, d);
      inner := SlotCtx(inner, t, d);
      node, c, t := node.Child(d), SlotCtx(c, t, d), t.Sub(d);
      NodeAt(Snap(Nodes(w)), w, c, t);
    }
  }

  lemma SameTail<T>(a: seq<T>, x: T, b: seq<T>, a': seq<T>, y: T)
    requires a + [x] + b == a' + [y] + ([x] + b)
    ensures |a| == |a'| + 1 && (a + [x] + b)[|a| - 1] == y
  {
    assert (a' + [y] + ([x] + b))[|a'|] == y;
  }

  lemma SameHead<T>(a: seq<T>, x: T, b: seq<T>, y: T, b': seq<T>)
    requires a + [x] + b == (a + [x]) + [y] + b'
    ensures |a| + 1 < |a + [x] + b| && (a + [x] + b)[|a| + 1] == y
  {
    assert ((a + [x]) + [y] + b')[|a| + 1] == y;
  }

  lemma SlotSides(c: Ctx, t: Shape)
    requires t.Br?
    ensures After(SlotCtx(c, t, 0)) == [t.node] + AfterNode(c, t)
    ensures Before(SlotCtx(c, t, 1)) == BeforeNode(c, t) + [t.node]
  {
  }

  lemma EndSides(c: Ctx, t: Shape)
    requires t.Br?
    ensures t.left == Leaf ==> BeforeNode(c, t) == Before(c)
    ensures t.right == Leaf ==> AfterNode(c, t) == After(c)
  {
  }

  /** One step down on side `d` and then all the way on the other side is the neighbour on side `d`. */
  lemma NeighbourUnder(c0: Ctx, t0: Shape, d: Dir, c: Ctx, t: Shape)
    requires t0.Br? && Distinct(Plug(c0, t0)) && Plug(c, t) == Plug(c0, t0)
    requires t.Br? && t.Sub(1 - d) == Leaf && Side(c, 1 - d) == Side(SlotCtx(c0, t0, d), 1 - d)
    ensures var w := InOrder(Plug(c0, t0));
            && t0.node in w && t.node in w && Neighbour(w, IndexOf(w, t0.node), d) == t.node
            && IndexOf(w, t.node) + (1 - d) == IndexOf(w, t0.node) + d
  {
    IndexOfFocus(c0, t0);
    IndexOfFocus(c, t);
    SlotSides(c0, t0);
    EndSides(c, t);
    if d == 0 {
      SameTail(BeforeNode(c0, t0), t0.node, AfterNode(c0, t0), BeforeNode(c, t), t.node);
    } else {
      SameHead(BeforeNode(c0, t0), t0.node, AfterNode(c0, t0), t.node, AfterNode(c, t));
    }
  }

  /** From `node`, which has nothing under it on side `left`, up until the walk comes from the other side. */
  method GoUp(start: Node, left: Dir, ghost w: Shape, ghost c0: Ctx, ghost t0: Shape) returns (r: Node?)
    requires Rep(Snap(Nodes(w)), w, null, 0) && Plug(c0, t0) == w && t0.Br? && start == t0.node
    ensures r == Closest(Side(c0, left), left)
  {
    var node := start;
    ghost var c, t, m := c0, t0, Snap(Nodes(w));
    while true
      invariant Plug(c, t) == w && t.Br? && node == t.node
      invariant Side(c, left) == Side(c0, left)
      decreases c
    {
      NodeAt(m, w, c, t);
      var wasChild := node.childIndex;
      r := node.parent;
      if r == null {
        return;
      }
      if wasChild == 1 - left {
        return;
      }
      node, c, t := r, c.up, Mk(c.dir, t, c.node, c.bal, c.other);
    }
  }

  /** `avl_walk`: the in-order neighbour of `oldnode`, before it for `left` 0 and after it for 1. */
  method Walk(tree: Tree, oldnode: Node, left: Dir) returns (r: Node?)
    requires tree.Valid() && oldnode in InOrder(tree.shape)
    ensures r == Neighbour(InOrder(tree.shape), IndexOf(InOrder(tree.shape), oldnode), left)
    ensures r != null ==> r in Nodes(tree.shape)
  {
    ghost var w := tree.shape;
    NodesInOrder(w, oldnode);
    ghost var (c, t) := Locate(Top, w, oldnode);
    NodeAt(Snap(Nodes(w)), w, c, t);
    if oldnode.Child(left) != null {
      ghost var inner, u;
      r, inner, u := GoDown(oldnode.Child(left), 1 - left, w, SlotCtx(c, t, left), t.Sub(left));
      NeighbourUnder(c, t, left, Under(inner, SlotCtx(c, t, left)), u);
    } else {
      NeighbourBeyond(c, t, left);
      r := GoUp(oldnode, left, w, c, t);
    }
    if r != null {
      NodesInOrder(w, r);
    }
  }

  /** The leftmost or rightmost node. */
  method End(tree: Tree, d: Dir) returns (prev: Node?)
    requires tree.Valid()
    ensures prev == null <==> InOrder(tree.shape) == []
    ensures prev != null ==> prev == InOrder(tree.shape)[if d == 0 then 0 else |InOrder(tree.shape)| - 1]
  {
    var node := tree.root;
    prev := null;
    ghost var w, c, t, m := tree.shape, Top, tree.shape, Snap(Nodes(tree.shape));
    while node != null
      invariant Plug(c, t) == w && node == Root(t) && prev == HoleParent(c)
      invariant (c.Step? ==> c.dir == d) && Side(c, d) == []
      decreases t
    {
      NodeAt(m, w, c, t);
      SideDescend(c, t, d);
      prev := node;
      node, c, t := node.Child(d), SlotCtx(c, t, d), t.Sub(d);
    }
    PlugInOrder(c, t);
  }

  method First(tree: Tree) returns (r: Node?)
    requires tree.Valid()
    ensures r == Closest(InOrder(tree.shape), 1)
  {
    r := End(tree, 0);
  }

  method Last(tree: Tree) returns (r: Node?)
    requires tree.Valid()
    ensures r == Closest(InOrder(tree.shape), 0)
  {
    r := End(tree, 1);
  }

  /** `avl_nearest`: what comes right before, or right after, an insertion point. */
  method Nearest(tree: Tree, w: Where, direction: Dir) returns (r: Node?)
    requires tree.Valid() && EmptySlot(tree, w)
    ensures var order := InOrder(tree.shape);
            var i := SlotIndex(order, w);
            r == if direction == 0 then Closest(order[..i], 0) else Closest(order[i..], 1)
  {
    if w.node == null {
      r := null;
    } else if w.child != direction {
      r := w.node;
    } else {
      r := Walk(tree, w.node, direction);
    }
  }

  /** The empty slot right before (0) or right after (1) `here`. */
  method SlotBeside(tree: Tree, here: Node, direction: Dir) returns (w: Where)
    requires tree.Valid() && here in InOrder(tree.shape)
    ensures EmptySlot(tree, w) && w.node != null
    ensures SlotIndex(InOrder(tree.shape), w) == IndexOf(InOrder(tree.shape), here) + direction
  {
    ghost var s := tree.shape;
    NodesInOrder(s, here);
    ghost var (c, t) := Locate(Top, s, here);
    NodeAt(Snap(Nodes(s)), s, c, t);
    var node, child := here, direction;
    if node.Child(child) != null {
      ghost var inner, u;
      node, inner, u := GoDown(node.Child(child), 1 - child, s, SlotCtx(c, t, child), t.Sub(child));
      ghost var c' := Under(inner, SlotCtx(c, t, child));
      child := 1 - child;
      NodeAt(Snap(Nodes(s)), s, c', u);
      NeighbourUnder(c, t, direction, c', u);
    }
    w := Where(node, child);
  }

  /** `avl_insert_here`: puts `newNode` right before (0) or right after (1) `here`. */
  method InsertHere(tree: Tree, newNode: Node, here: Node, direction: Dir)
    requires tree.Valid() && here in InOrder(tree.shape) && newNode !in Nodes(tree.shape)
    modifies tree, Nodes(tree.shape), newNode
    ensures tree.Valid() && Nodes(tree.shape) == old(Nodes(tree.shape)) + {newNode}
    ensures var order := old(InOrder(tree.shape));
            InOrder(tree.shape) == InsertAt(order, IndexOf(order, here) + direction, newNode)
  {
    var w := SlotBeside(tree, here, direction);
    assert Snap(Nodes(tree.shape)) == old(Snap(Nodes(tree.shape)));
    Insert(tree, newNode, w);
  }
}
