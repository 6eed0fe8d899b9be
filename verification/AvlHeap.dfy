/** How linked nodes spell out a shape and a context. */
module AvlHeap {
  import opened AvlShape

  /** The five fields of a node. */
  datatype Rec = Rec(child0: Node?, child1: Node?, parent: Node?, childIndex: Dir, balance: int) {
    function Child(d: Dir): Node? {
      if d == 0 then child0 else child1
    }

    function SetChild(d: Dir, n: Node?): (r: Rec)
      ensures r.Child(d) == n && r.Child(1 - d) == Child(1 - d)
    {
      if d == 0 then this.(child0 := n) else this.(child1 := n)
    }
  }

  /** The contents of some nodes at one moment. */
  type Mem = map<Node, Rec>

  ghost function View(n: Node): (r: Rec)
    reads n
  {
    Rec(n.child0, n.child1, n.parent, n.childIndex, n.balance)
  }

  ghost function Snap(s: set<Node>): (m: Mem)
    reads s
    ensures m.Keys == s
  {
    map n | n in s :: View(n)
  }

  /** `t` is laid out in `m`, hanging on side `d` of `p`; links, indices and cached balances agree. */
  ghost predicate Rep(m: Mem, t: Shape, p: Node?, d: Dir) {
    t.Br? ==>
      && t.node in m
      && m[t.node].parent == p && (p != null ==> m[t.node].childIndex == d)
      && m[t.node].balance == t.bal
      && m[t.node].child0 == Root(t.left) && m[t.node].child1 == Root(t.right)
      && Rep(m, t.left, t.node, 0) && Rep(m, t.right, t.node, 1)
  }

  /** The nodes around a hole filled by pointer `hole`, up to `root`. */
  ghost predicate CtxRep(m: Mem, c: Ctx, hole: Node?, root: Node?) {
    match c
    case Top => hole == root
    case Step(up, n, d, b, o) =>
      && n in m
      && m[n].parent == HoleParent(up) && (up.Step? ==> m[n].childIndex == HoleDir(up))
      && m[n].balance == b
      && m[n].Child(d) == hole && m[n].Child(1 - d) == Root(o)
      && Rep(m, o, n, 1 - d)
      && CtxRep(m, up, n, root)
  }

  /** The nodes of `s` are the same in both memories. */
  ghost predicate Agree(m: Mem, m': Mem, s: set<Node>) {
    forall n :: n in s && n in m ==> n in m' && m'[n] == m[n]
  }

  lemma {:induction false} RepFrame(m: Mem, m': Mem, t: Shape, p: Node?, d: Dir)
    requires Rep(m, t, p, d) && Agree(m, m', Nodes(t))
    ensures Rep(m', t, p, d)
  {
    if t.Br? {
      RepFrame(m, m', t.left, t.node, 0);
      RepFrame(m, m', t.right, t.node, 1);
    }
  }

  lemma {:induction false} CtxFrame(m: Mem, m': Mem, c: Ctx, hole: Node?, root: Node?)
    requires CtxRep(m, c, hole, root) && Agree(m, m', CtxNodes(c))
    ensures CtxRep(m', c, hole, root)
  {
    if c.Step? {
      RepFrame(m, m', c.other, c.node, 1 - c.dir);
      CtxFrame(m, m', c.up, c.node, root);
    }
  }

  /** The whole tree is the subtree in the hole together with its surroundings. */
  lemma {:induction false} RepPlug(m: Mem, c: Ctx, t: Shape, root: Node?)
    ensures Rep(m, Plug(c, t), null, 0) && root == Root(Plug(c, t))
       <==> Rep(m, t, HoleParent(c), HoleDir(c)) && CtxRep(m, c, Root(t), root)
  {
    match c
    case Top =>
    case Step(up, n, d, b, o) =>
      RepPlug(m, up, Mk(d, t, n, b, o), root);
  }

  lemma RepMk(m: Mem, d: Dir, near: Shape, n: Node, b: int, far: Shape, p: Node?, pd: Dir)
    ensures Rep(m, Mk(d, near, n, b, far), p, pd)
       <==> && n in m && m[n].parent == p && (p != null ==> m[n].childIndex == pd) && m[n].balance == b
            && m[n].Child(d) == Root(near) && m[n].Child(1 - d) == Root(far)
            && Rep(m, near, n, d) && Rep(m, far, n, 1 - d)
  {
  }

  ghost function RootSet(t: Shape): (s: set<Node>) {
    if t.Leaf? then {} else {t.node}
  }

  /** A subtree is rehung elsewhere by changing only its root's parent and child index. */
  lemma RepRehang(m: Mem, m': Mem, t: Shape, p: Node?, d: Dir, p': Node?, d': Dir)
    requires Rep(m, t, p, d) && Distinct(t)
    requires Agree(m, m', Nodes(t) - RootSet(t))
    requires t.Br? ==> t.node in m' && m'[t.node] == m[t.node].(parent := p', childIndex := d')
    ensures Rep(m', t, p', d')
  {
    if t.Br? {
      RepFrame(m, m', t.left, t.node, 0);
      RepFrame(m, m', t.right, t.node, 1);
    }
  }

  ghost function HoleSet(c: Ctx): (s: set<Node>) {
    if c.Top? then {} else {c.node}
  }

  /** A context survives when its hole is refilled and nothing else in it changes. */
  lemma HoleRefilled(m: Mem, m': Mem, c: Ctx, was: Node?, root: Node?, hole: Node?, root': Node?)
    requires CtxRep(m, c, was, root) && CtxDistinct(c)
    requires Agree(m, m', CtxNodes(c) - HoleSet(c))
    requires if c.Top? then root' == hole
             else root' == root && c.node in m' && m'[c.node] == m[c.node].SetChild(c.dir, hole)
    ensures CtxRep(m', c, hole, root')
  {
    if c.Step? {
      RepFrame(m, m', c.other, c.node, 1 - c.dir);
      CtxFrame(m, m', c.up, c.node, root);
    }
  }

  /** The tree with root pointer `root` is subtree `t` in context `c`. */
  ghost predicate Focus(m: Mem, c: Ctx, t: Shape, root: Node?) {
    && Distinct(t) && CtxDistinct(c) && Nodes(t) !! CtxNodes(c)
    && Nodes(t) <= m.Keys && CtxNodes(c) <= m.Keys
    && Rep(m, t, HoleParent(c), HoleDir(c)) && CtxRep(m, c, Root(t), root)
  }

  /** Moving the focus up one level, perhaps after storing a new balance there. */
  lemma Climb(m: Mem, c: Ctx, t: Shape, root: Node?, b: int)
    requires c.Step? && Focus(m, c, t, root)
    ensures c.node in m
    ensures Focus(m[c.node := m[c.node].(balance := b)], c.up, Mk(c.dir, t, c.node, b, c.other), root)
  {
    var n, d, o := c.node, c.dir, c.other;
    var m' := m[n := m[n].(balance := b)];
    RepFrame(m, m', t, n, d);
    RepFrame(m, m', o, n, 1 - d);
    CtxFrame(m, m', c.up, n, root);
    RepMk(m', d, t, n, b, o, HoleParent(c.up), HoleDir(c.up));
    MkInOrder(d, t, n, b, o);
  }

  /** A focus on part of the tree is the tree. */
  lemma Unfocus(m: Mem, c: Ctx, t: Shape, root: Node?)
    requires Focus(m, c, t, root)
    ensures var w := Plug(c, t);
            && Rep(m, w, null, 0) && root == Root(w) && Distinct(w)
            && Nodes(w) == CtxNodes(c) + Nodes(t) && InOrder(w) == Before(c) + InOrder(t) + After(c)
            && (Balanced(w) <==> Balanced(t) && CtxBalanced(c, Height(t)))
  {
    RepPlug(m, c, t, root);
    PlugDistinct(c, t);
    PlugNodes(c, t);
    PlugInOrder(c, t);
    PlugBalanced(c, t);
  }

  /** And conversely. */
  lemma Refocus(m: Mem, c: Ctx, t: Shape, root: Node?)
    requires var w := Plug(c, t); Rep(m, w, null, 0) && root == Root(w) && Distinct(w) && Nodes(w) <= m.Keys
    ensures Focus(m, c, t, root)
  {
    RepPlug(m, c, t, root);
    PlugDistinct(c, t);
    PlugNodes(c, t);
  }

  lemma FocusFrame(m: Mem, m': Mem, c: Ctx, t: Shape, root: Node?)
    requires Focus(m, c, t, root) && Agree(m, m', Nodes(t) + CtxNodes(c))
    ensures Focus(m', c, t, root)
  {
    RepFrame(m, m', t, HoleParent(c), HoleDir(c));
    CtxFrame(m, m', c, Root(t), root);
  }

  /** The tree header: root pointer and node count, with the shape they stand for. */
  class Tree {
    var root: Node?
    var numNodes: nat
    ghost var shape: Shape

    constructor ()
      ensures Valid() && shape == Leaf && root == null && numNodes == 0
    {
      root, numNodes, shape := null, 0, Leaf;
    }

    /** Links, parent indices, cached balances and the count are all right, and the tree is balanced. */
    ghost predicate Valid()
      reads this, Nodes(shape)
    {
      && root == Root(shape) && Rep(Snap(Nodes(shape)), shape, null, 0)
      && Distinct(shape) && Balanced(shape)
      && numNodes == |InOrder(shape)|
    }
  }

  /** Everything `Valid` asks but the count, with the order the tree has ended up in. */
  ghost predicate Settled(tree: Tree, s: set<Node>, order: seq<Node>)
    reads tree, s
  {
    && tree.root == Root(tree.shape) && Rep(Snap(s), tree.shape, null, 0)
    && Distinct(tree.shape) && Balanced(tree.shape)
    && Nodes(tree.shape) == s && InOrder(tree.shape) == order
  }

  /** What the node above the hole holds. */
  lemma HoleNode(m: Mem, c: Ctx, t: Shape, root: Node?)
    requires c.Step? && Focus(m, c, t, root)
    ensures c.node in m && m[c.node].balance == c.bal && m[c.node].parent == HoleParent(c.up)
    ensures c.up.Step? ==> m[c.node].childIndex == c.up.dir
  {
  }

  /** Stores a balance in the node above the hole and moves the focus up to it. */
  method StoreBalance(tree: Tree, node: Node, b: int, ghost c: Ctx, ghost t: Shape, ghost s: set<Node>)
    requires c.Step? && node == c.node && Focus(Snap(s), c, t, tree.root)
    modifies node`balance
    ensures Focus(Snap(s), c.up, Mk(c.dir, t, node, b, c.other), tree.root)
  {
    ghost var m := Snap(s);
    Climb(m, c, t, tree.root, b);
    node.balance := b;
    assert Snap(s) == m[node := m[node].(balance := b)];
  }

  /** Takes the tree in focus as the tree's new shape. */
  ghost method Settle(tree: Tree, c: Ctx, t: Shape, s: set<Node>, order: seq<Node>)
    requires Focus(Snap(s), c, t, tree.root) && s == CtxNodes(c) + Nodes(t)
    requires Balanced(t) && CtxBalanced(c, Height(t)) && order == Before(c) + InOrder(t) + After(c)
    modifies tree`shape
    ensures Settled(tree, s, order)
  {
    Unfocus(Snap(s), c, t, tree.root);
    tree.shape := Plug(c, t);
  }
}
