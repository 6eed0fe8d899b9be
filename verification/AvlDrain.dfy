/**
 `avl_destroy_nodes`: handing out every node of a tree in post order, one per call, so that each may be freed as
 soon as it is returned.
 */
module AvlDrain {
  import opened AvlShape
  import opened AvlHeap
  import opened AvlLocate
  import opened AvlWalk

  function PostOrder(t: Shape): (s: seq<Node>) {
    if t.Leaf? then [] else PostOrder(t.left) + PostOrder(t.right) + [t.node]
  }

  /** What is still to come after the subtree in the hole has been handed out. */
  function Rest(c: Ctx): (s: seq<Node>) {
    match c
    case Top => []
    case Step(up, n, d, _, o) => (if d == 0 then PostOrder(o) else []) + [n] + Rest(up)
  }

  /** Nothing is left on the left of the path, and what is left on its right is untouched. */
  ghost predicate Drainable(c: Ctx) {
    c.Step? ==> Drainable(c.up) && if c.dir == 0 then Balanced(c.other) else c.other == Leaf
  }

  /** The pointer in the hole; it may dangle. */
  ghost function HolePtr(m: Mem, c: Ctx, root: Node?): Node?
    requires c.Step? ==> c.node in m
  {
    if c.Top? then root else m[c.node].Child(c.dir)
  }

  ghost predicate Path(m: Mem, c: Ctx, root: Node?) {
    && CtxNodes(c) <= m.Keys && CtxDistinct(c) && Drainable(c)
    && (c.Step? ==> c.node in m) && CtxRep(m, c, HolePtr(m, c, root), root)
  }

  /** The state carried from call to call: NULL, a parent with the side last visited, or CHILDBIT alone. */
  datatype Cookie = Begin | At(parent: Node, child: Dir) | Done

  /** Where the next call has to pick up once the subtree in the hole has been handed out. */
  function CookieAt(c: Ctx): Cookie {
    if c.Top? then Done else At(c.node, c.dir)
  }

  /** Part way through, what remains is the rest of the path. Only nodes still to come are read. */
  ghost predicate Going(tree: Tree, c: Ctx)
    reads tree, CtxNodes(c)
  {
    && Path(Snap(CtxNodes(c)), c, tree.root)
    && tree.numNodes == |Rest(c)| + if tree.root == null then 0 else 1
  }

  /** Between calls, `todo` remains to be handed out. */
  ghost predicate Draining(tree: Tree, cookie: Cookie, c: Ctx, todo: seq<Node>)
    reads tree, Nodes(tree.shape), CtxNodes(c)
  {
    if cookie == Begin then tree.Valid() && todo == PostOrder(tree.shape)
    else cookie == CookieAt(c) && todo == Rest(c) && Going(tree, c)
  }

  // ---------- finding the first node in post order ----------

  lemma RestDown(c: Ctx, t: Shape)
    requires t.Br?
    ensures PostOrder(t.left) + Rest(SlotCtx(c, t, 0)) == PostOrder(t) + Rest(c)
  {
  }

  /** In a balanced tree, a node with nothing on its left has at most one leaf on its right. */
  lemma RightOfLeftmost(c: Ctx, t: Shape)
    requires t.Br? && Balanced(t) && t.left == Leaf
    ensures t.right == Leaf || (t.right.left == Leaf && t.right.right == Leaf)
    ensures t.right.Br? ==> [t.right.node] + Rest(SlotCtx(c, t, 1)) == PostOrder(t) + Rest(c)
    ensures t.right == Leaf ==> PostOrder(t) == [t.node]
  {
    if t.right.Br? {
      assert Height(t.right) == 1;
      assert Height(t.right.left) == 0 && Height(t.right.right) == 0;
      assert PostOrder(t) == [t.right.node, t.node];
    }
  }

  lemma {:induction false} PathFrame(m: Mem, m': Mem, c: Ctx, root: Node?)
    requires Path(m, c, root) && Agree(m, m', CtxNodes(c))
    ensures Path(m', c, root)
  {
    CtxFrame(m, m', c, HolePtr(m, c, root), root);
  }

  /** The path to a subtree of a well-linked tree. */
  lemma PathOf(m: Mem, w: Shape, c: Ctx, t: Shape)
    requires Rep(m, w, null, 0) && Distinct(w) && Nodes(w) <= m.Keys && Plug(c, t) == w && Drainable(c)
    ensures Path(m, c, Root(w)) && Nodes(t) !! CtxNodes(c) && CtxNodes(c) <= Nodes(w)
  {
    RepPlug(m, c, t, Root(w));
    PlugDistinct(c, t);
    PlugNodes(c, t);
  }

  method Remember(node: Node, parent: Node?, ghost c: Ctx) returns (cookie: Cookie)
    requires parent == HoleParent(c) && (c.Step? ==> node.childIndex == c.dir)
    ensures cookie == CookieAt(c)
  {
    cookie := if parent == null then Done else At(parent, node.childIndex);
  }

  /** Down to the leftmost node of `t0`. */
  method Leftmost(start: Node, parent0: Node?, ghost w: Shape, ghost c0: Ctx, ghost t0: Shape)
    returns (node: Node, parent: Node?, ghost c: Ctx, ghost t: Shape)
    requires Rep(Snap(Nodes(w)), w, null, 0) && Plug(c0, t0) == w && t0.Br? && start == t0.node
    requires Drainable(c0) && Balanced(t0) && parent0 == HoleParent(c0)
    ensures Plug(c, t) == w && t.Br? && t.left == Leaf && node == t.node && parent == HoleParent(c)
    ensures Drainable(c) && Balanced(t)
    ensures PostOrder(t) + Rest(c) == PostOrder(t0) + Rest(c0)
  {
    parent := parent0;
    node, c, t := start, c0, t0;
    ghost var m := Snap(Nodes(w));
    NodeAt(m, w, c, t);
    while node.child0 != null
      invariant Plug(c, t) == w && t.Br? && node == t.node && node in Nodes(w) && node.child0 == Root(t.left)
      invariant parent == HoleParent(c) && Balanced(t) && Drainable(c)
      invariant PostOrder(t) + Rest(c) == PostOrder(t0) + Rest(c0)
      decreases t
    {
      RestDown(c, t);
      parent := node;
      node, c, t := node.child0, SlotCtx(c, t, 0), t.left;
      NodeAt(m, w, c, t);
    }
  }

  /** Down to the leftmost node, and to its right leaf if it has one: the first node of `t0` in post order. */
  method FirstInPost(start: Node, parent0: Node?, ghost w: Shape, ghost c0: Ctx, ghost t0: Shape)
    returns (node: Node, cookie: Cookie, ghost c: Ctx)
    requires Rep(Snap(Nodes(w)), w, null, 0) && Distinct(w) && Plug(c0, t0) == w && t0.Br? && start == t0.node
    requires Drainable(c0) && Balanced(t0) && parent0 == HoleParent(c0)
    ensures [node] + Rest(c) == PostOrder(t0) + Rest(c0)
    ensures cookie == CookieAt(c)
    ensures Path(Snap(CtxNodes(c)), c, Root(w)) && CtxNodes(c) <= Nodes(w) && node !in CtxNodes(c)
  {
    var parent;
    ghost var t, m := t0, Snap(Nodes(w));
    node, parent, c, t := Leftmost(start, parent0, w, c0, t0);
    NodeAt(m, w, c, t);
    RightOfLeftmost(c, t);
    if node.child1 != null {
      parent := node;
      node, c, t := node.child1, SlotCtx(c, t, 1), t.right;
      NodeAt(m, w, c, t);
    }
    PathOf(m, w, c, t);
    cookie := Remember(node, parent, c);
    PathFrame(m, Snap(CtxNodes(c)), c, Root(w));
  }

  // ---------- one call ----------

  /** Once the pointer in the hole is cut, what remains is a well-linked tree. */
  lemma CutHole(m: Mem, m': Mem, c: Ctx, root: Node?)
    requires c.Step? && Path(m, c, root)
    requires m'.Keys == m.Keys && m'[c.node] == m[c.node].SetChild(c.dir, null) && Agree(m, m', m.Keys - {c.node})
    ensures var w := Plug(c, Leaf); Rep(m', w, null, 0) && Distinct(w) && Nodes(w) == CtxNodes(c) && Root(w) == root
  {
    HoleRefilled(m, m', c, HolePtr(m, c, root), root, null, root);
    RepPlug(m', c, Leaf, root);
    PlugDistinct(c, Leaf);
    PlugNodes(c, Leaf);
  }

  /** The last call: everything has been handed out. */
  method FinishDrain(tree: Tree) returns (cookie: Cookie)
    modifies tree
    ensures tree.root == null && tree.numNodes == (if old(tree.root) == null then old(tree.numNodes) else 0) && cookie == Done
    ensures tree.shape == Leaf
  {
    if tree.root != null {
      tree.root := null;
      tree.numNodes := 0;
    }
    tree.shape := Leaf;
    cookie := Done;
  }

  /** The first call on a tree that is not empty. */
  method BeginDrain(tree: Tree, root: Node) returns (r: Node, cookie: Cookie, ghost c: Ctx)
    requires tree.Valid() && tree.root == root
    modifies tree`shape
    ensures [r] + Rest(c) == old(PostOrder(tree.shape)) && cookie == CookieAt(c) && Going(tree, c)
    ensures tree.shape == Leaf && CtxNodes(c) <= old(Nodes(tree.shape)) && r !in CtxNodes(c)
  {
    ghost var w := tree.shape;
    r, cookie, c := FirstInPost(root, null, w, Top, w);
    assert PostOrder(w) + Rest(Top) == PostOrder(w);
    PostOrderLength(w);
    ghost var m := Snap(CtxNodes(c));
    tree.shape := Leaf;
    assert Snap(CtxNodes(c)) == m;
  }

  lemma {:induction false} PostOrderLength(t: Shape)
    ensures |PostOrder(t)| == |InOrder(t)|
  {
    if t.Br? {
      PostOrderLength(t.left);
      PostOrderLength(t.right);
    }
  }

  lemma {:induction false} PostOrderNodes(t: Shape)
    ensures Elems(PostOrder(t)) == Nodes(t)
  {
    if t.Br? {
      PostOrderNodes(t.left);
      PostOrderNodes(t.right);
      assert Elems(PostOrder(t)) == Elems(PostOrder(t.left)) + Elems(PostOrder(t.right)) + {t.node};
    }
  }

  /** Cuts the pointer to the subtree last handed out. */
  method CutVisited(tree: Tree, parent: Node, child: Dir, ghost c: Ctx)
    requires c.Step? && parent == c.node && child == c.dir && Going(tree, c)
    modifies tree`numNodes, parent
    ensures tree.numNodes == old(tree.numNodes) - 1
    ensures var w := Plug(c, Leaf);
            Rep(Snap(CtxNodes(c)), w, null, 0) && Distinct(w) && Nodes(w) == CtxNodes(c) && Root(w) == tree.root
  {
    ghost var m := Snap(CtxNodes(c));
    parent.SetChild(child, null);
    tree.numNodes := tree.numNodes - 1;
    CutHole(m, Snap(CtxNodes(c)), c, tree.root);
  }

  /** A call that goes up: both subtrees of `parent` are gone, so it is next. */
  lemma GoesUp(m: Mem, c: Ctx, root: Node?)
    requires c.Step? && c.other == Leaf && Drainable(c)
    requires var w := Plug(c, Leaf); Rep(m, w, null, 0) && Distinct(w) && Nodes(w) <= m.Keys && Root(w) == root
    ensures Path(m, c.up, root) && c.node !in CtxNodes(c.up) && CtxNodes(c.up) <= CtxNodes(c)
    ensures Rest(c) == [c.node] + Rest(c.up)
    ensures c.node in m && m[c.node].parent == HoleParent(c.up) && (c.up.Step? ==> m[c.node].childIndex == c.up.dir)
  {
    var t := Mk(c.dir, Leaf, c.node, c.bal, Leaf);
    NodeAt(m, Plug(c, Leaf), c.up, t);
    PathOf(m, Plug(c, Leaf), c.up, t);
  }

  /** A call that goes over to the right subtree of `parent`. */
  lemma GoesOver(c: Ctx)
    requires c.Step? && c.dir == 0 && Drainable(c)
    ensures var c1 := Step(c.up, c.node, 1, c.bal, Leaf);
            Plug(c1, c.other) == Plug(c, Leaf) && Drainable(c1) && Rest(c) == PostOrder(c.other) + Rest(c1)
  {
  }

  /** A call in the middle of the drain. */
  method ContinueDrain(tree: Tree, parent: Node, child: Dir, ghost c: Ctx) returns (r: Node, cookie: Cookie, ghost c': Ctx)
    requires c.Step? && parent == c.node && child == c.dir && Going(tree, c)
    modifies tree`numNodes, parent
    ensures Rest(c) == [r] + Rest(c') && cookie == CookieAt(c') && Going(tree, c')
    ensures CtxNodes(c') <= CtxNodes(c) && r !in CtxNodes(c')
  {
    CutVisited(tree, parent, child, c);
    ghost var w, m := Plug(c, Leaf), Snap(CtxNodes(c));
    NodeAt(m, w, c.up, Mk(c.dir, Leaf, c.node, c.bal, c.other));
    if child == 1 || parent.child1 == null {
      GoesUp(m, c, tree.root);
      r, c' := parent, c.up;
      cookie := Remember(r, parent.parent, c');
      PathFrame(m, Snap(CtxNodes(c')), c', tree.root);
    } else {
      GoesOver(c);
      r, cookie, c' := FirstInPost(parent.child1, parent, w, Step(c.up, c.node, 1, c.bal, Leaf), c.other);
    }
  }

  /** `avl_destroy_nodes`: the next node in post order, or null once, with the tree empty, when none is left. */
  method DestroyNodes(tree: Tree, cookie: Cookie, ghost c: Ctx, ghost todo: seq<Node>)
    returns (r: Node?, next: Cookie, ghost c': Ctx)
    requires Draining(tree, cookie, c, todo)
    modifies tree, CtxNodes(c)
    ensures next != Begin && tree.shape == Leaf
    ensures if todo == [] then r == null && tree.root == null && tree.numNodes == 0
            else r == todo[0] && Draining(tree, next, c', todo[1..])
    ensures CtxNodes(c') <= old(Nodes(tree.shape)) + CtxNodes(c) && (r != null ==> r !in CtxNodes(c'))
  {
    c' := Top;
    match cookie
    case Begin =>
      if tree.root == null {
        r := null;
        next := FinishDrain(tree);
      } else {
        r, next, c' := BeginDrain(tree, tree.root);
      }
    case Done =>
      r := null;
      next := FinishDrain(tree);
    case At(parent, child) =>
      r, next, c' := ContinueDrain(tree, parent, child, c);
      ghost var m := Snap(CtxNodes(c'));
      tree.shape := Leaf;
      assert Snap(CtxNodes(c')) == m;
  }

  /** Freeing a node leaves anything at all in it. */
  method Free(n: Node)
    modifies n
  {
    n.child0 := *;
    n.child1 := *;
    n.parent := *;
    n.childIndex := *;
    n.balance := *;
  }

  /** A call has returned `r`, the first of `todo`; the rest is still to come from `s`. */
  ghost predicate Handed(tree: Tree, r: Node?, cookie: Cookie, c: Ctx, todo: seq<Node>, s: set<Node>)
    reads tree, CtxNodes(c)
  {
    && cookie != Begin && tree.shape == Leaf && CtxNodes(c) <= s && Elems(todo) <= s
    && if todo == [] then r == null && tree.root == null && tree.numNodes == 0
       else r == todo[0] && r !in CtxNodes(c) && cookie == CookieAt(c) && todo[1..] == Rest(c) && Going(tree, c)
  }

  method FreeAndNext(tree: Tree, r: Node, cookie: Cookie, ghost c: Ctx, ghost todo: seq<Node>, ghost s: set<Node>)
    returns (r': Node?, cookie': Cookie, ghost c': Ctx)
    requires Handed(tree, r, cookie, c, todo, s)
    modifies tree, s
    ensures todo != [] && r == todo[0] && Handed(tree, r', cookie', c', todo[1..], s)
  {
    ghost var m := Snap(CtxNodes(c));
    assert r in Elems(todo);
    assert Elems(todo[1..]) <= Elems(todo);
    Free(r);
    assert Snap(CtxNodes(c)) == m;
    r', cookie', c' := DestroyNodes(tree, cookie, c, todo[1..]);
  }

  lemma Shift<T>(a: seq<T>, b: seq<T>)
    requires b != []
    ensures a + b == (a + [b[0]]) + b[1..]
  {
  }

  method FirstCall(tree: Tree) returns (r: Node?, cookie: Cookie, ghost c: Ctx)
    requires tree.Valid()
    modifies tree
    ensures Handed(tree, r, cookie, c, old(PostOrder(tree.shape)), old(Nodes(tree.shape)))
  {
    PostOrderNodes(tree.shape);
    r, cookie, c := DestroyNodes(tree, Begin, Top, PostOrder(tree.shape));
  }

  /**
   The documented loop: call, free what came back, until null. Every node comes back once, in post order, in
   one call more than there are nodes, and no call depends on a freed node.
   */
  method DrainAll(tree: Tree) returns (out: seq<Node>, calls: nat)
    requires tree.Valid()
    modifies tree, Nodes(tree.shape)
    ensures out == old(PostOrder(tree.shape)) && calls == |out| + 1
    ensures tree.root == null && tree.numNodes == 0
  {
    ghost var all, s := PostOrder(tree.shape), Nodes(tree.shape);
    ghost var c, todo := Top, all;
    var r, cookie;
    r, cookie, c := FirstCall(tree);
    out, calls := [], 1;
    while r != null
      invariant calls == |out| + 1 && out + todo == all
      invariant Handed(tree, r, cookie, c, todo, s)
      decreases |todo|
    {
      Shift(out, todo);
      out := out + [r];
      r, cookie, c := FreeAndNext(tree, r, cookie, c, todo, s);
      todo := todo[1..];
      calls := calls + 1;
    }
  }

  // ---------- what post order promises ----------

  function PostBefore(c: Ctx): (s: seq<Node>) {
    if c.Top? then [] else if c.dir == 0 then PostBefore(c.up) else PostBefore(c.up) + PostOrder(c.other)
  }

  lemma AssocTail<T>(a: seq<T>, b: seq<T>, c: seq<T>, d: seq<T>, e: seq<T>)
    ensures a + (b + c + d) + e == (a + b) + c + ([] + d + e)
  {
  }

  lemma {:induction false} SubtreeInPost(c: Ctx, t: Shape)
    ensures PostOrder(Plug(c, t)) == PostBefore(c) + PostOrder(t) + Rest(c)
  {
    if c.Step? {
      SubtreeInPost(c.up, Mk(c.dir, t, c.node, c.bal, c.other));
      if c.dir == 0 {
        Regroup(PostBefore(c.up), PostOrder(t), PostOrder(c.other), [c.node], Rest(c.up));
      } else {
        AssocTail(PostBefore(c.up), PostOrder(c.other), PostOrder(t), [c.node], Rest(c.up));
      }
    }
  }

  /** Every subtree is handed out in one stretch that its own root ends: a node comes after all its descendants. */
  lemma DescendantsFirst(c: Ctx, t: Shape)
    requires t.Br?
    ensures PostOrder(Plug(c, t)) == PostBefore(c) + PostOrder(t) + Rest(c)
    ensures var below := PostOrder(t.left) + PostOrder(t.right);
            PostOrder(t) == below + [t.node] && Elems(below) == Nodes(t.left) + Nodes(t.right)
  {
    SubtreeInPost(c, t);
    PostOrderNodes(t.left);
    PostOrderNodes(t.right);
  }

  /** No node is handed out twice. */
  lemma {:induction false} PostOrderNoDup(t: Shape)
    requires Distinct(t)
    ensures NoDup(PostOrder(t))
  {
    if t.Br? {
      PostOrderNoDup(t.left);
      PostOrderNoDup(t.right);
      PostOrderNodes(t.left);
      PostOrderNodes(t.right);
      NoDupConcat(PostOrder(t.left), PostOrder(t.right));
      var s := PostOrder(t.left) + PostOrder(t.right);
      assert Elems(s) == Elems(PostOrder(t.left)) + Elems(PostOrder(t.right));
      NoDupConcat(s, [t.node]);
    }
  }
}
