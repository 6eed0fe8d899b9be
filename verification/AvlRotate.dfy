/** `avl_rotation` on the heap. */
module AvlRotate {
  import opened AvlShape
  import opened AvlHeap
  import opened AvlRotation

  /** The memory after `child` came up over `n`. */
  lemma LiftChildRep(m: Mem, m': Mem, left: Dir, a: Shape, child: Node, bal: int, b: Shape, n: Node, nb: int, far: Shape,
                     p: Node?, d: Dir)
    requires var t := Mk(left, Mk(left, a, child, bal, b), n, nb, far);
             Distinct(t) && Rep(m, t, p, d) && Agree(m, m', Nodes(t) - {n, child} - RootSet(b))
    requires n in m && child in m && n in m' && child in m'
    requires var k := bal + Heavy(1 - left);
             && m'[n] == m[n].SetChild(left, Root(b)).(balance := -k, childIndex := 1 - left, parent := child)
             && m'[child] == m[child].SetChild(1 - left, n).(balance := k, childIndex := m[n].childIndex, parent := p)
    requires b.Br? ==> b.node in m && b.node in m' && m'[b.node] == m[b.node].(parent := n, childIndex := left)
    ensures Rep(m', RotateOnce(left, a, child, bal, b, n, far), p, d)
  {
    var tc := Mk(left, a, child, bal, b);
    var k := bal + Heavy(1 - left);
    MkInOrder(left, tc, n, nb, far);
    MkInOrder(left, a, child, bal, b);
    RepMk(m, left, tc, n, nb, far, p, d);
    RepMk(m, left, a, child, bal, b, n, left);
    RepFrame(m, m', a, child, left);
    RepFrame(m, m', far, n, 1 - left);
    RepRehang(m, m', b, child, 1 - left, n, left);
    RepMk(m', left, b, n, -k, far, child, 1 - left);
    RepMk(m', left, a, child, k, Mk(left, b, n, -k, far), p, d);
  }

  /** Three rotated nodes over four subtrees that are already in place. */
  lemma StackRep(m: Mem, left: Dir, a: Shape, child: Node, bc: int, b: Shape, g: Node, e: Shape, n: Node, bn: int, far: Shape,
                 p: Node?, d: Dir)
    requires Rep(m, a, child, left) && Rep(m, b, child, 1 - left) && Rep(m, e, n, left) && Rep(m, far, n, 1 - left)
    requires child in m && n in m && g in m
    requires m[child].Child(left) == Root(a) && m[child].Child(1 - left) == Root(b) && m[child].balance == bc
    requires m[child].parent == g && m[child].childIndex == left
    requires m[n].Child(left) == Root(e) && m[n].Child(1 - left) == Root(far) && m[n].balance == bn
    requires m[n].parent == g && m[n].childIndex == 1 - left
    requires m[g].Child(left) == child && m[g].Child(1 - left) == n && m[g].balance == 0
    requires m[g].parent == p && (p != null ==> m[g].childIndex == d)
    ensures Rep(m, Mk(left, Mk(left, a, child, bc, b), g, 0, Mk(left, e, n, bn, far)), p, d)
  {
    RepMk(m, left, a, child, bc, b, g, left);
    RepMk(m, left, e, n, bn, far, g, 1 - left);
    RepMk(m, left, Mk(left, a, child, bc, b), g, 0, Mk(left, e, n, bn, far), p, d);
  }

  /** The memory after `g` came up between `child` and `n`. */
  lemma LiftGrandchildRep(m: Mem, m': Mem, left: Dir, a: Shape, child: Node, cb: int, b: Shape, g: Node, bal: int, e: Shape,
                          n: Node, nb: int, far: Shape, p: Node?, d: Dir)
    requires var t := Mk(left, Mk(left, a, child, cb, Mk(left, b, g, bal, e)), n, nb, far);
             && Distinct(t) && Rep(m, t, p, d)
             && Agree(m, m', Nodes(t) - {n, child, g} - RootSet(b) - RootSet(e))
    requires n in m && child in m && g in m && n in m' && child in m' && g in m'
    requires m'[n] == m[n].SetChild(left, Root(e))
                          .(balance := if bal == Heavy(left) then Heavy(1 - left) else 0, parent := g, childIndex := 1 - left)
    requires m'[child] == m[child].SetChild(1 - left, Root(b))
                                  .(balance := if bal == Heavy(1 - left) then Heavy(left) else 0, parent := g, childIndex := left)
    requires m'[g] == m[g].SetChild(left, child).SetChild(1 - left, n)
                          .(balance := 0, parent := p, childIndex := m[n].childIndex)
    requires b.Br? ==> b.node in m && b.node in m' && m'[b.node] == m[b.node].(parent := child, childIndex := 1 - left)
    requires e.Br? ==> e.node in m && e.node in m' && m'[e.node] == m[e.node].(parent := n, childIndex := left)
    ensures Rep(m', RotateTwice(left, a, child, b, g, bal, e, n, far), p, d)
  {
    var tg := Mk(left, b, g, bal, e);
    var tc := Mk(left, a, child, cb, tg);
    MkInOrder(left, tc, n, nb, far);
    MkInOrder(left, a, child, cb, tg);
    MkInOrder(left, b, g, bal, e);
    RepMk(m, left, tc, n, nb, far, p, d);
    RepMk(m, left, a, child, cb, tg, n, left);
    RepMk(m, left, b, g, bal, e, child, 1 - left);
    assert Rep(m', a, child, left) by { RepFrame(m, m', a, child, left); }
    assert Rep(m', far, n, 1 - left) by { RepFrame(m, m', far, n, 1 - left); }
    assert Rep(m', b, child, 1 - left) by { RepRehang(m, m', b, g, left, child, 1 - left); }
    assert Rep(m', e, n, left) by { RepRehang(m, m', e, g, 1 - left, n, left); }
    var bc := if bal == Heavy(1 - left) then Heavy(left) else 0;
    var bn := if bal == Heavy(left) then Heavy(1 - left) else 0;
    StackRep(m', left, a, child, bc, b, g, e, n, bn, far, p, d);
  }

  /** Points the hole on side `d` of `p`, or the root, at `x`. */
  method SetHole(tree: Tree, p: Node?, d: Dir, x: Node?)
    modifies tree`root, p
    ensures if p == null then tree.root == x
            else tree.root == old(tree.root) && View(p) == old(View(p)).SetChild(d, x)
  {
    if p != null {
      p.SetChild(d, x);
    } else {
      tree.root := x;
    }
  }

  /** Hangs `x`, which may be absent, on side `d` of `p`. */
  method Hang(p: Node, d: Dir, x: Node?)
    requires x != p
    modifies p, x
    ensures View(p) == old(View(p)).SetChild(d, x)
    ensures x != null ==> View(x) == old(View(x)).(parent := p, childIndex := d)
  {
    p.SetChild(d, x);
    if x != null {
      x.parent := p;
      x.childIndex := d;
    }
  }

  /** Case 1, the link surgery: `child` comes up over `node` and hands it `cright`. */
  method LiftChild(tree: Tree, node: Node, child: Node, cright: Node?, parent: Node?, left: Dir) returns (shorter: bool)
    requires child.Child(1 - left) == cright && node.parent == parent
    requires node != child && cright != node && cright != child && parent != node && parent != child
    requires parent == null || parent != cright
    modifies tree`root, node, child, cright, parent
    ensures var k := old(child.balance) + Heavy(1 - left);
            && View(node) == old(View(node)).SetChild(left, cright).(balance := -k, childIndex := 1 - left, parent := child)
            && View(child) == old(View(child)).SetChild(1 - left, node)
                                             .(balance := k, childIndex := old(node.childIndex), parent := parent)
            && (shorter <==> k == 0)
    ensures cright != null ==> View(cright) == old(View(cright)).(parent := node, childIndex := left)
    ensures if parent == null then tree.root == child
            else tree.root == old(tree.root) && View(parent) == old(View(parent)).SetChild(old(node.childIndex), child)
  {
    var whichChild := node.childIndex;
    var childBal := child.balance + Heavy(1 - left);
    Hang(node, left, cright);
    Hang(child, 1 - left, node);
    node.balance := -childBal;
    child.balance := childBal;
    child.childIndex := whichChild;
    child.parent := parent;
    SetHole(tree, parent, whichChild, child);
    shorter := childBal == 0;
  }

  /** Hangs two subtrees, each on its own new parent. */
  method HangTwo(p: Node, d: Dir, x: Node?, q: Node, e: Dir, y: Node?)
    requires p != q && x != p && x != q && y != p && y != q && (x == null || x != y)
    modifies p, q, x, y
    ensures View(p) == old(View(p)).SetChild(d, x) && View(q) == old(View(q)).SetChild(e, y)
    ensures x != null ==> View(x) == old(View(x)).(parent := p, childIndex := d)
    ensures y != null ==> View(y) == old(View(y)).(parent := q, childIndex := e)
  {
    Hang(p, d, x);
    Hang(q, e, y);
  }

  /** Case 2, the link surgery: `gchild` comes up between `child` and `node` and hands each one subtree. */
  method LiftGrandchild(tree: Tree, node: Node, child: Node, gchild: Node, gleft: Node?, gright: Node?, parent: Node?, left: Dir)
    requires child.Child(1 - left) == gchild && gchild.Child(left) == gleft && gchild.Child(1 - left) == gright
    requires node.parent == parent
    requires node != child && node != gchild && child != gchild
    requires gleft != node && gleft != child && gleft != gchild
    requires gright != node && gright != child && gright != gchild && (gleft == null || gleft != gright)
    requires parent == null || (parent != gleft && parent != gright && parent != node && parent != child && parent != gchild)
    modifies tree`root, node, child, gchild, gleft, gright, parent
    ensures var b := old(gchild.balance);
            && View(node) == old(View(node)).SetChild(left, gright)
                               .(balance := if b == Heavy(left) then Heavy(1 - left) else 0, parent := gchild, childIndex := 1 - left)
            && View(child) == old(View(child)).SetChild(1 - left, gleft)
                               .(balance := if b == Heavy(1 - left) then Heavy(left) else 0, parent := gchild, childIndex := left)
    ensures View(gchild) == old(View(gchild)).SetChild(left, child).SetChild(1 - left, node)
                               .(balance := 0, parent := parent, childIndex := old(node.childIndex))
    ensures gleft != null ==> View(gleft) == old(View(gleft)).(parent := child, childIndex := 1 - left)
    ensures gright != null ==> View(gright) == old(View(gright)).(parent := node, childIndex := left)
    ensures if parent == null then tree.root == gchild
            else tree.root == old(tree.root) && View(parent) == old(View(parent)).SetChild(old(node.childIndex), gchild)
  {
    var whichChild := node.childIndex;
    var balance := gchild.balance;
    HangTwo(node, left, gright, child, 1 - left, gleft);
    Hang(gchild, left, child);
    child.balance := if balance == Heavy(1 - left) then Heavy(left) else 0;
    Hang(gchild, 1 - left, node);
    node.balance := if balance == Heavy(left) then Heavy(1 - left) else 0;
    gchild.balance := 0;
    gchild.parent := parent;
    gchild.childIndex := whichChild;
    SetHole(tree, parent, whichChild, gchild);
  }

  // ---------- case 1 ----------

  /** The pointers `avl_rotation` follows before a single rotation, and that they are all different. */
  lemma LiftChildReady(m: Mem, c: Ctx, t: Shape, root: Node?, left: Dir)
    requires t.Br? && t.Sub(left).Br? && Focus(m, c, t, root)
    ensures var child, b, p := t.Sub(left).node, Root(t.Sub(left).Sub(1 - left)), HoleParent(c);
            && {t.node, child} + RootSet(t.Sub(left).Sub(1 - left)) + HoleSet(c) <= m.Keys
            && m[t.node].Child(left) == child && m[child].Child(1 - left) == b && m[t.node].parent == p
            && m[child].balance == t.Sub(left).bal
            && (p != null ==> m[t.node].childIndex == HoleDir(c))
            && t.node != child && b != t.node && b != child && p != t.node && p != child && (p == null || p != b)
  {
    var tc, far := t.Sub(left), t.Sub(1 - left);
    var a, b := tc.Sub(left), tc.Sub(1 - left);
    RepMk(m, left, tc, t.node, t.bal, far, HoleParent(c), HoleDir(c));
    RepMk(m, left, a, tc.node, tc.bal, b, t.node, left);
    MkInOrder(left, tc, t.node, t.bal, far);
    MkInOrder(left, a, tc.node, tc.bal, b);
  }

  lemma LiftChildFocus(m: Mem, m': Mem, c: Ctx, t: Shape, root: Node?, root': Node?, left: Dir)
    requires Rotatable(left, t) && t.Sub(left).bal != Heavy(1 - left) && Focus(m, c, t, root)
    requires m'.Keys == m.Keys && {t.node, t.Sub(left).node} <= m.Keys
    requires var n, child, b, k := t.node, t.Sub(left).node, t.Sub(left).Sub(1 - left), t.Sub(left).bal + Heavy(1 - left);
             && m'[n] == m[n].SetChild(left, Root(b)).(balance := -k, childIndex := 1 - left, parent := child)
             && m'[child] == m[child].SetChild(1 - left, n).(balance := k, childIndex := m[n].childIndex, parent := HoleParent(c))
             && (b.Br? ==> b.node in m && m'[b.node] == m[b.node].(parent := n, childIndex := left))
             && Agree(m, m', m.Keys - {n, child} - RootSet(b) - HoleSet(c))
             && if c.Top? then root' == child
                else root' == root && c.node in m && m'[c.node] == m[c.node].SetChild(c.dir, child)
    ensures Focus(m', c, Rotate(left, t), root')
  {
    var tc, far := t.Sub(left), t.Sub(1 - left);
    var a, b := tc.Sub(left), tc.Sub(1 - left);
    LiftChildReady(m, c, t, root, left);
    RotateKeepsNodes(left, t);
    MkInOrder(left, tc, t.node, t.bal, far);
    MkInOrder(left, a, tc.node, tc.bal, b);
    assert HoleSet(c) <= CtxNodes(c);
    LiftChildRep(m, m', left, a, tc.node, tc.bal, b, t.node, t.bal, far, HoleParent(c), HoleDir(c));
    HoleRefilled(m, m', c, t.node, root, tc.node, root');
  }

  /** Case 1: the tall child comes up. */
  method RotateChild(tree: Tree, node: Node, left: Dir, ghost c: Ctx, ghost t: Shape, ghost s: set<Node>) returns (shorter: bool)
    requires Rotatable(left, t) && t.Sub(left).bal != Heavy(1 - left)
    requires Focus(Snap(s), c, t, tree.root) && node == t.node
    modifies tree`root, s
    ensures Focus(Snap(s), c, Rotate(left, t), tree.root)
    ensures shorter <==> t.Sub(left).bal == Heavy(left)
  {
    ghost var m, root := Snap(s), tree.root;
    LiftChildReady(m, c, t, root, left);
    var parent, child := node.parent, node.Child(left);
    var cright := child.Child(1 - left);
    shorter := LiftChild(tree, node, child, cright, parent, left);
    LiftChildFocus(m, Snap(s), c, t, root, tree.root, left);
  }

  // ---------- case 2 ----------

  lemma LiftGrandchildReady(m: Mem, c: Ctx, t: Shape, root: Node?, left: Dir)
    requires t.Br? && t.Sub(left).Br? && t.Sub(left).Sub(1 - left).Br? && Focus(m, c, t, root)
    ensures var n, child, tg, p := t.node, t.Sub(left).node, t.Sub(left).Sub(1 - left), HoleParent(c);
            var g, b, e := tg.node, Root(tg.Sub(left)), Root(tg.Sub(1 - left));
            && {n, child, g} + RootSet(tg.Sub(left)) + RootSet(tg.Sub(1 - left)) + HoleSet(c) <= m.Keys
            && m[n].Child(left) == child && m[child].Child(1 - left) == g && m[n].parent == p
            && m[g].Child(left) == b && m[g].Child(1 - left) == e && m[g].balance == tg.bal
            && (p != null ==> m[n].childIndex == HoleDir(c))
            && n != child && n != g && child != g
            && b != n && b != child && b != g && e != n && e != child && e != g && (b == null || b != e)
            && (p == null || (p != b && p != e && p != n && p != child && p != g))
  {
    var tc, far := t.Sub(left), t.Sub(1 - left);
    var a, tg := tc.Sub(left), tc.Sub(1 - left);
    RepMk(m, left, tc, t.node, t.bal, far, HoleParent(c), HoleDir(c));
    RepMk(m, left, a, tc.node, tc.bal, tg, t.node, left);
    RepMk(m, left, tg.Sub(left), tg.node, tg.bal, tg.Sub(1 - left), tc.node, 1 - left);
    MkInOrder(left, tc, t.node, t.bal, far);
    MkInOrder(left, a, tc.node, tc.bal, tg);
    MkInOrder(left, tg.Sub(left), tg.node, tg.bal, tg.Sub(1 - left));
  }

  /** Memory `m'` is `m` after `g` came up between `child` and `n`, handing `gl` and `gr` down. */
  ghost predicate GrandchildLifted(m: Mem, m': Mem, root: Node?, root': Node?, left: Dir,
                                   n: Node, child: Node, g: Node, gl: Node?, gr: Node?, p: Node?)
  {
    && m'.Keys == m.Keys && {n, child, g} <= m.Keys
    && m'[n] == m[n].SetChild(left, gr)
                  .(balance := if m[g].balance == Heavy(left) then Heavy(1 - left) else 0, parent := g, childIndex := 1 - left)
    && m'[child] == m[child].SetChild(1 - left, gl)
                  .(balance := if m[g].balance == Heavy(1 - left) then Heavy(left) else 0, parent := g, childIndex := left)
    && m'[g] == m[g].SetChild(left, child).SetChild(1 - left, n)
                  .(balance := 0, parent := p, childIndex := m[n].childIndex)
    && (gl != null ==> gl in m && m'[gl] == m[gl].(parent := child, childIndex := 1 - left))
    && (gr != null ==> gr in m && m'[gr] == m[gr].(parent := n, childIndex := left))
    && (if p == null then root' == g else root' == root && p in m && m'[p] == m[p].SetChild(m[n].childIndex, g))
    && forall x :: x in m && x != n && x != child && x != g && x != gl && x != gr && x != p ==> m'[x] == m[x]
  }

  lemma LiftGrandchildSub(m: Mem, m': Mem, c: Ctx, t: Shape, root: Node?, root': Node?, left: Dir)
    requires Rotatable(left, t) && t.Sub(left).bal == Heavy(1 - left) && Focus(m, c, t, root)
    requires var tg := t.Sub(left).Sub(1 - left);
             GrandchildLifted(m, m', root, root', left, t.node, t.Sub(left).node, tg.node,
                              Root(tg.Sub(left)), Root(tg.Sub(1 - left)), HoleParent(c))
    ensures Rep(m', Rotate(left, t), HoleParent(c), HoleDir(c))
  {
    var tc, far := t.Sub(left), t.Sub(1 - left);
    var a, tg := tc.Sub(left), tc.Sub(1 - left);
    LiftGrandchildReady(m, c, t, root, left);
    LiftGrandchildRep(m, m', left, a, tc.node, tc.bal, tg.Sub(left), tg.node, tg.bal, tg.Sub(1 - left),
                      t.node, t.bal, far, HoleParent(c), HoleDir(c));
  }

  lemma LiftGrandchildFocus(m: Mem, m': Mem, c: Ctx, t: Shape, root: Node?, root': Node?, left: Dir)
    requires Rotatable(left, t) && t.Sub(left).bal == Heavy(1 - left) && Focus(m, c, t, root)
    requires var tg := t.Sub(left).Sub(1 - left);
             GrandchildLifted(m, m', root, root', left, t.node, t.Sub(left).node, tg.node,
                              Root(tg.Sub(left)), Root(tg.Sub(1 - left)), HoleParent(c))
    ensures Focus(m', c, Rotate(left, t), root')
  {
    var tc := t.Sub(left);
    var tg := tc.Sub(1 - left);
    LiftGrandchildReady(m, c, t, root, left);
    LiftGrandchildSub(m, m', c, t, root, root', left);
    RotateKeepsNodes(left, t);
    MkInOrder(left, tc, t.node, t.bal, t.Sub(1 - left));
    MkInOrder(left, tc.Sub(left), tc.node, tc.bal, tg);
    MkInOrder(left, tg.Sub(left), tg.node, tg.bal, tg.Sub(1 - left));
    HoleRefilled(m, m', c, t.node, root, tg.node, root');
  }

  /** The same surgery, told as a change of memory. */
  method LiftGrandchildMem(tree: Tree, node: Node, child: Node, gchild: Node, gleft: Node?, gright: Node?, parent: Node?,
                           left: Dir, ghost s: set<Node>)
    requires child.Child(1 - left) == gchild && gchild.Child(left) == gleft && gchild.Child(1 - left) == gright
    requires node.parent == parent
    requires {node, child, gchild} <= s && (gleft != null ==> gleft in s) && (gright != null ==> gright in s)
    requires parent != null ==> parent in s
    requires node != child && node != gchild && child != gchild
    requires gleft != node && gleft != child && gleft != gchild
    requires gright != node && gright != child && gright != gchild && (gleft == null || gleft != gright)
    requires parent == null || (parent != gleft && parent != gright && parent != node && parent != child && parent != gchild)
    modifies tree`root, s
    ensures GrandchildLifted(old(Snap(s)), Snap(s), old(tree.root), tree.root, left, node, child, gchild, gleft, gright, parent)
  {
    LiftGrandchild(tree, node, child, gchild, gleft, gright, parent, left);
  }

  /** Case 2: the tall child's inner child comes up. */
  method RotateGrandchild(tree: Tree, node: Node, left: Dir, ghost c: Ctx, ghost t: Shape, ghost s: set<Node>)
    requires Rotatable(left, t) && t.Sub(left).bal == Heavy(1 - left)
    requires Focus(Snap(s), c, t, tree.root) && node == t.node
    modifies tree`root, s
    ensures Focus(Snap(s), c, Rotate(left, t), tree.root)
  {
    ghost var m, root := Snap(s), tree.root;
    LiftGrandchildReady(m, c, t, root, left);
    var parent, child := node.parent, node.Child(left);
    var gchild := child.Child(1 - left);
    var gleft, gright := gchild.Child(left), gchild.Child(1 - left);
    LiftGrandchildMem(tree, node, child, gchild, gleft, gright, parent, left, s);
    LiftGrandchildFocus(m, Snap(s), c, t, root, tree.root, left);
  }

  /**
   Restores balance at `node`, whose true balance is now -2 or 2. The subtree keeps its nodes and their
   order, and the result says whether it got shorter.
   */
  method Rotation(tree: Tree, node: Node, balance: int, ghost c: Ctx, ghost t: Shape, ghost s: set<Node>)
    returns (shorter: bool, ghost r: Shape)
    requires balance == -2 || balance == 2
    requires TooTall(if balance < 0 then 0 else 1, t) && t.Sub(if balance < 0 then 0 else 1).Br?
    requires Focus(Snap(s), c, t, tree.root) && node == t.node
    modifies tree`root, s
    ensures Focus(Snap(s), c, r, tree.root)
    ensures Balanced(r) && InOrder(r) == InOrder(t) && Nodes(r) == Nodes(t)
    ensures Height(r) == Height(t) - if shorter then 1 else 0
    ensures shorter <==> t.Sub(if balance < 0 then 0 else 1).bal != 0
  {
    var left: Dir := if balance < 0 then 0 else 1;
    TooTallRotatable(left, t);
    LiftChildReady(Snap(s), c, t, tree.root, left);
    RotateBalances(left, t);
    RotateKeepsOrder(left, t);
    RotateKeepsNodes(left, t);
    r := Rotate(left, t);
    SubBalanced(left, t.Sub(left));
    if node.Child(left).balance != Heavy(1 - left) {
      shorter := RotateChild(tree, node, left, c, t, s);
    } else {
      RotateGrandchild(tree, node, left, c, t, s);
      shorter := true;
    }
  }
}
