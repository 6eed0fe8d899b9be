/** The swap at the start of `avl_remove`: a node with two children changes places with its neighbour. */
module AvlSwap {
  import opened AvlShape
  import opened AvlHeap
  import opened AvlRotate

  /** `x` takes the place of the node in focus: it gets its fields, and everything linked to it links to `x`. */
  lemma ReplaceNode(m: Mem, m': Mem, c: Ctx, t: Shape, x: Node, root: Node?, root': Node?)
    requires t.Br? && Focus(m, c, t, root) && t.node in m
    requires x !in Nodes(t) && x !in CtxNodes(c) && x in m' && m'[x] == m[t.node]
    requires t.left.Br? ==> t.left.node in m && t.left.node in m' && m'[t.left.node] == m[t.left.node].(parent := x)
    requires t.right.Br? ==> t.right.node in m && t.right.node in m' && m'[t.right.node] == m[t.right.node].(parent := x)
    requires if c.Top? then root' == x
             else root' == root && c.node in m && c.node in m' && m'[c.node] == m[c.node].SetChild(c.dir, x)
    requires Agree(m, m', Nodes(t) + CtxNodes(c) - {t.node} - RootSet(t.left) - RootSet(t.right) - HoleSet(c))
    requires Nodes(t) + CtxNodes(c) - {t.node} <= m'.Keys
    ensures Focus(m', c, Br(t.left, x, t.bal, t.right), root')
  {
    RepMk(m, 0, t.left, t.node, t.bal, t.right, HoleParent(c), HoleDir(c));
    RepRehang(m, m', t.left, t.node, 0, x, 0);
    RepRehang(m, m', t.right, t.node, 1, x, 1);
    HoleRefilled(m, m', c, t.node, root, x, root');
  }

  /** A node `del` with two children, and `node`, with nothing on its far side, somewhere under it on side `left`. */
  datatype Site = Site(left: Dir, c: Ctx, del: Node, b: int, far: Shape, inner: Ctx, a: Shape, node: Node, nb: int) {
    /** The subtree of `x`, standing where `node` is. */
    function Thin(x: Node): Shape {
      Mk(left, a, x, nb, Leaf)
    }

    /** The subtree of `y`, standing where `del` is, over `x` standing where `node` is. */
    function Whole(x: Node, y: Node): Shape {
      Mk(left, Plug(inner, Thin(x)), y, b, far)
    }

    /** The context of `node` when `y` stands where `del` is. */
    function Deep(y: Node): Ctx {
      Under(inner, Step(c, y, left, b, far))
    }

    /** The old parent of `node`. */
    function Holder(): Node {
      if inner.Top? then del else inner.node
    }

    ghost predicate In(m: Mem, root: Node?, tmp: Node) {
      && far.Br? && Focus(m, c, Whole(node, del), root)
      && tmp !in Nodes(Whole(node, del)) && tmp !in CtxNodes(c)
    }
  }

  /** The two ways of seeing the same tree. */
  lemma SiteFocus(m: Mem, w: Site, x: Node, y: Node, root: Node?)
    ensures Focus(m, w.c, w.Whole(x, y), root) <==> Focus(m, w.Deep(y), w.Thin(x), root)
    ensures Nodes(w.Whole(x, y)) + CtxNodes(w.c) == Nodes(w.Thin(x)) + CtxNodes(w.Deep(y))
  {
    PlugUnder(w.inner, Step(w.c, y, w.left, w.b, w.far), w.Thin(x));
    PlugNodes(w.c, w.Whole(x, y));
    PlugNodes(w.Deep(y), w.Thin(x));
    if Focus(m, w.c, w.Whole(x, y), root) {
      Unfocus(m, w.c, w.Whole(x, y), root);
      Refocus(m, w.Deep(y), w.Thin(x), root);
    }
    if Focus(m, w.Deep(y), w.Thin(x), root) {
      Unfocus(m, w.Deep(y), w.Thin(x), root);
      Refocus(m, w.c, w.Whole(x, y), root);
    }
  }

  /** Memory after `tmp` took the place of `node`. */
  ghost function Stage(m: Mem, w: Site, tmp: Node): (m1: Mem)
    requires w.node in m && w.Holder() in m
    requires w.a.Br? ==> w.a.node in m
  {
    var m1 := m[tmp := m[w.node]][w.Holder() := m[w.Holder()].SetChild(m[w.node].childIndex, tmp)];
    if w.a.Br? then m1[w.a.node := m[w.a.node].(parent := tmp)] else m1
  }

  /** The nodes on and around `node`'s place are there and are different. */
  lemma SiteNode(m: Mem, w: Site, root: Node?, tmp: Node)
    requires w.In(m, root, tmp)
    ensures w.node in m && w.Holder() in m && (w.a.Br? ==> w.a.node in m)
    ensures m[w.node].parent == w.Holder() && m[w.node].Child(w.left) == Root(w.a) && m[w.node].Child(1 - w.left) == null
    ensures m[w.node].childIndex == HoleDir(w.Deep(w.del)) && HoleParent(w.Deep(w.del)) == w.Holder()
    ensures w.node != w.Holder() && w.node !in RootSet(w.a) && w.Holder() !in RootSet(w.a)
    ensures tmp != w.node && tmp != w.Holder() && tmp !in RootSet(w.a)
  {
    SiteFocus(m, w, w.node, w.del, root);
    RepMk(m, w.left, w.a, w.node, w.nb, Leaf, w.Holder(), HoleDir(w.Deep(w.del)));
    MkInOrder(w.left, w.a, w.node, w.nb, Leaf);
    assert w.Holder() in CtxNodes(w.Deep(w.del));
  }

  lemma StageFocus(m: Mem, w: Site, root: Node?, tmp: Node)
    requires w.In(m, root, tmp) && w.node in m && w.Holder() in m && (w.a.Br? ==> w.a.node in m)
    ensures Focus(Stage(m, w, tmp), w.c, w.Whole(tmp, w.del), root)
  {
    SiteNode(m, w, root, tmp);
    SiteFocus(m, w, w.node, w.del, root);
    var t := w.Thin(w.node);
    MkInOrder(w.left, w.a, w.node, w.nb, Leaf);
    ReplaceNode(m, Stage(m, w, tmp), w.Deep(w.del), t, tmp, root, root);
    SiteFocus(Stage(m, w, tmp), w, tmp, w.del, root);
  }

  lemma {:induction false} PlugRoot(c: Ctx, t: Shape, t': Shape)
    requires c.Step?
    ensures Root(Plug(c, t)) == Root(Plug(c, t'))
    ensures Root(Plug(c, t)) != null && Root(Plug(c, t)) in CtxNodes(c)
  {
    var m, m' := Mk(c.dir, t, c.node, c.bal, c.other), Mk(c.dir, t', c.node, c.bal, c.other);
    if c.up.Step? {
      PlugRoot(c.up, m, m');
    }
  }

  /**
   Memory `m'` is `m` after the swap: `tmp` has `node`'s fields and place, `node` has those of `del`, and the
   nodes linked to either are relinked. `l` and `r` are the children of `del`, `q` the old parent of `node`,
   `a` its child.
   */
  ghost predicate Swapped(m: Mem, m': Mem, root: Node?, root': Node?, left: Dir, del: Node, node: Node, tmp: Node,
                          l: Node, r: Node, p: Node?, q: Node, a: Node?)
  {
    && {del, node, l, r, q} <= m.Keys && m'.Keys == m.Keys + {tmp}
    && m'[tmp] == m[node].(parent := if node == l then node else q)
    && m'[node] == m[del].SetChild(left, if node == l then tmp else l)
    && m'[r] == m[r].(parent := node)
    && (node != l ==>
          && m'[l] == (if q == l then m[l].SetChild(m[node].childIndex, tmp) else m[l]).(parent := node)
          && (q != l ==> m'[q] == m[q].SetChild(m[node].childIndex, tmp)))
    && (a != null ==> a in m && m'[a] == m[a].(parent := tmp))
    && (if p == null then root' == node else root' == root && p in m && m'[p] == m[p].SetChild(m[del].childIndex, node))
    && forall x :: x in m && x != del && x != node && x != l && x != r && x != q && x != a && x != p ==> m'[x] == m[x]
  }

  /** `node` takes the place of `del` over the staged memory. */
  lemma SwapNodes(m: Mem, w: Site, root: Node?, tmp: Node)
    requires w.In(m, root, tmp)
    ensures w.node !in Nodes(w.Whole(tmp, w.del)) && w.node !in CtxNodes(w.c)
    ensures Root(Plug(w.inner, w.Thin(w.node))) == (if w.inner.Top? then w.node else Root(Plug(w.inner, w.Thin(tmp))))
    ensures w.inner.Top? <==> Root(Plug(w.inner, w.Thin(w.node))) == w.node
    ensures w.inner.Top? ==> Root(Plug(w.inner, w.Thin(tmp))) == tmp
  {
    SiteFocus(m, w, w.node, w.del, root);
    SiteFocus(m, w, tmp, w.del, root);
    MkInOrder(w.left, w.a, w.node, w.nb, Leaf);
    MkInOrder(w.left, w.a, tmp, w.nb, Leaf);
    if w.inner.Step? {
      PlugRoot(w.inner, w.Thin(w.node), w.Thin(tmp));
      UnderNodes(w.inner, Step(w.c, w.del, w.left, w.b, w.far));
    }
  }

  lemma {:induction false} UnderNodes(inner: Ctx, outer: Ctx)
    ensures CtxNodes(Under(inner, outer)) == CtxNodes(inner) + CtxNodes(outer)
  {
    if inner.Step? {
      UnderNodes(inner.up, outer);
    }
  }

  /** The nodes around `del`'s place. */
  lemma SiteDel(m: Mem, w: Site, root: Node?, tmp: Node)
    requires w.In(m, root, tmp)
    ensures var l, r, p := Plug(w.inner, w.Thin(w.node)), w.far.node, HoleParent(w.c);
            && l.Br? && {w.del, r, l.node} <= m.Keys && HoleSet(w.c) <= m.Keys
            && m[w.del].Child(w.left) == l.node && m[w.del].Child(1 - w.left) == r && m[w.del].parent == p
            && (p != null ==> m[w.del].childIndex == w.c.dir)
            && w.del != r && w.del != l.node && r != l.node && p != w.del && p != r && p != l.node
  {
    var l := Plug(w.inner, w.Thin(w.node));
    if w.inner.Step? { PlugRoot(w.inner, w.Thin(w.node), Leaf); }
    RepMk(m, w.left, l, w.del, w.b, w.far, HoleParent(w.c), HoleDir(w.c));
    MkInOrder(w.left, l, w.del, w.b, w.far);
  }

  /** Which part of the tree each pointer of the swap lies in. */
  lemma SiteParts(m: Mem, w: Site, root: Node?, tmp: Node)
    requires w.In(m, root, tmp)
    ensures var l := Plug(w.inner, w.Thin(w.node));
            && w.node in Nodes(l) && RootSet(w.a) <= Nodes(l) && l.Br? && l.node in Nodes(l)
            && (w.inner.Step? ==> w.Holder() in Nodes(l))
            && w.del !in Nodes(l) && w.far.node in Nodes(w.far) && HoleSet(w.c) <= CtxNodes(w.c)
            && Nodes(l) !! Nodes(w.far) && Nodes(l) !! CtxNodes(w.c) && Nodes(w.far) !! CtxNodes(w.c)
            && w.del !in Nodes(w.far) && w.del !in CtxNodes(w.c)
            && tmp !in Nodes(l) && tmp !in Nodes(w.far) && tmp != w.del
  {
    var l := Plug(w.inner, w.Thin(w.node));
    if w.inner.Step? { PlugRoot(w.inner, w.Thin(w.node), Leaf); }
    MkInOrder(w.left, l, w.del, w.b, w.far);
    PlugNodes(w.inner, w.Thin(w.node));
    MkInOrder(w.left, w.a, w.node, w.nb, Leaf);
  }

  /** Over the staged memory, the swap is `node` taking the place of `del`. */
  lemma SwapOverStage(m: Mem, m': Mem, w: Site, root: Node?, root': Node?, tmp: Node)
    requires w.In(m, root, tmp) && tmp !in m && w.node in m && w.Holder() in m && (w.a.Br? ==> w.a.node in m)
    requires var l := Plug(w.inner, w.Thin(w.node));
             l.Br? && Swapped(m, m', root, root', w.left, w.del, w.node, tmp, l.node, w.far.node, HoleParent(w.c), w.Holder(), Root(w.a))
    ensures var m1, l1 := Stage(m, w, tmp), Plug(w.inner, w.Thin(tmp));
            && w.del in m1 && w.node in m' && m'[w.node] == m1[w.del]
            && l1.Br? && l1.node in m1 && l1.node in m' && m'[l1.node] == m1[l1.node].(parent := w.node)
            && w.far.node in m1 && w.far.node in m' && m'[w.far.node] == m1[w.far.node].(parent := w.node)
            && if w.c.Top? then root' == w.node
               else root' == root && w.c.node in m1 && w.c.node in m' && m'[w.c.node] == m1[w.c.node].SetChild(w.c.dir, w.node)
  {
    SiteParts(m, w, root, tmp);
    SiteNode(m, w, root, tmp);
    SiteDel(m, w, root, tmp);
    SwapNodes(m, w, root, tmp);
  }

  lemma SwapAgrees(m: Mem, m': Mem, w: Site, root: Node?, root': Node?, tmp: Node)
    requires w.In(m, root, tmp) && tmp !in m && w.node in m && w.Holder() in m && (w.a.Br? ==> w.a.node in m)
    requires var l := Plug(w.inner, w.Thin(w.node));
             l.Br? && Swapped(m, m', root, root', w.left, w.del, w.node, tmp, l.node, w.far.node, HoleParent(w.c), w.Holder(), Root(w.a))
    ensures var m1, l1 := Stage(m, w, tmp), Plug(w.inner, w.Thin(tmp));
            Agree(m1, m', m1.Keys - {w.del, w.node} - RootSet(l1) - {w.far.node} - HoleSet(w.c))
  {
    SiteParts(m, w, root, tmp);
    SiteNode(m, w, root, tmp);
    SiteDel(m, w, root, tmp);
    SwapNodes(m, w, root, tmp);
  }

  /** After the swap the tree is as before but with `tmp` for `node` and `node` for `del`. */
  lemma SwapFocus(m: Mem, m': Mem, w: Site, root: Node?, root': Node?, tmp: Node)
    requires w.In(m, root, tmp) && tmp !in m
    requires var l := Plug(w.inner, w.Thin(w.node));
             l.Br? && Swapped(m, m', root, root', w.left, w.del, w.node, tmp, l.node, w.far.node, HoleParent(w.c), w.Holder(), Root(w.a))
    ensures Focus(m', w.Deep(w.node), w.Thin(tmp), root')
  {
    SiteNode(m, w, root, tmp);
    SwapNodes(m, w, root, tmp);
    StageFocus(m, w, root, tmp);
    SwapOverStage(m, m', w, root, root', tmp);
    SwapAgrees(m, m', w, root, root', tmp);
    ReplaceNode(Stage(m, w, tmp), m', w.c, w.Whole(tmp, w.del), w.node, root, root');
    SiteFocus(m', w, tmp, w.node, root');
  }

  // ---------- the link surgery ----------

  method CopyNode(dst: Node, src: Node)
    modifies dst
    ensures View(dst) == old(View(src))
  {
    dst.child0, dst.child1 := src.child0, src.child1;
    dst.parent, dst.childIndex, dst.balance := src.parent, src.childIndex, src.balance;
  }

  /** Saves `node` in `tmp` and moves it to the spot of `delete`. */
  method MoveToSpot(tree: Tree, delete: Node, node: Node, tmp: Node, left: Dir, ghost l: Node, ghost r: Node, ghost p: Node?)
    requires delete.Child(left) == l && delete.Child(1 - left) == r && delete.parent == p
    requires delete != node && delete != tmp && node != tmp && r != node && r != delete && r != tmp && r != l
    requires l != delete && l != tmp
    requires p == null || (p != delete && p != node && p != tmp && p != l && p != r)
    modifies tree`root, node, tmp, l, r, p
    ensures View(tmp) == old(View(node)).(parent := if node == l then node else old(node.parent))
    ensures View(node) == old(View(delete)).SetChild(left, if node == l then tmp else l)
    ensures node != l ==> View(l) == old(View(l)).(parent := node)
    ensures View(r) == old(View(r)).(parent := node)
    ensures if p == null then tree.root == node
            else tree.root == old(tree.root) && View(p) == old(View(p)).SetChild(old(delete.childIndex), node)
  {
    CopyNode(tmp, node);
    CopyNode(node, delete);
    if node.Child(left) == node {
      node.SetChild(left, tmp);
    }
    var parent := node.parent;
    SetHole(tree, parent, node.childIndex, node);
    node.Child(left).parent := node;
    node.Child(1 - left).parent := node;
  }

  /** Links `tmp` in where `node` used to be. */
  method LinkTemporary(tmp: Node, ghost q: Node, ghost a: Node?, ghost left: Dir)
    requires tmp.parent == q && tmp.Child(left) == a && tmp.Child(1 - left) == null
    requires q != tmp && a != tmp && a != q
    modifies q, a
    ensures View(q) == old(View(q)).SetChild(tmp.childIndex, tmp)
    ensures a != null ==> View(a) == old(View(a)).(parent := tmp)
  {
    var parent := tmp.parent;
    parent.SetChild(tmp.childIndex, tmp);
    var whichChild := if tmp.child1 != null then 1 else 0;
    if tmp.Child(whichChild) != null {
      tmp.Child(whichChild).parent := tmp;
    }
  }

  /** The whole surgery as a change of memory. */
  method SwapLinks(tree: Tree, delete: Node, node: Node, tmp: Node, left: Dir,
                   ghost l: Node, ghost r: Node, ghost p: Node?, ghost q: Node, ghost a: Node?, ghost s: set<Node>)
    requires {delete, node, l, r, q} <= s && tmp !in s && (p != null ==> p in s) && (a != null ==> a in s)
    requires delete.Child(left) == l && delete.Child(1 - left) == r && delete.parent == p
    requires node.parent == q && node.Child(left) == a && node.Child(1 - left) == null
    requires node == l <==> q == delete
    requires node == l ==> node.childIndex == left
    requires delete != node && r != node && r != delete && r != l && l != delete && q != node && q != r
    requires p == null || (p != delete && p != node && p != l && p != r && p != q && p != a)
    requires a == null || (a != delete && a != node && a != l && a != r && a != q)
    modifies tree`root, s, tmp
    ensures Swapped(old(Snap(s)), Snap(s + {tmp}), old(tree.root), tree.root, left, delete, node, tmp, l, r, p, q, a)
  {
    MoveToSpot(tree, delete, node, tmp, left, l, r, p);
    LinkTemporary(tmp, if node == l then node else q, a, left);
  }

  /** The pointers of the swap are where `avl_remove` looks for them, and are different. */
  lemma SwapReady(m: Mem, w: Site, root: Node?, tmp: Node)
    requires w.In(m, root, tmp)
    ensures var l := Plug(w.inner, w.Thin(w.node));
            var r, p, q, a := w.far.node, HoleParent(w.c), w.Holder(), Root(w.a);
            && l.Br? && {w.del, w.node, l.node, r, q} <= m.Keys && (p != null ==> p in m) && (a != null ==> a in m)
            && m[w.del].Child(w.left) == l.node && m[w.del].Child(1 - w.left) == r && m[w.del].parent == p
            && m[w.node].parent == q && m[w.node].Child(w.left) == a && m[w.node].Child(1 - w.left) == null
            && (w.node == l.node <==> q == w.del) && (w.node == l.node ==> m[w.node].childIndex == w.left)
            && w.del != w.node && r != w.node && r != w.del && r != l.node && l.node != w.del && q != w.node && q != r
            && (p == null || (p != w.del && p != w.node && p != l.node && p != r && p != q && p != a))
            && (a == null || (a != w.del && a != w.node && a != r && a != q))
  {
    SiteParts(m, w, root, tmp);
    SiteNode(m, w, root, tmp);
    SiteDel(m, w, root, tmp);
    SwapNodes(m, w, root, tmp);
  }

  /** The child of `node` is not the child of `del`. */
  lemma SiteChild(m: Mem, w: Site, root: Node?, tmp: Node)
    requires w.In(m, root, tmp) && w.a.Br?
    ensures Root(Plug(w.inner, w.Thin(w.node))) != w.a.node
  {
    SiteFocus(m, w, w.node, w.del, root);
    MkInOrder(w.left, w.a, w.node, w.nb, Leaf);
    if w.inner.Step? {
      PlugRoot(w.inner, w.Thin(w.node), Leaf);
      UnderNodes(w.inner, Step(w.c, w.del, w.left, w.b, w.far));
    }
  }

  /** Swaps `delete` with its neighbour `node`, leaving a temporary in the neighbour's place. */
  method Swap(tree: Tree, delete: Node, node: Node, left: Dir, ghost w: Site, ghost s: set<Node>) returns (tmp: Node)
    requires w.far.Br? && Focus(Snap(s), w.c, w.Whole(node, delete), tree.root)
    requires w.left == left && w.del == delete && w.node == node
    modifies tree`root, s
    ensures fresh(tmp) && tmp !in s && Focus(Snap(s + {tmp} - {delete}), w.Deep(node), w.Thin(tmp), tree.root)
  {
    ghost var m, root := Snap(s), tree.root;
    tmp := new Node();
    SwapReady(m, w, root, tmp);
    if w.a.Br? { SiteChild(m, w, root, tmp); }
    ghost var l := Plug(w.inner, w.Thin(node));
    SwapLinks(tree, delete, node, tmp, left, l.node, w.far.node, HoleParent(w.c), w.Holder(), Root(w.a), s);
    SwapFocus(m, Snap(s + {tmp}), w, root, tree.root, tmp);
    SwapDrops(m, w, root, tmp);
    FocusFrame(Snap(s + {tmp}), Snap(s + {tmp} - {delete}), w.Deep(node), w.Thin(tmp), tree.root);
  }

  /** The nodes of a site, part by part. */
  lemma SiteNodes(w: Site, x: Node, y: Node)
    ensures Nodes(w.Whole(x, y)) == CtxNodes(w.inner) + Nodes(w.a) + {x} + {y} + Nodes(w.far)
    ensures CtxNodes(w.Deep(y)) == CtxNodes(w.inner) + CtxNodes(w.c) + {y} + Nodes(w.far)
    ensures Nodes(w.Thin(x)) == Nodes(w.a) + {x}
  {
    UnderNodes(w.inner, Step(w.c, y, w.left, w.b, w.far));
    MkInOrder(w.left, w.a, x, w.nb, Leaf);
    PlugNodes(w.inner, w.Thin(x));
    MkInOrder(w.left, Plug(w.inner, w.Thin(x)), y, w.b, w.far);
  }

  /** `del` is no longer part of the tree. */
  lemma SwapDrops(m: Mem, w: Site, root: Node?, tmp: Node)
    requires w.In(m, root, tmp)
    ensures w.del !in CtxNodes(w.Deep(w.node)) && w.del !in Nodes(w.Thin(tmp))
    ensures CtxNodes(w.Deep(w.node)) + Nodes(w.Thin(tmp)) == CtxNodes(w.c) + Nodes(w.Whole(w.node, w.del)) - {w.del} + {tmp}
  {
    SiteParts(m, w, root, tmp);
    SiteNodes(w, w.node, w.del);
    SiteNodes(w, tmp, w.node);
    PlugNodes(w.inner, w.Thin(w.node));
    SetSwap(CtxNodes(w.inner), Nodes(w.a), Nodes(w.far), CtxNodes(w.c), w.node, w.del, tmp);
  }

  lemma SwapLeaves(m: Mem, w: Site, root: Node?, tmp: Node, s: set<Node>)
    requires w.In(m, root, tmp) && s == CtxNodes(w.c) + Nodes(w.Whole(w.node, w.del)) && tmp !in s
    ensures s + {tmp} - {w.del} == CtxNodes(w.Deep(w.node)) + Nodes(w.a) + {tmp}
    ensures (s + {tmp} - {w.del}) - {tmp} == s - {w.del}
  {
    SwapDrops(m, w, root, tmp);
    SiteNodes(w, w.node, w.del);
    SetTrade(s, w.del, tmp);
    assert Nodes(w.Thin(tmp)) == Nodes(w.a) + {tmp} by { SiteNodes(w, tmp, w.node); }
    assert CtxNodes(w.Deep(w.node)) + Nodes(w.Thin(tmp)) == CtxNodes(w.Deep(w.node)) + Nodes(w.a) + {tmp};
  }

  lemma SetTrade<T>(s: set<T>, y: T, z: T)
    requires y in s && z !in s
    ensures s - {y} + {z} == s + {z} - {y} && (s + {z} - {y}) - {z} == s - {y}
  {
  }

  lemma SetSwap<T>(i: set<T>, a: set<T>, f: set<T>, c: set<T>, x: T, y: T, z: T)
    requires y !in i && y !in a && y !in f && y !in c && y != x && y != z
    ensures (i + c + {x} + f) + (a + {z}) == c + (i + a + {x} + {y} + f) - {y} + {z}
  {
  }
}
