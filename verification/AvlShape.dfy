/**
 The mathematical side of the AVL tree: the shape a heap of linked nodes spells
 out, one-hole contexts for walking up and down it, and the facts about order,
 balance and rotation that need no heap.
 */
module AvlShape {

  /** A child index: 0 is left, 1 is right. */
  type Dir = d: int | 0 <= d <= 1

  /** An embedded tree link, the unpacked `struct avl_node`. */
  class Node {
    var child0: Node?
    var child1: Node?
    var parent: Node?
    var childIndex: Dir
    var balance: int

    constructor ()
      ensures child0 == null && child1 == null && parent == null
      ensures childIndex == 0 && balance == 0
    {
      child0, child1, parent, childIndex, balance := null, null, null, 0, 0;
    }

    function Child(d: Dir): (n: Node?)
      reads this
    {
      if d == 0 then child0 else child1
    }

    method SetChild(d: Dir, n: Node?)
      modifies this
      ensures Child(d) == n && Child(1 - d) == old(Child(1 - d))
      ensures parent == old(parent) && childIndex == old(childIndex) && balance == old(balance)
    {
      if d == 0 { child0 := n; } else { child1 := n; }
    }
  }

  // ---------- shapes ----------

  function Max(a: int, b: int): int {
    if a < b then b else a
  }

  /** `bal` is the balance cached in `node`. */
  datatype Shape = Leaf | Br(left: Shape, node: Node, bal: int, right: Shape) {

    function Sub(d: Dir): (t: Shape)
      requires Br?
    {
      if d == 0 then left else right
    }
  }

  /** The branch whose subtree on side `d` is `near` and on the other side `far`. */
  function Mk(d: Dir, near: Shape, n: Node, b: int, far: Shape): (t: Shape)
    ensures t.Br? && t.Sub(d) == near && t.Sub(1 - d) == far && t.node == n && t.bal == b
  {
    if d == 0 then Br(near, n, b, far) else Br(far, n, b, near)
  }

  function Root(t: Shape): (n: Node?) {
    if t.Leaf? then null else t.node
  }

  ghost function Nodes(t: Shape): (s: set<Node>) {
    if t.Leaf? then {} else Nodes(t.left) + {t.node} + Nodes(t.right)
  }

  function InOrder(t: Shape): (s: seq<Node>) {
    if t.Leaf? then [] else InOrder(t.left) + [t.node] + InOrder(t.right)
  }

  function Height(t: Shape): (h: nat) {
    if t.Leaf? then 0 else 1 + Max(Height(t.left), Height(t.right))
  }

  /** No node occurs twice. */
  ghost predicate Distinct(t: Shape) {
    t.Br? ==>
      && Distinct(t.left) && Distinct(t.right)
      && t.node !in Nodes(t.left) && t.node !in Nodes(t.right)
      && Nodes(t.left) !! Nodes(t.right)
  }

  /** Every cached balance is the true height difference and is -1, 0 or 1. */
  predicate Balanced(t: Shape) {
    t.Br? ==>
      && Balanced(t.left) && Balanced(t.right)
      && t.bal == Height(t.right) - Height(t.left)
      && -1 <= t.bal <= 1
  }

  // ---------- one-hole contexts ----------

  /** The path from a subtree (the hole) up to the root; `dir` is the side of `node` the hole is on. */
  datatype Ctx = Top | Step(up: Ctx, node: Node, dir: Dir, bal: int, other: Shape)

  function Plug(c: Ctx, t: Shape): (whole: Shape) {
    match c
    case Top => t
    case Step(up, n, d, b, o) => Plug(up, Mk(d, t, n, b, o))
  }

  function HoleParent(c: Ctx): (n: Node?) {
    if c.Top? then null else c.node
  }

  function HoleDir(c: Ctx): (d: Dir) {
    if c.Top? then 0 else c.dir
  }

  ghost function CtxNodes(c: Ctx): (s: set<Node>) {
    if c.Top? then {} else CtxNodes(c.up) + {c.node} + Nodes(c.other)
  }

  ghost predicate CtxDistinct(c: Ctx) {
    c.Step? ==>
      && CtxDistinct(c.up) && Distinct(c.other)
      && c.node !in Nodes(c.other) && c.node !in CtxNodes(c.up)
      && Nodes(c.other) !! CtxNodes(c.up)
  }

  /** What lies before, and after, the hole in order. */
  function Before(c: Ctx): (s: seq<Node>) {
    if c.Top? then [] else if c.dir == 0 then Before(c.up) else Before(c.up) + InOrder(c.other) + [c.node]
  }

  function After(c: Ctx): (s: seq<Node>) {
    if c.Top? then [] else if c.dir == 1 then After(c.up) else [c.node] + InOrder(c.other) + After(c.up)
  }

  /** The context is balanced when its hole holds a subtree of height `h`. */
  predicate CtxBalanced(c: Ctx, h: nat) {
    c.Step? ==>
      && Balanced(c.other)
      && c.bal == Lean(c.dir, h, Height(c.other))
      && -1 <= c.bal <= 1
      && CtxBalanced(c.up, 1 + Max(h, Height(c.other)))
  }

  /** Puts context `inner`, a path inside a subtree, under context `outer`. */
  function Under(inner: Ctx, outer: Ctx): (c: Ctx) {
    match inner
    case Top => outer
    case Step(up, n, d, b, o) => Step(Under(up, outer), n, d, b, o)
  }

  // ---------- plugging ----------

  lemma Regroup<T>(a: seq<T>, b: seq<T>, c: seq<T>, d: seq<T>, e: seq<T>)
    ensures a + (b + c + d) + e == a + b + (c + d + e)
    ensures a + (b + c + d) + e == (a + b + c) + d + e
  {
  }

  lemma {:induction false} PlugInOrder(c: Ctx, t: Shape)
    ensures InOrder(Plug(c, t)) == Before(c) + InOrder(t) + After(c)
  {
    match c
    case Top =>
    case Step(up, n, d, b, o) =>
      PlugInOrder(up, Mk(d, t, n, b, o));
      if d == 0 {
        Regroup(Before(up), InOrder(t), [n], InOrder(o), After(up));
      } else {
        Regroup(Before(up), InOrder(o), [n], InOrder(t), After(up));
      }
  }

  lemma {:induction false} PlugNodes(c: Ctx, t: Shape)
    ensures Nodes(Plug(c, t)) == CtxNodes(c) + Nodes(t)
  {
    match c
    case Top =>
    case Step(up, n, d, b, o) => PlugNodes(up, Mk(d, t, n, b, o));
  }

  lemma {:induction false} PlugDistinct(c: Ctx, t: Shape)
    ensures Distinct(Plug(c, t)) <==> Distinct(t) && CtxDistinct(c) && Nodes(t) !! CtxNodes(c)
  {
    match c
    case Top =>
    case Step(up, n, d, b, o) =>
      var m := Mk(d, t, n, b, o);
      PlugDistinct(up, m);
      assert Nodes(m) == Nodes(t) + {n} + Nodes(o);
      assert Distinct(m) <==> Distinct(t) && Distinct(o) && n !in Nodes(t) && n !in Nodes(o) && Nodes(t) !! Nodes(o);
  }

  /** The balance of node `b` between a subtree of height `h` on side `d` and one of height `k`. */
  function Lean(d: Dir, h: int, k: int): int {
    if d == 0 then k - h else h - k
  }

  lemma MkBalanced(d: Dir, t: Shape, n: Node, b: int, o: Shape)
    ensures Balanced(Mk(d, t, n, b, o)) <==>
            Balanced(t) && Balanced(o) && b == Lean(d, Height(t), Height(o)) && -1 <= b <= 1
    ensures Height(Mk(d, t, n, b, o)) == 1 + Max(Height(t), Height(o))
  {
  }

  lemma {:induction false} PlugBalanced(c: Ctx, t: Shape)
    ensures Balanced(Plug(c, t)) <==> Balanced(t) && CtxBalanced(c, Height(t))
  {
    match c
    case Top =>
    case Step(up, n, d, b, o) =>
      PlugBalanced(up, Mk(d, t, n, b, o));
      MkBalanced(d, t, n, b, o);
  }

  lemma {:induction false} PlugUnder(inner: Ctx, outer: Ctx, t: Shape)
    ensures Plug(Under(inner, outer), t) == Plug(outer, Plug(inner, t))
  {
    match inner
    case Top =>
    case Step(up, n, d, b, o) => PlugUnder(up, outer, Mk(d, t, n, b, o));
  }

  // ---------- in-order sequences ----------

  ghost function Elems<T>(s: seq<T>): (e: set<T>) {
    set x | x in s
  }

  lemma {:induction false} InOrderNodes(t: Shape)
    ensures Elems(InOrder(t)) == Nodes(t)
  {
    if t.Br? {
      InOrderNodes(t.left);
      InOrderNodes(t.right);
      assert Elems(InOrder(t)) == Elems(InOrder(t.left)) + {t.node} + Elems(InOrder(t.right));
    }
  }

  ghost predicate NoDup<T>(s: seq<T>) {
    forall i, j :: 0 <= i < j < |s| ==> s[i] != s[j]
  }

  lemma NoDupConcat<T>(a: seq<T>, b: seq<T>)
    requires NoDup(a) && NoDup(b)
    requires Elems(a) !! Elems(b)
    ensures NoDup(a + b)
  {
    var s := a + b;
    forall i, j | 0 <= i < j < |s| ensures s[i] != s[j] {
      if i < |a| <= j {
        assert s[i] in Elems(a) && s[j] in Elems(b);
      }
    }
  }

  lemma {:induction false} InOrderNoDup(t: Shape)
    requires Distinct(t)
    ensures NoDup(InOrder(t))
  {
    if t.Br? {
      InOrderNoDup(t.left);
      InOrderNoDup(t.right);
      InOrderNodes(t.left);
      InOrderNodes(t.right);
      NoDupConcat(InOrder(t.left), [t.node]);
      NoDupConcat(InOrder(t.left) + [t.node], InOrder(t.right));
    }
  }

  // ---------- rotation ----------

  /** The balance of a node that is taller on side `d`. */
  function Heavy(d: Dir): (b: int) {
    if d == 0 then -1 else 1
  }

  /** `t` has the two levels on side `left` that a rotation at its root rearranges. */
  predicate Rotatable(left: Dir, t: Shape) {
    && t.Br? && t.Sub(left).Br?
    && (t.Sub(left).bal == Heavy(1 - left) ==> t.Sub(left).Sub(1 - left).Br?)
  }

  /** `child`, with subtrees `a` and `b`, comes up over `n`. */
  function RotateOnce(left: Dir, a: Shape, child: Node, bal: int, b: Shape, n: Node, far: Shape): (r: Shape) {
    Mk(left, a, child, bal + Heavy(1 - left), Mk(left, b, n, -(bal + Heavy(1 - left)), far))
  }

  /** `g`, with subtrees `b` and `e`, comes up between `child` and `n`. */
  function RotateTwice(left: Dir, a: Shape, child: Node, b: Shape, g: Node, bal: int, e: Shape, n: Node, far: Shape): (r: Shape) {
    Mk(left,
       Mk(left, a, child, if bal == Heavy(1 - left) then Heavy(left) else 0, b),
       g, 0,
       Mk(left, e, n, if bal == Heavy(left) then Heavy(1 - left) else 0, far))
  }

  /** The shape `avl_rotation` leaves where `t` was too tall on side `left`. */
  function Rotate(left: Dir, t: Shape): (r: Shape)
    requires Rotatable(left, t)
  {
    var right: Dir := 1 - left;
    var child := t.Sub(left);
    if child.bal != Heavy(right) then
      RotateOnce(left, child.Sub(left), child.node, child.bal, child.Sub(right), t.node, t.Sub(right))
    else
      var g := child.Sub(right);
      RotateTwice(left, child.Sub(left), child.node, g.Sub(left), g.node, g.bal, g.Sub(right), t.node, t.Sub(right))
  }

  /** InOrder read from side `d`. */
  lemma MkInOrder(d: Dir, near: Shape, n: Node, b: int, far: Shape)
    ensures d == 0 ==> InOrder(Mk(d, near, n, b, far)) == InOrder(near) + [n] + InOrder(far)
    ensures d == 1 ==> InOrder(Mk(d, near, n, b, far)) == InOrder(far) + [n] + InOrder(near)
    ensures Nodes(Mk(d, near, n, b, far)) == Nodes(near) + {n} + Nodes(far)
    ensures Distinct(Mk(d, near, n, b, far)) <==>
            && Distinct(near) && Distinct(far) && n !in Nodes(near) && n !in Nodes(far)
            && Nodes(near) !! Nodes(far)
  {
  }
}
