/** Where a node sits in a shape, and its place in the order. */
module AvlLocate {
  import opened AvlShape

  ghost function IndexOf<T>(s: seq<T>, x: T): (i: nat)
    requires x in s
    ensures i < |s| && s[i] == x
  {
    var i :| 0 <= i < |s| && s[i] == x;
    i
  }

  function InsertAt<T>(s: seq<T>, i: nat, x: T): (r: seq<T>)
    requires i <= |s|
  {
    s[..i] + [x] + s[i..]
  }

  function RemoveAt<T>(s: seq<T>, i: nat): (r: seq<T>)
    requires i < |s|
  {
    s[..i] + s[i + 1..]
  }

  /** The path to the subtree rooted at `n`, continuing from context `c`. */
  ghost function Locate(c: Ctx, t: Shape, n: Node): (r: (Ctx, Shape))
    requires n in Nodes(t)
    ensures Plug(r.0, r.1) == Plug(c, t) && r.1.Br? && r.1.node == n
    decreases t
  {
    if t.node == n then (c, t)
    else if n in Nodes(t.left) then Locate(Step(c, t.node, 0, t.bal, t.right), t.left, n)
    else Locate(Step(c, t.node, 1, t.bal, t.left), t.right, n)
  }

  lemma IndexOfMid<T>(a: seq<T>, x: T, b: seq<T>)
    requires NoDup(a + [x] + b)
    ensures x in a + [x] + b && IndexOf(a + [x] + b, x) == |a|
  {
    assert (a + [x] + b)[|a|] == x;
  }

  lemma InsertMid<T>(a: seq<T>, b: seq<T>, x: T)
    ensures InsertAt(a + b, |a|, x) == a + [x] + b
  {
    assert (a + b)[..|a|] == a && (a + b)[|a|..] == b;
  }

  lemma RemoveMid<T>(a: seq<T>, x: T, b: seq<T>)
    ensures RemoveAt(a + [x] + b, |a|) == a + b
  {
    assert (a + [x] + b)[..|a|] == a && (a + [x] + b)[|a| + 1..] == b;
  }

  /** What comes before and after the node in focus. */
  function BeforeNode(c: Ctx, t: Shape): seq<Node>
    requires t.Br?
  {
    Before(c) + InOrder(t.left)
  }

  function AfterNode(c: Ctx, t: Shape): seq<Node>
    requires t.Br?
  {
    InOrder(t.right) + After(c)
  }

  lemma Around<T>(a: seq<T>, b: seq<T>, x: T, d: seq<T>, e: seq<T>)
    ensures a + (b + [x] + d) + e == (a + b) + [x] + (d + e)
  {
  }

  lemma FocusOrder(c: Ctx, t: Shape)
    requires t.Br?
    ensures InOrder(Plug(c, t)) == BeforeNode(c, t) + [t.node] + AfterNode(c, t)
  {
    PlugInOrder(c, t);
    Around(Before(c), InOrder(t.left), t.node, InOrder(t.right), After(c));
  }

  /** The place of the node in focus. */
  lemma IndexOfFocus(c: Ctx, t: Shape)
    requires t.Br? && Distinct(Plug(c, t))
    ensures var w := InOrder(Plug(c, t));
            && w == BeforeNode(c, t) + [t.node] + AfterNode(c, t)
            && t.node in w && IndexOf(w, t.node) == |BeforeNode(c, t)|
  {
    FocusOrder(c, t);
    InOrderNoDup(Plug(c, t));
    IndexOfMid(BeforeNode(c, t), t.node, AfterNode(c, t));
  }

  /** The empty slot on side `d` of the node in focus, as a context. */
  function SlotCtx(c: Ctx, t: Shape, d: Dir): (r: Ctx)
    requires t.Br?
  {
    Step(c, t.node, d, t.bal, t.Sub(1 - d))
  }

  /** Putting `x` right before or right after `n`. */
  lemma InsertBeside<T>(a: seq<T>, n: T, b: seq<T>, x: T)
    ensures InsertAt(a + [n] + b, |a|, x) == a + [x] + ([n] + b)
    ensures InsertAt(a + [n] + b, |a| + 1, x) == (a + [n]) + [x] + b
  {
    assert a + [n] + b == a + ([n] + b);
    InsertMid(a, [n] + b, x);
    InsertMid(a + [n], b, x);
  }

  lemma SlotParts(c: Ctx, t: Shape, d: Dir)
    requires t.Br? && t.Sub(d) == Leaf
    ensures var h := SlotCtx(c, t, d);
            && Plug(h, Leaf) == Plug(c, t)
            && Before(h) == (if d == 0 then BeforeNode(c, t) else BeforeNode(c, t) + [t.node])
            && After(h) == (if d == 0 then [t.node] + AfterNode(c, t) else AfterNode(c, t))
  {
  }

  /** A node put in an empty slot beside `t.node` comes right before or right after it. */
  lemma SlotOrder(c: Ctx, t: Shape, d: Dir, x: Node)
    requires t.Br? && t.Sub(d) == Leaf && Distinct(Plug(c, t))
    ensures var w, h := InOrder(Plug(c, t)), SlotCtx(c, t, d);
            && Plug(h, Leaf) == Plug(c, t) && t.node in w
            && Before(h) + [x] + After(h) == InsertAt(w, IndexOf(w, t.node) + d, x)
  {
    IndexOfFocus(c, t);
    SlotParts(c, t, d);
    InsertBeside(BeforeNode(c, t), t.node, AfterNode(c, t), x);
  }

  lemma NodesInOrder(t: Shape, n: Node)
    ensures n in Nodes(t) <==> n in InOrder(t)
  {
    InOrderNodes(t);
    assert n in Elems(InOrder(t)) <==> n in InOrder(t);
  }
}
