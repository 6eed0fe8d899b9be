/** What a rotation does to a shape: it restores balance and keeps the order. */
module AvlRotation {
  import opened AvlShape

  lemma RotateKeepsOrder(left: Dir, t: Shape)
    requires Rotatable(left, t)
    ensures InOrder(Rotate(left, t)) == InOrder(t)
  {
    var right: Dir := 1 - left;
    var child, far := t.Sub(left), t.Sub(right);
    if child.bal != Heavy(right) {
      var a, b := InOrder(child.Sub(left)), InOrder(child.Sub(right));
      if left == 0 {
        assert a + [child.node] + (b + [t.node] + InOrder(far)) == (a + [child.node] + b) + [t.node] + InOrder(far);
      } else {
        assert (InOrder(far) + [t.node] + b) + [child.node] + a == InOrder(far) + [t.node] + (b + [child.node] + a);
      }
    } else {
      var g := child.Sub(right);
      var a, b, c, e := InOrder(child.Sub(left)), InOrder(g.Sub(left)), InOrder(g.Sub(right)), InOrder(far);
      if left == 0 {
        assert (a + [child.node] + b) + [g.node] + (c + [t.node] + e)
            == (a + [child.node] + (b + [g.node] + c)) + [t.node] + e;
      } else {
        assert (e + [t.node] + c) + [g.node] + (b + [child.node] + a)
            == e + [t.node] + ((c + [g.node] + b) + [child.node] + a);
      }
    }
  }

  lemma RotateKeepsNodes(left: Dir, t: Shape)
    requires Rotatable(left, t)
    ensures Nodes(Rotate(left, t)) == Nodes(t)
    ensures Distinct(t) ==> Distinct(Rotate(left, t))
  {
    var right: Dir := 1 - left;
    var child, far := t.Sub(left), t.Sub(right);
    MkInOrder(left, child, t.node, t.bal, far);
    MkInOrder(left, child.Sub(left), child.node, child.bal, child.Sub(right));
    var a, b := child.Sub(left), child.Sub(right);
    if child.bal != Heavy(right) {
      var bal := child.bal + Heavy(right);
      MkInOrder(left, b, t.node, -bal, far);
      MkInOrder(left, a, child.node, bal, Mk(left, b, t.node, -bal, far));
    } else {
      MkInOrder(left, b.Sub(left), b.node, b.bal, b.Sub(right));
      var r := Rotate(left, t);
      var p, q := r.Sub(left), r.Sub(right);
      MkInOrder(left, a, child.node, p.bal, b.Sub(left));
      MkInOrder(left, b.Sub(right), t.node, q.bal, far);
      MkInOrder(left, p, b.node, 0, q);
    }
  }

  /** A node too tall by two on side `left` over balanced subtrees. */
  predicate TooTall(left: Dir, t: Shape) {
    && t.Br? && Balanced(t.Sub(left)) && Balanced(t.Sub(1 - left))
    && Height(t.Sub(left)) == Height(t.Sub(1 - left)) + 2
  }

  lemma SubBalanced(d: Dir, t: Shape)
    requires t.Br? && Balanced(t)
    ensures Balanced(t.Sub(d)) && Balanced(t.Sub(1 - d))
    ensures t.bal == Lean(d, Height(t.Sub(d)), Height(t.Sub(1 - d))) && -1 <= t.bal <= 1
    ensures Height(t) == 1 + Max(Height(t.Sub(d)), Height(t.Sub(1 - d)))
  {
    MkBalanced(d, t.Sub(d), t.node, t.bal, t.Sub(1 - d));
  }

  lemma TooTallRotatable(left: Dir, t: Shape)
    requires TooTall(left, t)
    ensures Rotatable(left, t)
  {
    SubBalanced(left, t.Sub(left));
  }

  lemma RotateOnceBalances(left: Dir, a: Shape, child: Node, bal: int, b: Shape, n: Node, far: Shape)
    requires Balanced(a) && Balanced(b) && Balanced(far)
    requires bal == Lean(left, Height(a), Height(b)) && -1 <= bal <= 1 && bal != Heavy(1 - left)
    requires 1 + Max(Height(a), Height(b)) == Height(far) + 2
    ensures Balanced(RotateOnce(left, a, child, bal, b, n, far))
    ensures Height(RotateOnce(left, a, child, bal, b, n, far)) == Height(far) + (if bal == 0 then 3 else 2)
  {
    var nb := bal + Heavy(1 - left);
    MkBalanced(left, b, n, -nb, far);
    MkBalanced(left, a, child, nb, Mk(left, b, n, -nb, far));
  }

  lemma TwiceBelow(d: Dir, near: Shape, n: Node, bal: int, far: Shape)
    requires Balanced(near) && Balanced(far) && bal == Lean(d, Height(near), Height(far)) && -1 <= bal <= 1
    ensures var r := Mk(d, near, n, bal, far); Balanced(r) && Height(r) == 1 + Max(Height(near), Height(far))
  {
    MkBalanced(d, near, n, bal, far);
  }

  lemma RotateTwiceBalances(left: Dir, a: Shape, child: Node, b: Shape, g: Node, bal: int, e: Shape, n: Node, far: Shape)
    requires Balanced(a) && Balanced(b) && Balanced(e) && Balanced(far)
    requires bal == Lean(left, Height(b), Height(e)) && -1 <= bal <= 1
    requires Height(a) == Height(far) == Max(Height(b), Height(e))
    ensures Balanced(RotateTwice(left, a, child, b, g, bal, e, n, far))
    ensures Height(RotateTwice(left, a, child, b, g, bal, e, n, far)) == Height(far) + 2
  {
    var bc := if bal == Heavy(1 - left) then Heavy(left) else 0;
    var bn := if bal == Heavy(left) then Heavy(1 - left) else 0;
    TwiceBelow(left, a, child, bc, b);
    TwiceBelow(left, e, n, bn, far);
    TwiceBelow(left, Mk(left, a, child, bc, b), g, 0, Mk(left, e, n, bn, far));
  }

  /** Balance is restored, and the subtree gets shorter exactly when its tall child was not level. */
  lemma RotateBalances(left: Dir, t: Shape)
    requires TooTall(left, t) && Rotatable(left, t)
    ensures Balanced(Rotate(left, t))
    ensures Height(Rotate(left, t)) == Height(t.Sub(left)) + (if t.Sub(left).bal == 0 then 1 else 0)
  {
    var right: Dir := 1 - left;
    var child, far := t.Sub(left), t.Sub(right);
    SubBalanced(left, child);
    var a, b := child.Sub(left), child.Sub(right);
    if child.bal != Heavy(right) {
      RotateOnceBalances(left, a, child.node, child.bal, b, t.node, far);
    } else {
      SubBalanced(left, b);
      RotateTwiceBalances(left, a, child.node, b.Sub(left), b.node, b.bal, b.Sub(right), t.node, far);
    }
  }
}
