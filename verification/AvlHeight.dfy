/** How tall a balanced tree can be, and so how long a search can take. */
module AvlHeight {
  import opened AvlShape

  function Fib(n: nat): (f: nat) {
    if n < 2 then n else Fib(n - 1) + Fib(n - 2)
  }

  lemma {:induction false} FibMonotone(m: nat, n: nat)
    requires m <= n
    ensures Fib(m) <= Fib(n)
    decreases n
  {
    if m < n {
      FibMonotone(m, n - 1);
      assert n >= 2 ==> Fib(n) == Fib(n - 1) + Fib(n - 2);
    }
  }

  lemma FibStep(l: nat, r: nat)
    requires -1 <= l - r <= 1
    ensures Fib(1 + Max(l, r) + 2) <= Fib(l + 2) + Fib(r + 2)
  {
    var h := 1 + Max(l, r);
    assert Fib(h + 2) == Fib(h + 1) + Fib(h);
    FibMonotone(h, l + 2);
    FibMonotone(h, r + 2);
  }

  /** A balanced tree of height `h` has at least `Fib(h + 2) - 1` nodes. */
  lemma {:induction false} FibBound(t: Shape)
    requires Balanced(t)
    ensures |InOrder(t)| + 1 >= Fib(Height(t) + 2)
  {
    if t.Br? {
      FibBound(t.left);
      FibBound(t.right);
      FibStep(Height(t.left), Height(t.right));
    }
  }

  /** The bound is met: there is a balanced tree of every height with no more nodes than that. */
  function Sparsest(h: nat, ns: seq<Node>): (t: Shape)
    requires |ns| + 1 == Fib(h + 2)
    ensures Balanced(t) && Height(t) == h && InOrder(t) == ns
  {
    assert Fib(2) == 1 && Fib(3) == 2;
    if h == 0 then Leaf
    else if h == 1 then Br(Leaf, ns[0], 0, Leaf)
    else
      assert Fib(h + 2) == Fib(h + 1) + Fib(h);
      FibMonotone(1, h);
      FibMonotone(1, h + 1);
      var k := Fib(h + 1) - 1;
      var t := Br(Sparsest(h - 1, ns[..k]), ns[k], -1, Sparsest(h - 2, ns[k + 1..]));
      assert ns == ns[..k] + [ns[k]] + ns[k + 1..];
      t
  }

  function Pow2(n: nat): (p: nat) {
    if n == 0 then 1 else 2 * Pow2(n - 1)
  }

  lemma {:induction false} FibExponential(n: nat)
    ensures Pow2(n) <= Fib(2 * n + 1) && Pow2(n) <= Fib(2 * n + 2)
  {
    if n > 0 {
      FibExponential(n - 1);
      assert Fib(2 * n + 1) == Fib(2 * n) + Fib(2 * n - 1);
      assert Fib(2 * n + 2) == Fib(2 * n + 1) + Fib(2 * n);
    }
  }

  /** A search of `steps` levels needs a tree of at least `2^(steps/2) - 1` nodes: it is logarithmic. */
  lemma SearchIsLogarithmic(t: Shape, steps: nat)
    requires Balanced(t) && steps <= Height(t)
    ensures Pow2(steps / 2) <= |InOrder(t)| + 1
  {
    FibBound(t);
    FibExponential(steps / 2);
    FibMonotone(2 * (steps / 2) + 2, Height(t) + 2);
  }
}
