/** Picking in rotation visits every entry of an unchanged tree before any entry twice. */
module FilesetRotor {
  import opened AvlShape
  import opened FilesetOrder
  import opened FilesetState

  /** The indices the rotor gives, one after the other, starting from `i`. */
  ghost function Turns(s: set<nat>, i: nat, n: nat): (r: seq<nat>)
    requires s != {}
    decreases n
  {
    if n == 0 then [] else var x := CyclicFrom(s, i); [x] + Turns(s, x + 1, n - 1)
  }

  /** What lies between the start `a` and the rotor `i`, going up and perhaps round. */
  ghost function Between(s: set<nat>, a: nat, i: nat, wrapped: bool): (r: set<nat>) {
    if wrapped then set x | x in s && (a <= x || x < i) else set x | x in s && a <= x < i
  }

  /** Unless everything lies between, the next turn adds a new index. */
  lemma TurnAdds(s: set<nat>, a: nat, i: nat, wrapped: bool)
    requires s != {} && (if wrapped then i <= a else a <= i) && Between(s, a, i, wrapped) != s
    ensures var x := CyclicFrom(s, i);
            var wrapped' := wrapped || x < i;
            && x !in Between(s, a, i, wrapped) && (if wrapped' then x + 1 <= a else a <= x + 1)
            && Between(s, a, x + 1, wrapped') == Between(s, a, i, wrapped) + {x}
  {
    var x := CyclicFrom(s, i);
    var v := Between(s, a, i, wrapped);
    var y :| y in s && y !in v;
    var wrapped' := wrapped || x < i;
    forall z | z in s ensures i <= z && x >= i ==> x <= z
                      ensures x < i ==> z < i && x <= z {
      assert z in From(s, i) <==> i <= z;
    }
    assert i <= y ==> y in From(s, i);
    forall z | z in s ensures z in Between(s, a, x + 1, wrapped') <==> z in v || z == x {
    }
  }

  lemma ElemsCons<T>(x: T, rest: seq<T>)
    ensures Elems([x] + rest) == {x} + Elems(rest)
  {
  }

  lemma {:induction false} TurnsFresh(s: set<nat>, a: nat, i: nat, wrapped: bool, n: nat)
    requires s != {} && (if wrapped then i <= a else a <= i)
    requires n + |Between(s, a, i, wrapped)| <= |s|
    ensures NoDup(Turns(s, i, n)) && Elems(Turns(s, i, n)) <= s
    ensures Elems(Turns(s, i, n)) !! Between(s, a, i, wrapped)
    decreases n
  {
    if n > 0 {
      var v := Between(s, a, i, wrapped);
      TurnAdds(s, a, i, wrapped);
      var x := CyclicFrom(s, i);
      var wrapped' := wrapped || x < i;
      assert |v + {x}| == |v| + 1;
      TurnsFresh(s, a, x + 1, wrapped', n - 1);
      var rest := Turns(s, x + 1, n - 1);
      NoDupConcat([x], rest);
      ElemsCons(x, rest);
    }
  }

  lemma SubsetOfSameSize<T>(a: set<T>, b: set<T>)
    requires a <= b && |a| == |b|
    ensures a == b
  {
    assert b == a + (b - a);
    assert |b - a| == 0;
  }

  lemma {:induction false} NoDupSize<T>(q: seq<T>)
    requires NoDup(q)
    ensures |Elems(q)| == |q|
  {
    if q != [] {
      NoDupSize(q[1..]);
      assert Elems(q) == {q[0]} + Elems(q[1..]);
      assert q[0] !in q[1..];
    }
  }

  /** From any start, as many turns as there are indices give every index once. */
  lemma TurnsCover(s: set<nat>, i: nat)
    requires s != {}
    ensures var q := Turns(s, i, |s|); NoDup(q) && Elems(q) == s
  {
    assert Between(s, i, i, false) == {};
    TurnsFresh(s, i, i, false, |s|);
    TurnsLength(s, i, |s|);
    NoDupSize(Turns(s, i, |s|));
    SubsetOfSameSize(Elems(Turns(s, i, |s|)), s);
  }

  lemma {:induction false} TurnsLength(s: set<nat>, i: nat, n: nat)
    requires s != {}
    ensures |Turns(s, i, n)| == n
    decreases n
  {
    if n > 0 {
      TurnsLength(s, CyclicFrom(s, i) + 1, n - 1);
    }
  }

  /** Where the rotor stands after `n` turns. */
  ghost function After(s: set<nat>, i: nat, n: nat): (r: nat)
    requires s != {}
    decreases n
  {
    if n == 0 then i else After(s, CyclicFrom(s, i) + 1, n - 1)
  }

  lemma {:induction false} TurnsSnoc(s: set<nat>, i: nat, n: nat)
    requires s != {}
    ensures var x := CyclicFrom(s, After(s, i, n));
            Turns(s, i, n + 1) == Turns(s, i, n) + [x] && After(s, i, n + 1) == x + 1
    decreases n
  {
    if n > 0 {
      var x := CyclicFrom(s, i);
      TurnsSnoc(s, x + 1, n - 1);
      assert [x] + (Turns(s, x + 1, n - 1) + [CyclicFrom(s, After(s, i, n))]) == ([x] + Turns(s, x + 1, n - 1)) + [CyclicFrom(s, After(s, i, n))];
    }
  }

  /** Up to as many turns as there are indices, no index comes twice. */
  lemma TurnsDistinct(s: set<nat>, i: nat, n: nat)
    requires s != {} && n <= |s|
    ensures NoDup(Turns(s, i, n)) && Elems(Turns(s, i, n)) <= s
  {
    assert Between(s, i, i, false) == {};
    TurnsFresh(s, i, i, false, n);
  }

  // ---------- on the fileset ----------

  /** A pick in rotation by thread `tid`, with what came of it; or the release of an entry, existence left alone. */
  datatype Move<E> = Turn(tid: nat, r: Option<E>) | Free(e: E, incr: int)

  /**
   The rotor is one for all threads when the pick is for an entry that does not exist, and else one a thread: then
   all the picks are by thread `tid`.
   */
  ghost predicate Moves<E>(s: State<E>, m: Move<E>, s': State<E>, p: Pool, tid: nat) {
    && Sound(s) && tid < MAX_TID
    && match m
       case Turn(u, r) => u < MAX_TID && (p == NotExisting || u == tid) && Picks(s, p, Rotor(u), s', r)
       case Free(e, incr) => e in s.open && s' == Unbusy(s, e, Release(false, false, incr))
  }

  ghost predicate RotorRun<E>(ss: seq<State<E>>, ms: seq<Move<E>>, p: Pool, tid: nat) {
    |ss| == |ms| + 1 && forall k :: 0 <= k < |ms| ==> Moves(ss[k], ms[k], ss[k + 1], p, tid)
  }

  /** How many picks there are, and the entries they took. */
  function Count<E>(ms: seq<Move<E>>): (n: nat) {
    if ms == [] then 0
    else Count(ms[..|ms| - 1]) + if ms[|ms| - 1].Turn? then 1 else 0
  }

  function Picked<E>(ms: seq<Move<E>>): (es: seq<E>) {
    if ms == [] then []
    else
      var m := ms[|ms| - 1];
      if m.Turn? && m.r.Some? then Picked(ms[..|ms| - 1]) + [m.r.value] else Picked(ms[..|ms| - 1])
  }

  ghost function IndicesOf<E>(index: map<E, nat>, es: seq<E>): (r: seq<nat>)
    requires Elems(es) <= index.Keys
    ensures |r| == |es| && forall k :: 0 <= k < |es| ==> es[k] in index && r[k] == index[es[k]]
  {
    assert forall k :: 0 <= k < |es| ==> es[k] in Elems(es);
    seq(|es|, k requires 0 <= k < |es| => index[es[k]])
  }

  /** The rotor, begun at `a`, has taken its turns over all of `t`, and only entries picked are busy there. */
  ghost predicate Rotation<E>(index: map<E, nat>, t: set<E>, a: nat, rotor: nat, busy: set<E>, picked: seq<E>) {
    && Injective(index) && Elems(picked) <= t <= index.Keys && busy * t <= Elems(picked)
    && var all := IndexSet(index, t);
       all != {} && IndicesOf(index, picked) == Turns(all, a, |picked|) && rotor == After(all, a, |picked|)
  }

  ghost predicate Spun<E>(s0: State<E>, s: State<E>, p: Pool, tid: nat, picked: seq<E>) {
    && Sound(s0) && Sound(s) && tid < MAX_TID && s.index == s0.index && Tree(s, p) == Tree(s0, p)
    && Rotation(s.index, Tree(s, p), StartIndex(s0, p, Rotor(tid)), StartIndex(s, p, Rotor(tid)), s.busy, picked)
  }

  lemma IndexSetSize<E>(index: map<E, nat>, t: set<E>)
    requires Injective(index) && t <= index.Keys
    ensures |IndexSet(index, t)| == |t|
  {
    if t != {} {
      var e :| e in t;
      IndexSetSize(index, t - {e});
      assert IndexSet(index, t) == IndexSet(index, t - {e}) + {index[e]};
    }
  }

  /** A pick takes the entry the rotor points at, when that one is idle. */
  lemma PickTakesTurn<E>(s: State<E>, p: Pool, u: nat, s': State<E>, r: Option<E>, e: E)
    requires Sound(s) && u < MAX_TID && Picks(s, p, Rotor(u), s', r)
    requires e in Tree(s, p) && e !in s.busy && Tree(s, p) <= s.index.Keys && IndexSet(s.index, Tree(s, p)) != {}
    requires s.index[e] == CyclicFrom(IndexSet(s.index, Tree(s, p)), StartIndex(s, p, Rotor(u)))
    ensures r == Some(e) && s' == Take(TurnRotor(s, p, Rotor(u), s.index[e]), e)
  {
    var t, i := Tree(s, p), StartIndex(s, p, Rotor(u));
    var all, idle := IndexSet(s.index, t), IndexSet(s.index, t - s.busy);
    assert s.index[e] in idle && idle <= all;
    CyclicMember(all, i);
    CyclicIs(idle, i, s.index[e]);
  }

  /** What the cyclic successor is. */
  lemma CyclicMember(s: set<nat>, i: nat)
    requires s != {}
    ensures var x := CyclicFrom(s, i);
            && x in s
            && ((i <= x && forall y :: y in s && i <= y ==> x <= y) || ((forall y :: y in s ==> y < i) && forall y :: y in s ==> x <= y))
  {
    forall y | y in s && i <= y ensures y in From(s, i) {
    }
  }

  /** The index whose turn it is has not come before. */
  lemma FreshTurn(all: set<nat>, a: nat, n: nat)
    requires all != {} && n < |all|
    ensures CyclicFrom(all, After(all, a, n)) in all && CyclicFrom(all, After(all, a, n)) !in Turns(all, a, n)
  {
    var x, q := CyclicFrom(all, After(all, a, n)), Turns(all, a, n);
    CyclicMember(all, After(all, a, n));
    TurnsDistinct(all, a, n + 1);
    TurnsSnoc(all, a, n);
    forall k | 0 <= k < |q| ensures q[k] != x {
      assert (q + [x])[k] != (q + [x])[|q|];
    }
  }

  /** So the entry with that index is idle. */
  lemma NextUnpicked<E>(index: map<E, nat>, t: set<E>, a: nat, rotor: nat, busy: set<E>, picked: seq<E>) returns (e: E)
    requires Rotation(index, t, a, rotor, busy, picked) && |picked| < |t|
    ensures e in t && e !in busy && index[e] == CyclicFrom(IndexSet(index, t), rotor)
  {
    var all := IndexSet(index, t);
    IndexSetSize(index, t);
    FreshTurn(all, a, |picked|);
    e :| e in t && index[e] == CyclicFrom(all, rotor);
    forall k | 0 <= k < |picked| ensures picked[k] != e {
      assert IndicesOf(index, picked)[k] in Turns(all, a, |picked|);
    }
    assert e !in Elems(picked);
  }

  lemma PickState<E>(s: State<E>, p: Pool, u: nat, tid: nat, e: E)
    requires Sound(s) && u < MAX_TID && tid < MAX_TID && (p == NotExisting || u == tid) && e in s.index
    ensures var s' := Take(TurnRotor(s, p, Rotor(u), s.index[e]), e);
            && Sound(s') && s'.index == s.index && Tree(s', p) == Tree(s, p) && s'.busy == s.busy + {e}
            && StartIndex(s', p, Rotor(tid)) == s.index[e] + 1
  {
  }

  lemma PickedMore<E>(index: map<E, nat>, picked: seq<E>, e: E)
    requires Elems(picked) <= index.Keys && e in index
    ensures Elems(picked + [e]) == Elems(picked) + {e}
    ensures IndicesOf(index, picked + [e]) == IndicesOf(index, picked) + [index[e]]
  {
    assert forall k :: 0 <= k < |picked| ==> (picked + [e])[k] == picked[k];
  }

  lemma RotationMore<E>(index: map<E, nat>, t: set<E>, a: nat, rotor: nat, busy: set<E>, picked: seq<E>, e: E)
    requires Rotation(index, t, a, rotor, busy, picked) && e in t && index[e] == CyclicFrom(IndexSet(index, t), rotor)
    ensures Rotation(index, t, a, index[e] + 1, busy + {e}, picked + [e])
  {
    TurnsSnoc(IndexSet(index, t), a, |picked|);
    PickedMore(index, picked, e);
  }

  lemma TurnSpins<E>(s0: State<E>, s: State<E>, p: Pool, tid: nat, picked: seq<E>, m: Move<E>, s': State<E>)
    requires Spun(s0, s, p, tid, picked) && |picked| < |Tree(s0, p)| && m.Turn? && Moves(s, m, s', p, tid)
    ensures m.r.Some? && Spun(s0, s', p, tid, picked + [m.r.value])
  {
    var a, rotor := StartIndex(s0, p, Rotor(tid)), StartIndex(s, p, Rotor(tid));
    var e := NextUnpicked(s.index, Tree(s, p), a, rotor, s.busy, picked);
    PickTakesTurn(s, p, m.tid, s', m.r, e);
    PickState(s, p, m.tid, tid, e);
    RotationMore(s.index, Tree(s, p), a, rotor, s.busy, picked, e);
  }

  lemma FreeSpins<E>(s0: State<E>, s: State<E>, p: Pool, tid: nat, picked: seq<E>, m: Move<E>, s': State<E>)
    requires Spun(s0, s, p, tid, picked) && m.Free? && Moves(s, m, s', p, tid)
    ensures Spun(s0, s', p, tid, picked)
  {
    UnbusySound(s, m.e, Release(false, false, m.incr));
  }

  lemma SpunStart<E>(s: State<E>, p: Pool, tid: nat)
    requires Sound(s) && tid < MAX_TID && Tree(s, p) != {} && s.busy * Tree(s, p) == {}
    ensures Spun(s, s, p, tid, [])
  {
    var e :| e in Tree(s, p);
    assert s.index[e] in IndexSet(s.index, Tree(s, p));
  }

  ghost predicate Idle<E>(s: State<E>, p: Pool, tid: nat) {
    Sound(s) && tid < MAX_TID && Tree(s, p) != {} && s.busy * Tree(s, p) == {}
  }

  /** Picks in rotation and releases, in any order: no pick comes back empty and no entry is picked twice. */
  lemma {:induction false} RotorSpins<E>(ss: seq<State<E>>, ms: seq<Move<E>>, p: Pool, tid: nat)
    requires RotorRun(ss, ms, p, tid) && Idle(ss[0], p, tid) && Count(ms) <= |Tree(ss[0], p)|
    ensures |Picked(ms)| == Count(ms) && Spun(ss[0], ss[|ms|], p, tid, Picked(ms))
    decreases |ms|
  {
    if ms == [] {
      SpunStart(ss[0], p, tid);
    } else {
      var n := |ms| - 1;
      RotorSpins(ss[..n + 1], ms[..n], p, tid);
      assert Moves(ss[n], ms[n], ss[n + 1], p, tid);
      if ms[n].Turn? {
        TurnSpins(ss[0], ss[n], p, tid, Picked(ms[..n]), ms[n], ss[n + 1]);
      } else {
        FreeSpins(ss[0], ss[n], p, tid, Picked(ms[..n]), ms[n], ss[n + 1]);
      }
    }
  }

  /** As many picks in rotation as the tree has entries, whatever is held and released meanwhile, take every one exactly once. */
  lemma RotorVisitsAll<E>(ss: seq<State<E>>, ms: seq<Move<E>>, p: Pool, tid: nat)
    requires RotorRun(ss, ms, p, tid) && Idle(ss[0], p, tid) && Count(ms) == |Tree(ss[0], p)|
    ensures NoDup(Picked(ms)) && Elems(Picked(ms)) == Tree(ss[0], p)
  {
    RotorSpins(ss, ms, p, tid);
    SpunCovers(ss[0], ss[|ms|], p, tid, Picked(ms));
  }

  lemma SpunCovers<E>(s0: State<E>, s: State<E>, p: Pool, tid: nat, es: seq<E>)
    requires Spun(s0, s, p, tid, es) && |es| == |Tree(s0, p)|
    ensures NoDup(es) && Elems(es) == Tree(s0, p)
  {
    IndexSetSize(s0.index, Tree(s0, p));
    TurnsCover(IndexSet(s0.index, Tree(s0, p)), StartIndex(s0, p, Rotor(tid)));
    var q := IndicesOf(s0.index, es);
    forall i, j | 0 <= i < j < |es| ensures es[i] != es[j] {
      assert q[i] != q[j];
    }
    NoDupSize(es);
    SubsetOfSameSize(Elems(es), Tree(s0, p));
  }
}
