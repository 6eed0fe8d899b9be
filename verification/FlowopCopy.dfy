/** `flowop_define_common` and `flowop_create_runtime_flowops`: a thread gets its own copy of its flowops. */
module FlowopCopy {
  import opened FlowopList

  /** The global list from `head` on. */
  ghost predicate Chained(head: Flowop?, all: seq<Flowop>)
    reads all`next
  {
    if all == [] then head == null
    else head == all[0] && Chained(all[0].next, all[1..])
  }

  /** The head of the global list of flowops, newest first. */
  class Registry {
    var flowops: Flowop?
    ghost var all: seq<Flowop>

    ghost predicate Valid()
      reads this, all`next
    {
      Chained(flowops, all)
    }

    method Push(op: Flowop)
      requires Valid() && op !in all
      modifies this, op`next
      ensures Valid() && all == [op] + old(all)
    {
      op.next := flowops;
      ghost var was := all;
      flowops := op;
      all := [op] + all;
      assert all[1..] == was;
    }
  }

  /** Puts `op` at the tail of the list; nothing else changes but the next pointer of the old last one. */
  method AppendTo(head: Flowop, op: Flowop, ghost l: List)
    requires Rep(Snap(Nodes(l)), l) && Distinct(l) && head == Head(l) && op !in Nodes(l)
    modifies Nodes(l)`execNext
    ensures Relinked(old(Snap(Nodes(l))), Snap(Nodes(l)), l, op)
  {
    ghost var m := Snap(Nodes(l));
    var end := head;
    ghost var rest := l;
    while end.execNext != null
      invariant rest.Cons? && end == rest.op && Rep(m, rest) && Nodes(rest) <= Nodes(l) && Last(rest) == Last(l)
      invariant Snap(Nodes(l)) == m
      decreases rest
    {
      assert m[end] == View(end);
      end := end.execNext;
      rest := rest.rest;
    }
    assert m[end] == View(end);
    assert end == Last(l);
    end.execNext := op;
    forall f | f in Nodes(l) ensures Snap(Nodes(l))[f] == if f == Last(l) then m[f].(execNext := op) else m[f] {
      assert m[f] == old(View(f));
    }
  }

  /** `flowop_define_common` with a flowop to inherit from: a copy at the tail of the list, and on the global list. */
  method Define(reg: Registry, thread: nat, inherit: Flowop, head: Flowop?, ghost l: List) returns (op: Flowop, newHead: Flowop)
    requires reg.Valid() && Rep(Snap(Nodes(l)), l) && Distinct(l) && head == Head(l) && inherit !in Nodes(l)
    modifies reg, Nodes(l)`execNext
    ensures fresh(op) && View(op) == old(View(inherit)).(execNext := null, thread := thread) && op.instance == 1
    ensures newHead == if head == null then op else head
    ensures Relinked(old(Snap(Nodes(l))), Snap(Nodes(l)), l, op)
    ensures reg.Valid() && reg.all == [op] + old(reg.all)
  {
    op := new Flowop(inherit, thread, 1);
    reg.Push(op);
    assert Snap(Nodes(l)) == old(Snap(Nodes(l)));
    if head == null {
      newHead := op;
    } else {
      AppendTo(head, op, l);
      newHead := head;
    }
  }

  /** The copy of `p`, with its inner list, is now at the tail; `m`, `c` and `c'` are the memories around the step. */
  ghost predicate Copied(m: Mem, p: List, c: Mem, copy: List, op: Flowop, inner: List, c': Mem) {
    var r := Snoc(copy, op, inner);
    && Rep(c', r) && Distinct(r) && c'.Keys == Nodes(r) && Relinked(c, c', copy, op)
    && p.Cons? && p.op in m && op in c' && Alike(m[p.op], c'[op]) && Same(m, p.inner, c', inner)
  }

  ghost predicate Agree(a: Mem, b: Mem) {
    forall f :: f in a ==> f in b && b[f] == a[f]
  }

  lemma SnapParts(x: set<Flowop>, op: Flowop, y: set<Flowop>, a: Mem, rec: Rec, b: Mem, m: Mem)
    requires a == Snap(x) && b == Snap(y) && rec == View(op) && m == Snap(x + ({op} + y))
    ensures Over(a, op, rec, b, m)
  {
  }

  /** Two memories and one more record, in one. */
  ghost predicate Over(a: Mem, op: Flowop, rec: Rec, b: Mem, m: Mem) {
    m.Keys == a.Keys + {op} + b.Keys && m[op] == rec && Agree(a, m) && Agree(b, m)
  }

  /** What one turn leaves: the old tail points at `op`, whose inner list is a copy of that of `p`. */
  ghost predicate Parts(thread: nat, m: Mem, p: List, c: Mem, c1: Mem, copy: List, op: Flowop, rec: Rec, inner: List, i: Mem) {
    && Relinked(c, c1, copy, op) && c.Keys == c1.Keys == Nodes(copy)
    && Rep(i, inner) && Distinct(inner) && i.Keys == Nodes(inner) && Owned(i, thread)
    && op !in Nodes(copy) + Nodes(inner) && Nodes(copy) !! Nodes(inner)
    && p.Cons? && p.op in m && rec == m[p.op].(execNext := null, thread := thread, comp := Head(inner)) && (!rec.composite ==> inner == Nil)
    && Same(m, p.inner, i, inner)
  }

  lemma Added(thread: nat, m: Mem, p: List, c: Mem, c1: Mem, copy: List, op: Flowop, rec: Rec, inner: List, i: Mem, c': Mem)
    requires Rep(c, copy) && Distinct(copy) && Parts(thread, m, p, c, c1, copy, op, rec, inner, i)
    requires Over(c1, op, rec, i, c')
    ensures Copied(m, p, c, copy, op, inner, c')
  {
    RepFrame(i, c', inner);
    SnocRep(c, c', copy, op, inner);
    SnocDistinct(copy, op, inner);
    SnocNodes(copy, op, inner);
    SameFrame(m, p.inner, i, c', inner);
  }

  /** `done` has been copied, `todo` is left, and together they are the prototypes. */
  ghost predicate Halfway(thread: nat, m: Mem, l: List, done: List, todo: List, c: Mem, copy: List) {
    && Join(done, todo) == l && Rep(m, todo) && Nodes(todo) <= m.Keys && Size(todo) <= Size(l)
    && Rep(c, copy) && Distinct(copy) && c.Keys == Nodes(copy) && Same(m, done, c, copy) && Owned(c, thread)
  }

  lemma OwnedMore(thread: nat, c: Mem, c1: Mem, copy: List, op: Flowop, rec: Rec, i: Mem, c': Mem)
    requires Relinked(c, c1, copy, op) && c.Keys == c1.Keys == Nodes(copy) && Over(c1, op, rec, i, c')
    requires Owned(c, thread) && Owned(i, thread) && rec.thread == thread
    ensures Owned(c', thread)
  {
    forall f | f in c' ensures c'[f].thread == thread {
      if f in c1 { assert c'[f] == c1[f] && f in c; }
    }
  }

  lemma OneMore(thread: nat, m: Mem, l: List, done: List, todo: List, c: Mem, c1: Mem, copy: List, op: Flowop, rec: Rec, inner: List, i: Mem, c': Mem)
    requires Halfway(thread, m, l, done, todo, c, copy) && todo.Cons? && Parts(thread, m, todo, c, c1, copy, op, rec, inner, i)
    requires Over(c1, op, rec, i, c')
    ensures Halfway(thread, m, l, Snoc(done, todo.op, todo.inner), todo.rest, c', Snoc(copy, op, inner))
  {
    Added(thread, m, todo, c, c1, copy, op, rec, inner, i, c');
    SameFrame(m, done, c, c', copy);
    SnocSame(m, done, todo.op, todo.inner, c', copy, op, inner);
    JoinSnoc(done, todo.op, todo.inner, todo.rest);
    OwnedMore(thread, c, c1, copy, op, rec, i, c');
  }

  /** A list in memory of its own: `c` is that memory. */
  ghost predicate Whole(c: Mem, l: List) {
    Rep(c, l) && Distinct(l) && c.Keys == Nodes(l)
  }

  /** The global list has gained the flowops of `s`, each once, at its head. */
  ghost predicate Enrolled(before: seq<Flowop>, after: seq<Flowop>, s: set<Flowop>) {
    if |after| <= |before| then after == before && s == {}
    else after[0] in s && Enrolled(before, after[1..], s - {after[0]})
  }

  lemma EnrolledNone(a: seq<Flowop>, s: set<Flowop>)
    requires s == {}
    ensures Enrolled(a, a, s)
  {
  }

  lemma EnrolledOne(a: seq<Flowop>, op: Flowop)
    ensures Enrolled(a, [op] + a, {op})
  {
    assert ([op] + a)[1..] == a && {op} - {op} == {};
  }

  lemma {:induction false} EnrolledLonger(a: seq<Flowop>, b: seq<Flowop>, s: set<Flowop>)
    requires Enrolled(a, b, s)
    ensures |a| <= |b|
  {
    if |a| < |b| { EnrolledLonger(a, b[1..], s - {b[0]}); }
  }

  lemma {:induction false} EnrolledThen(a: seq<Flowop>, b: seq<Flowop>, c: seq<Flowop>, s: set<Flowop>, t: set<Flowop>)
    requires Enrolled(a, b, s) && Enrolled(b, c, t) && s !! t
    ensures Enrolled(a, c, s + t)
    decreases |c|
  {
    EnrolledLonger(a, b, s);
    if |c| <= |b| {
      assert s + t == s;
    } else {
      EnrolledThen(a, b, c[1..], s, t - {c[0]});
      assert (s + t) - {c[0]} == s + (t - {c[0]});
    }
  }

  /** `flowop_initflow`: a composite gets its own copy of the inner list it still shares with its prototype. */
  method InitFlow(reg: Registry, thread: nat, op: Flowop, ghost m: Mem, ghost inner: List, ghost s: set<Flowop>, ghost k: set<Flowop>)
    returns (ghost copy: List, ghost i: Mem)
    requires reg.Valid() && m == Snap(s) && Rep(m, inner) && Nodes(inner) <= s && op.comp == Head(inner)
    requires op !in s + k && (!op.composite ==> inner == Nil)
    modifies reg, op`comp
    ensures fresh(i.Keys) && i == Snap(i.Keys) && Whole(i, copy) && Same(m, inner, i, copy) && Owned(i, thread)
    ensures m == Snap(s) && Snap(k) == old(Snap(k)) && op !in i && k !! i.Keys
    ensures View(op) == old(View(op)).(comp := Head(copy)) && (!op.composite ==> copy == Nil)
    ensures reg.Valid() && Enrolled(old(reg.all), reg.all, i.Keys)
    decreases Size(inner), 3
  {
    copy, i := Nil, map[];
    EnrolledNone(reg.all, i.Keys);
    if op.composite {
      var first;
      first, copy, i := CreateRuntime(reg, thread, op.comp, m, inner, s);
      op.comp := first;
      assert Snap(s) == m && Snap(i.Keys) == i;
    }
  }

  /** One turn of the loop: `proto`, and all inside it if it is a composite, copied to the tail. */
  method CopyOne(reg: Registry, thread: nat, proto: Flowop, head: Flowop?, ghost m: Mem, ghost p: List, ghost c: Mem, ghost copy: List,
                 ghost s: set<Flowop>)
    returns (newHead: Flowop, ghost c1: Mem, ghost op: Flowop, ghost rec: Rec, ghost inner: List, ghost i: Mem, ghost c': Mem)
    requires reg.Valid() && m == Snap(s) && p.Cons? && proto == p.op && Rep(m, p) && Nodes(p) <= s
    requires c == Snap(c.Keys) && Whole(c, copy) && head == Head(copy) && c.Keys !! s
    modifies reg, c.Keys`execNext
    ensures fresh({op} + i.Keys) && newHead == if head == null then op else head
    ensures m == Snap(s) && c' == Snap(c.Keys + ({op} + i.Keys))
    ensures Parts(thread, m, p, c, c1, copy, op, rec, inner, i) && Over(c1, op, rec, i, c')
    ensures reg.Valid() && Enrolled(old(reg.all), reg.all, {op} + i.Keys)
    decreases Size(p), 0
  {
    var made: Flowop;
    made, newHead := Define(reg, thread, proto, head, copy);
    op := made;
    ghost var all := reg.all;
    EnrolledOne(old(reg.all), op);
    assert Snap(s) == m;
    c1 := Snap(c.Keys);
    inner, i := InitFlow(reg, thread, made, m, p.inner, s, c.Keys);
    rec := View(op);
    c' := Snap(c.Keys + ({op} + i.Keys));
    SnapParts(c.Keys, op, i.Keys, c1, rec, i, c');
    EnrolledThen(old(reg.all), all, reg.all, {op}, i.Keys);
  }

  /** The same, seen from the whole list. */
  method Advance(reg: Registry, thread: nat, flowop: Flowop, head: Flowop?, ghost m: Mem, ghost l: List, ghost done: List, ghost todo: List,
                 ghost c: Mem, ghost copy: List, ghost s: set<Flowop>, ghost k: set<Flowop>)
    returns (newHead: Flowop, next: Flowop?, ghost c': Mem, ghost copy': List, ghost more: set<Flowop>)
    requires reg.Valid() && m == Snap(s) && Halfway(thread, m, l, done, todo, c, copy) && todo.Cons? && flowop == todo.op
    requires c == Snap(k) && head == Head(copy) && k !! s
    modifies reg, k`execNext
    ensures fresh(more) && k !! more && c' == Snap(k + more) && newHead == Head(copy') && next == Head(todo.rest) && m == Snap(s)
    ensures Halfway(thread, m, l, Snoc(done, todo.op, todo.inner), todo.rest, c', copy')
    ensures reg.Valid() && Enrolled(old(reg.all), reg.all, more)
    decreases Size(todo), 1
  {
    ghost var c1, op, rec, inner, i;
    newHead, c1, op, rec, inner, i, c' := CopyOne(reg, thread, flowop, head, m, todo, c, copy, s);
    more := {op} + i.Keys;
    assert m[flowop] == View(flowop);
    next := flowop.execNext;
    OneMore(thread, m, l, done, todo, c, c1, copy, op, rec, inner, i, c');
    copy' := Snoc(copy, op, inner);
  }

  /** `flowop_create_runtime_flowops`. */
  method CreateRuntime(reg: Registry, thread: nat, protos: Flowop?, ghost m: Mem, ghost l: List, ghost s: set<Flowop>)
    returns (head: Flowop?, ghost copy: List, ghost c: Mem)
    requires reg.Valid() && m == Snap(s) && Rep(m, l) && Nodes(l) <= s && protos == Head(l)
    modifies reg
    ensures fresh(c.Keys) && head == Head(copy) && c == Snap(c.Keys) && Whole(c, copy)
    ensures Same(m, l, c, copy) && Owned(c, thread) && m == Snap(s)
    ensures reg.Valid() && Enrolled(old(reg.all), reg.all, c.Keys)
    decreases Size(l), 2
  {
    head, copy, c := null, Nil, map[];
    var flowop := protos;
    ghost var done, todo := Nil, l;
    ghost var k: set<Flowop> := {};
    EnrolledNone(reg.all, k);
    while flowop != null
      invariant Halfway(thread, m, l, done, todo, c, copy) && flowop == Head(todo) && head == Head(copy)
      invariant m == Snap(s) && c == Snap(k) && reg.Valid() && fresh(k) && Enrolled(old(reg.all), reg.all, k)
      decreases Size(todo)
    {
      ghost var more;
      ghost var all := reg.all;
      head, flowop, c, copy, more := Advance(reg, thread, flowop, head, m, l, done, todo, c, copy, s, k);
      assert fresh(more);
      assert fresh(k + more);
      EnrolledThen(old(reg.all), all, reg.all, k, more);
      k := k + more;
      done, todo := Snoc(done, todo.op, todo.inner), todo.rest;
    }
    JoinNil(done);
  }
}
