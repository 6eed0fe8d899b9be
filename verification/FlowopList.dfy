/** Flowops on their lists: a thread's list, the inner lists of composite flowops, and the global list. */
module FlowopList {

  /** The fields of `flowop_t` the copying and the running look at; `iters` names the attribute counts are drawn from. */
  class Flowop {
    var name: nat
    var composite: bool
    var iters: int
    var instance: nat
    var thread: nat
    var next: Flowop?
    var execNext: Flowop?
    var comp: Flowop?

    /** Allocated and filled from `inherit`, off both lists. */
    constructor (inherit: Flowop, thread: nat, instance: nat)
      ensures View(this) == View(inherit).(execNext := null, thread := thread)
      ensures this.instance == instance && next == null
    {
      name, composite, iters, comp := inherit.name, inherit.composite, inherit.iters, inherit.comp;
      this.thread, this.instance, next, execNext := thread, instance, null, null;
    }
  }

  datatype Rec = Rec(name: nat, composite: bool, iters: int, thread: nat, execNext: Flowop?, comp: Flowop?)

  type Mem = map<Flowop, Rec>

  ghost function View(f: Flowop): (r: Rec)
    reads f
  {
    Rec(f.name, f.composite, f.iters, f.thread, f.execNext, f.comp)
  }

  ghost function Snap(s: set<Flowop>): (m: Mem)
    reads s
    ensures m.Keys == s
  {
    map f | f in s :: View(f)
  }

  /** A list, with the inner list of each flowop on it. */
  datatype List = Nil | Cons(op: Flowop, inner: List, rest: List)

  ghost function Head(l: List): (f: Flowop?) {
    if l.Nil? then null else l.op
  }

  ghost function Nodes(l: List): (s: set<Flowop>) {
    match l
    case Nil => {}
    case Cons(op, inner, rest) => {op} + Nodes(inner) + Nodes(rest)
  }

  ghost function Size(l: List): (n: nat) {
    match l
    case Nil => 0
    case Cons(_, inner, rest) => 1 + Size(inner) + Size(rest)
  }

  ghost predicate Distinct(l: List) {
    match l
    case Nil => true
    case Cons(op, inner, rest) =>
      && op !in Nodes(inner) && op !in Nodes(rest) && Nodes(inner) !! Nodes(rest)
      && Distinct(inner) && Distinct(rest)
  }

  /** The memory holds the list: next pointers run along it, and only composites have inner lists. */
  ghost predicate Rep(m: Mem, l: List) {
    match l
    case Nil => true
    case Cons(op, inner, rest) =>
      && op in m && m[op].execNext == Head(rest) && m[op].comp == Head(inner)
      && (!m[op].composite ==> inner == Nil)
      && Rep(m, inner) && Rep(m, rest)
  }

  /** Every flowop belongs to the thread. */
  ghost predicate Owned(m: Mem, thread: nat) {
    forall f :: f in m ==> m[f].thread == thread
  }

  predicate Alike(a: Rec, b: Rec) {
    a.name == b.name && a.composite == b.composite && a.iters == b.iters
  }

  /** The same flowops in the same order, nested the same way, though in other memory. */
  ghost predicate Same(m: Mem, l: List, m': Mem, l': List) {
    match (l, l')
    case (Nil, Nil) => true
    case (Cons(op, inner, rest), Cons(op', inner', rest')) =>
      && op in m && op' in m' && Alike(m[op], m'[op'])
      && Same(m, inner, m', inner') && Same(m, rest, m', rest')
    case _ => false
  }

  lemma {:induction false} RepFrame(m: Mem, m': Mem, l: List)
    requires Rep(m, l) && forall f :: f in Nodes(l) && f in m ==> f in m' && m'[f] == m[f]
    ensures Rep(m', l)
  {
    match l
    case Nil =>
    case Cons(op, inner, rest) =>
      RepFrame(m, m', inner);
      RepFrame(m, m', rest);
  }

  lemma {:induction false} SameFrame(m: Mem, l: List, m': Mem, m'': Mem, l': List)
    requires Same(m, l, m', l')
    requires forall f :: f in Nodes(l') && f in m' ==> f in m'' && Alike(m''[f], m'[f])
    ensures Same(m, l, m'', l')
  {
    match (l, l')
    case (Cons(op, inner, rest), Cons(op', inner', rest')) =>
      assert Alike(m''[op'], m'[op']);
      SameFrame(m, inner, m', m'', inner');
      SameFrame(m, rest, m', m'', rest');
    case _ =>
  }

  // ---------- the tail of a list ----------

  ghost function Snoc(l: List, op: Flowop, inner: List): (r: List) {
    match l
    case Nil => Cons(op, inner, Nil)
    case Cons(o, i, rest) => Cons(o, i, Snoc(rest, op, inner))
  }

  ghost function Last(l: List): (f: Flowop)
    requires l.Cons?
  {
    if l.rest.Nil? then l.op else Last(l.rest)
  }

  ghost function Join(a: List, b: List): (r: List) {
    match a
    case Nil => b
    case Cons(o, i, rest) => Cons(o, i, Join(rest, b))
  }

  lemma {:induction false} JoinSnoc(a: List, op: Flowop, inner: List, b: List)
    ensures Join(Snoc(a, op, inner), b) == Join(a, Cons(op, inner, b))
  {
    match a
    case Nil =>
    case Cons(_, _, rest) => JoinSnoc(rest, op, inner, b);
  }

  lemma {:induction false} JoinNil(a: List)
    ensures Join(a, Nil) == a
  {
    match a
    case Nil =>
    case Cons(_, _, rest) => JoinNil(rest);
  }

  lemma {:induction false} SnocNodes(l: List, op: Flowop, inner: List)
    ensures Nodes(Snoc(l, op, inner)) == Nodes(l) + {op} + Nodes(inner)
  {
    match l
    case Nil =>
    case Cons(_, _, rest) => SnocNodes(rest, op, inner);
  }

  lemma {:induction false} SnocDistinct(l: List, op: Flowop, inner: List)
    requires Distinct(l) && Distinct(inner) && op !in Nodes(l) + Nodes(inner) && Nodes(l) !! Nodes(inner)
    ensures Distinct(Snoc(l, op, inner))
  {
    match l
    case Nil =>
    case Cons(_, _, rest) =>
      SnocDistinct(rest, op, inner);
      SnocNodes(rest, op, inner);
  }

  /** Every record but the last one's next pointer is as before. */
  ghost predicate Relinked(m: Mem, m': Mem, l: List, op: Flowop) {
    forall f :: f in Nodes(l) && f in m ==>
      f in m' && m'[f] == if l.Cons? && f == Last(l) then m[f].(execNext := op) else m[f]
  }

  lemma {:induction false} LastIn(l: List)
    requires l.Cons?
    ensures Last(l) in Nodes(l)
  {
    if l.rest.Cons? { LastIn(l.rest); }
  }

  lemma {:induction false} SnocRep(m: Mem, m': Mem, l: List, op: Flowop, inner: List)
    requires Rep(m, l) && Distinct(l) && Relinked(m, m', l, op)
    requires op in m' && m'[op].execNext == null && m'[op].comp == Head(inner) && Rep(m', inner)
    requires !m'[op].composite ==> inner == Nil
    ensures Rep(m', Snoc(l, op, inner))
  {
    match l
    case Nil =>
    case Cons(o, i, rest) =>
      assert o in m';
      LastIn(l);
      if rest.Cons? { LastIn(rest); }
      RepFrame(m, m', i);
      SnocRep(m, m', rest, op, inner);
  }

  lemma {:induction false} SnocSame(m: Mem, l: List, p: Flowop, pin: List, m': Mem, l': List, op: Flowop, inner: List)
    requires Same(m, l, m', l') && Same(m, pin, m', inner) && p in m && op in m' && Alike(m[p], m'[op])
    ensures Same(m, Snoc(l, p, pin), m', Snoc(l', op, inner))
  {
    match (l, l')
    case (Cons(_, _, rest), Cons(_, _, rest')) =>
      SnocSame(m, rest, p, pin, m', rest', op, inner);
    case _ =>
  }
}
