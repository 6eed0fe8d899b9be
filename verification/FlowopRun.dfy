/**
 `flowop_composite`: running a nest of flowops is running its innermost flowops in one flat order. How often each is
 repeated is drawn afresh whenever it is come to, and whether to abort is asked before that.
 */
module FlowopRun {
  import opened FlowopList

  /** FILEBENCH_OK, FILEBENCH_DONE, FILEBENCH_NORSC and FILEBENCH_ERROR. */
  datatype Result = Ok | Done | NoResource | Error

  /** What a thread does: asks whether to abort, or runs a flowop that is not composite. */
  datatype Event = Poll | Run(op: Flowop)

  /** Where draws come from: the `k`th draw of the thread when it is made from attribute `iters`. */
  type Draws = (int, nat) -> int

  /** What a thread finds: whether an abort is asked for and what a flowop says, at its `k`th event, and its draws. */
  datatype World = World(abort: nat -> bool, says: nat -> Result, draw: Draws) {
    function Answer(k: nat, e: Event): Result {
      if e.Run? then says(k) else if abort(k) then Done else Ok
    }
  }

  // ---------- the flat order ----------

  /** Events in order, and the number of draws made by then. */
  datatype Plan = Plan(events: seq<Event>, draws: nat) {
    ghost function Then(next: Plan): Plan {
      Plan(events + next.events, next.draws)
    }
  }

  /** What a pass through list `l` does if all goes well, after `k` draws. */
  ghost function Flat(d: Draws, m: Mem, l: List, k: nat): (p: Plan)
    requires Rep(m, l)
    decreases l, 3, 0
  {
    match l
    case Nil => Plan([], k)
    case Cons(_, _, rest) =>
      var p := Turn(d, m, l, k);
      p.Then(Flat(d, m, rest, p.draws))
  }

  /** The turn of the first flowop of a list: the question whether to abort, then as many runs as are drawn. */
  ghost function Turn(d: Draws, m: Mem, l: List, k: nat): (p: Plan)
    requires l.Cons? && Rep(m, l)
    decreases l, 2, 0
  {
    Plan([Poll], k + 1).Then(Times(d, m, l, d(m[l.op].iters, k), k + 1))
  }

  /** The first flowop of a list, `n` times over. */
  ghost function Times(d: Draws, m: Mem, l: List, n: int, k: nat): (p: Plan)
    requires l.Cons? && Rep(m, l)
    decreases l, 1, n
  {
    if n <= 0 then Plan([], k)
    else
      var p := Once(d, m, l, k);
      p.Then(Times(d, m, l, n - 1, p.draws))
  }

  /** The first flowop of a list, once. */
  ghost function Once(d: Draws, m: Mem, l: List, k: nat): (p: Plan)
    requires l.Cons? && Rep(m, l)
    decreases l, 0, 0
  {
    if m[l.op].composite then Flat(d, m, l.inner, k) else Plan([Run(l.op)], k)
  }

  // ---------- what the flat order is ----------

  /** The plans one after the other. */
  ghost function Joined(ps: seq<Plan>): (r: seq<Event>) {
    if ps == [] then [] else ps[0].events + Joined(ps[1..])
  }

  /** The draws made before the `i`th of the plans, which come one after the other after `k` draws. */
  ghost function Drawn(ps: seq<Plan>, k: nat, i: nat): (r: nat)
    requires i <= |ps|
  {
    if i == 0 then k else ps[i - 1].draws
  }

  /** The turns of the flowops of a list, one each and in its order, each drawing after the one before. */
  ghost predicate AreTurns(d: Draws, m: Mem, l: List, k: nat, ts: seq<Plan>)
    requires Rep(m, l)
  {
    if l.Nil? then ts == []
    else ts != [] && ts[0] == Turn(d, m, l, k) && AreTurns(d, m, l.rest, ts[0].draws, ts[1..])
  }

  /** A pass has one turn for each flowop of the list, in order. */
  lemma {:induction false} FlatIsTurns(d: Draws, m: Mem, l: List, k: nat) returns (ts: seq<Plan>)
    requires Rep(m, l)
    ensures AreTurns(d, m, l, k, ts) && Flat(d, m, l, k) == Plan(Joined(ts), Drawn(ts, k, |ts|))
  {
    if l.Nil? { return []; }
    var p := Turn(d, m, l, k);
    var rest := FlatIsTurns(d, m, l.rest, p.draws);
    ts := [p] + rest;
    assert ts[1..] == rest;
  }

  function AtLeastZero(n: int): (r: nat) {
    if n < 0 then 0 else n
  }

  /** The turn of a flowop that is not composite: one draw, one abort check, and it runs as often as is drawn. */
  lemma PlainTurn(d: Draws, m: Mem, l: List, k: nat)
    requires l.Cons? && Rep(m, l) && !m[l.op].composite
    ensures Turn(d, m, l, k) == Plan([Poll] + seq(AtLeastZero(d(m[l.op].iters, k)), _ => Run(l.op)), k + 1)
  {
    PlainTimes(d, m, l, d(m[l.op].iters, k), k + 1);
  }

  lemma {:induction false} PlainTimes(d: Draws, m: Mem, l: List, n: int, k: nat)
    requires l.Cons? && Rep(m, l) && !m[l.op].composite
    ensures Times(d, m, l, n, k) == Plan(seq(AtLeastZero(n), _ => Run(l.op)), k)
    decreases AtLeastZero(n)
  {
    if n > 0 {
      PlainTimes(d, m, l, n - 1, k);
      assert [Run(l.op)] + seq(AtLeastZero(n - 1), _ => Run(l.op)) == seq(AtLeastZero(n), _ => Run(l.op));
    }
  }

  /** Passes through list `l`, one after the other. */
  ghost predicate ArePasses(d: Draws, m: Mem, l: List, k: nat, ps: seq<Plan>)
    requires Rep(m, l)
  {
    forall i :: 0 <= i < |ps| ==> ps[i] == Flat(d, m, l, Drawn(ps, k, i))
  }

  /** The turn of a composite: one draw, one abort check, and as many passes through its inner list as are drawn. */
  lemma CompositeTurn(d: Draws, m: Mem, l: List, k: nat) returns (ps: seq<Plan>)
    requires l.Cons? && Rep(m, l) && m[l.op].composite
    ensures |ps| == AtLeastZero(d(m[l.op].iters, k)) && ArePasses(d, m, l.inner, k + 1, ps)
    ensures Turn(d, m, l, k) == Plan([Poll] + Joined(ps), Drawn(ps, k + 1, |ps|))
  {
    ps := CompositeTimes(d, m, l, d(m[l.op].iters, k), k + 1);
  }

  lemma {:induction false} CompositeTimes(d: Draws, m: Mem, l: List, n: int, k: nat) returns (ps: seq<Plan>)
    requires l.Cons? && Rep(m, l) && m[l.op].composite
    ensures |ps| == AtLeastZero(n) && ArePasses(d, m, l.inner, k, ps)
    ensures Times(d, m, l, n, k) == Plan(Joined(ps), Drawn(ps, k, |ps|))
    decreases AtLeastZero(n)
  {
    if n <= 0 { return []; }
    var p := Flat(d, m, l.inner, k);
    var rest := CompositeTimes(d, m, l, n - 1, p.draws);
    ps := [p] + rest;
    assert ps[1..] == rest;
    forall i | 0 <= i < |ps| ensures ps[i] == Flat(d, m, l.inner, Drawn(ps, k, i)) {
      if i > 0 { assert ps[i] == rest[i - 1]; }
    }
  }

  // ---------- going through events up to the first that is not OK ----------

  /** How many of the events `t` are gone through, the first of them being the `k`th. */
  function Ran(w: World, k: nat, t: seq<Event>): (n: nat)
    decreases |t|
  {
    if t == [] then 0 else if w.Answer(k, t[0]) != Ok then 1 else 1 + Ran(w, k + 1, t[1..])
  }

  /** What the last of them says. */
  function Verdict(w: World, k: nat, t: seq<Event>): (r: Result)
    decreases |t|
  {
    if t == [] then Ok else if w.Answer(k, t[0]) != Ok then w.Answer(k, t[0]) else Verdict(w, k + 1, t[1..])
  }

  /** Nothing stops the thread at its `k`th event: no abort is asked for, or the flowop it runs is OK. */
  predicate GoesOn(w: World, k: nat, e: Event) {
    if e.Poll? then !w.abort(k) else w.says(k) == Ok
  }

  /**
   All are gone through if and only if nothing stops the thread at any of them; otherwise it is stopped at the last it
   goes through, and says DONE if an abort is asked for there, and what the flowop says if one is run.
   */
  lemma {:induction false} RanAll(w: World, k: nat, t: seq<Event>)
    ensures var n := Ran(w, k, t);
            && n <= |t| && (forall j :: 0 <= j < n - 1 ==> GoesOn(w, k + j, t[j]))
            && if Verdict(w, k, t) == Ok then n == |t| && (n > 0 ==> GoesOn(w, k + n - 1, t[n - 1]))
               else
                 && n > 0 && !GoesOn(w, k + n - 1, t[n - 1])
                 && Verdict(w, k, t) == if t[n - 1].Poll? then Done else w.says(k + n - 1)
    decreases |t|
  {
    if t != [] {
      RanAll(w, k + 1, t[1..]);
      assert forall j :: 0 < j < |t| ==> t[j] == t[1..][j - 1];
    }
  }

  /** Going through one stretch and then another. */
  lemma {:induction false} RanSum(w: World, k: nat, a: seq<Event>, b: seq<Event>)
    ensures Verdict(w, k, a + b) == if Verdict(w, k, a) == Ok then Verdict(w, k + |a|, b) else Verdict(w, k, a)
    ensures Ran(w, k, a + b) == if Verdict(w, k, a) == Ok then |a| + Ran(w, k + |a|, b) else Ran(w, k, a)
    decreases |a|
  {
    if a == [] {
      assert a + b == b;
    } else {
      assert (a + b)[1..] == a[1..] + b;
      RanSum(w, k + 1, a[1..], b);
    }
  }

  /** The log after going through `t`. */
  ghost predicate Did(w: World, before: seq<Event>, t: seq<Event>, after: seq<Event>, r: Result) {
    var n := Ran(w, |before|, t);
    n <= |t| && after == before + t[..n] && r == Verdict(w, |before|, t)
  }

  lemma DidThen(w: World, a: seq<Event>, t: seq<Event>, b: seq<Event>, u: seq<Event>, c: seq<Event>, r: Result)
    requires Did(w, a, t, b, Ok) && Did(w, b, u, c, r)
    ensures Did(w, a, t + u, c, r)
  {
    RanAll(w, |a|, t);
    RanSum(w, |a|, t, u);
    assert b == a + t;
    var n := Ran(w, |b|, u);
    assert (t + u)[..|t| + n] == t + u[..n];
  }

  lemma DidStop(w: World, a: seq<Event>, t: seq<Event>, b: seq<Event>, r: Result, u: seq<Event>)
    requires Did(w, a, t, b, r) && r != Ok
    ensures Did(w, a, t + u, b, r)
  {
    RanAll(w, |a|, t);
    RanSum(w, |a|, t, u);
    var n := Ran(w, |a|, t);
    assert (t + u)[..n] == t[..n];
  }

  lemma Regroup<T>(x: seq<T>, t: seq<T>, rest: seq<T>)
    ensures x + (t + rest) == (x + t) + rest
  {
  }

  /** One more stretch `t` of the whole; all that is left if it stops there. */
  lemma DidMore(w: World, a: seq<Event>, x: seq<Event>, b: seq<Event>, t: seq<Event>, c: seq<Event>, r: Result, rest: seq<Event>)
    requires Did(w, a, x, b, Ok) && Did(w, b, t, c, r)
    ensures Did(w, a, x + t, c, r) && x + (t + rest) == (x + t) + rest
    ensures r != Ok ==> Did(w, a, x + (t + rest), c, r)
  {
    DidThen(w, a, x, b, t, c, r);
    Regroup(x, t, rest);
    if r != Ok { DidStop(w, a, x + t, c, r, rest); }
  }

  lemma DidNothing(w: World, a: seq<Event>)
    ensures Did(w, a, [], a, Ok)
  {
    assert a + [] == a;
  }

  lemma DidOne(w: World, a: seq<Event>, e: Event)
    ensures Did(w, a, [e], a + [e], w.Answer(|a|, e))
  {
    assert [e][..1] == [e];
  }

  lemma WithNothing<T>(x: seq<T>)
    ensures x + [] == x && [] + x == x
  {
  }

  /** A worker thread: what it has gone through and the number of draws it has made. */
  class Worker {
    const world: World
    var log: seq<Event>
    var draws: nat

    constructor (world: World)
      ensures this.world == world && log == [] && draws == 0
    {
      this.world := world;
      log, draws := [], 0;
    }

    /** The plan `p` was gone through, up to the first event that is not OK. */
    ghost predicate Followed(before: seq<Event>, p: Plan, r: Result)
      reads this
    {
      Did(world, before, p.events, log, r) && (r == Ok ==> draws == p.draws)
    }

    /** An event of its own. */
    method Meet(e: Event) returns (r: Result)
      modifies this
      ensures Followed(old(log), Plan([e], old(draws)), r) && draws == old(draws)
    {
      DidOne(world, log, e);
      r := world.Answer(|log|, e);
      log := log + [e];
    }

    /** `fo_func`, once. */
    method Execute(op: Flowop, ghost m: Mem, ghost l: List) returns (r: Result)
      requires l.Cons? && l.op == op && Rep(m, l) && Nodes(l) <= m.Keys && m == Snap(m.Keys)
      modifies this
      ensures Followed(old(log), Once(world.draw, m, l, old(draws)), r) && m == Snap(m.Keys)
      decreases Size(l), 0
    {
      assert m[op] == View(op);
      if op.composite {
        r := Composite(op.comp, m, l.inner);
      } else {
        r := Meet(Run(op));
      }
      assert m == Snap(m.Keys);
    }

    /** `fo_func`, `count` times. */
    method Iterate(op: Flowop, count: int, ghost m: Mem, ghost l: List) returns (r: Result)
      requires l.Cons? && l.op == op && Rep(m, l) && Nodes(l) <= m.Keys && m == Snap(m.Keys)
      modifies this
      ensures Followed(old(log), Times(world.draw, m, l, count, old(draws)), r) && m == Snap(m.Keys)
      decreases Size(l), 1
    {
      ghost var whole := Times(world.draw, m, l, count, draws);
      ghost var x := [];
      var i := 0;
      r := Ok;
      DidNothing(world, log);
      WithNothing(whole.events);
      while i < count
        invariant 0 <= i && (0 <= count ==> i <= count) && (count < 0 ==> i == 0) && m == Snap(m.Keys)
        invariant r == Ok && Did(world, old(log), x, log, Ok)
        invariant whole == Plan(x, draws).Then(Times(world.draw, m, l, count - i, draws))
      {
        ghost var was, p := log, Once(world.draw, m, l, draws);
        ghost var left := Times(world.draw, m, l, count - i - 1, p.draws);
        r := Execute(op, m, l);
        DidMore(world, old(log), x, was, p.events, log, r, left.events);
        if r != Ok {
          return;
        }
        x := x + p.events;
        i := i + 1;
      }
      WithNothing(x);
    }

    /** The body of the loop of `flowop_composite`. */
    method TakeTurn(op: Flowop, ghost m: Mem, ghost l: List) returns (r: Result)
      requires l.Cons? && l.op == op && Rep(m, l) && Nodes(l) <= m.Keys && m == Snap(m.Keys)
      modifies this
      ensures Followed(old(log), Turn(world.draw, m, l, old(draws)), r) && m == Snap(m.Keys)
      decreases Size(l), 2
    {
      assert m[op] == View(op);
      r := Meet(Poll);
      assert m == Snap(m.Keys);
      ghost var was, runs := log, Times(world.draw, m, l, world.draw(op.iters, draws), draws + 1);
      if r != Ok {
        DidStop(world, old(log), [Poll], log, r, runs.events);
        return;
      }
      var count := world.draw(op.iters, draws);
      draws := draws + 1;
      r := Iterate(op, count, m, l);
      DidThen(world, old(log), [Poll], was, runs.events, log, r);
    }

    /** `flowop_composite`. */
    method Composite(first: Flowop?, ghost m: Mem, ghost l: List) returns (r: Result)
      requires Rep(m, l) && Nodes(l) <= m.Keys && m == Snap(m.Keys) && first == Head(l)
      modifies this
      ensures Followed(old(log), Flat(world.draw, m, l, old(draws)), r) && m == Snap(m.Keys)
      decreases Size(l), 3
    {
      var op := first;
      ghost var whole := Flat(world.draw, m, l, draws);
      ghost var todo, x := l, [];
      r := Ok;
      DidNothing(world, log);
      WithNothing(whole.events);
      while op != null
        invariant Rep(m, todo) && Nodes(todo) <= m.Keys && Size(todo) <= Size(l) && op == Head(todo) && m == Snap(m.Keys)
        invariant r == Ok && Did(world, old(log), x, log, Ok)
        invariant whole == Plan(x, draws).Then(Flat(world.draw, m, todo, draws))
        decreases Size(todo)
      {
        assert m[op] == View(op);
        ghost var was := log;
        ghost var p := Turn(world.draw, m, todo, draws);
        r := TakeTurn(op, m, todo);
        DidMore(world, old(log), x, was, p.events, log, r, Flat(world.draw, m, todo.rest, p.draws).events);
        if r != Ok {
          return;
        }
        x := x + p.events;
        todo := todo.rest;
        op := op.execNext;
      }
      WithNothing(x);
    }
  }

  // ---------- a copy runs as its prototype does ----------

  /** An event without the identity of its flowop. */
  datatype Label = Polled | Named(name: nat)

  ghost function LabelOf(m: Mem, e: Event): (r: Label) {
    if e.Poll? then Polled else Named(if e.op in m then m[e.op].name else 0)
  }

  ghost function Labels(m: Mem, s: seq<Event>): (r: seq<Label>) {
    seq(|s|, i requires 0 <= i < |s| => LabelOf(m, s[i]))
  }

  /** Two plans do the same, event by event and draw by draw. */
  ghost predicate SamePlan(m: Mem, p: Plan, m': Mem, p': Plan) {
    Labels(m, p.events) == Labels(m', p'.events) && p.draws == p'.draws
  }

  lemma SameThen(m: Mem, p: Plan, q: Plan, m': Mem, p': Plan, q': Plan)
    requires SamePlan(m, p, m', p') && SamePlan(m, q, m', q')
    ensures SamePlan(m, p.Then(q), m', p'.Then(q'))
  {
    LabelsSum(m, p.events, q.events);
    LabelsSum(m', p'.events, q'.events);
  }

  lemma LabelsSum(m: Mem, a: seq<Event>, b: seq<Event>)
    ensures Labels(m, a + b) == Labels(m, a) + Labels(m, b)
  {
  }

  lemma {:induction false} SameTimes(d: Draws, m: Mem, l: List, m': Mem, l': List, n: int, k: nat)
    requires Rep(m, l) && Rep(m', l') && Same(m, l, m', l') && l.Cons? && l'.Cons?
    ensures SamePlan(m, Times(d, m, l, n, k), m', Times(d, m', l', n, k))
    decreases l, 0, n
  {
    if n > 0 {
      if m[l.op].composite { SameFlat(d, m, l.inner, m', l'.inner, k); }
      var p, p' := Once(d, m, l, k), Once(d, m', l', k);
      SameTimes(d, m, l, m', l', n - 1, p.draws);
      SameThen(m, p, Times(d, m, l, n - 1, p.draws), m', p', Times(d, m', l', n - 1, p.draws));
    }
  }

  lemma {:induction false} SameFlat(d: Draws, m: Mem, l: List, m': Mem, l': List, k: nat)
    requires Rep(m, l) && Rep(m', l') && Same(m, l, m', l')
    ensures SamePlan(m, Flat(d, m, l, k), m', Flat(d, m', l', k))
    decreases l, 1, 0
  {
    if l.Cons? {
      var n := d(m[l.op].iters, k);
      SameTimes(d, m, l, m', l', n, k + 1);
      SameThen(m, Plan([Poll], k + 1), Times(d, m, l, n, k + 1), m', Plan([Poll], k + 1), Times(d, m', l', n, k + 1));
      var p, p' := Turn(d, m, l, k), Turn(d, m', l', k);
      SameFlat(d, m, l.rest, m', l'.rest, p.draws);
      SameThen(m, p, Flat(d, m, l.rest, p.draws), m', p', Flat(d, m', l'.rest, p.draws));
    }
  }

  /** Whether events are OK does not depend on which flowops they run. */
  lemma {:induction false} SameRan(w: World, k: nat, m: Mem, t: seq<Event>, m': Mem, t': seq<Event>)
    requires Labels(m, t) == Labels(m', t')
    ensures Ran(w, k, t) == Ran(w, k, t') && Verdict(w, k, t) == Verdict(w, k, t')
    decreases |t|
  {
    assert |t| == |Labels(m, t)| == |Labels(m', t')| == |t'|;
    if t != [] {
      assert Labels(m, t)[0] == Labels(m', t')[0];
      assert Labels(m, t[1..]) == Labels(m, t)[1..] && Labels(m', t'[1..]) == Labels(m', t')[1..];
      SameRan(w, k + 1, m, t[1..], m', t'[1..]);
    }
  }

  lemma LogLabels(w: World, m: Mem, t: seq<Event>, log: seq<Event>, r: Result)
    requires Did(w, [], t, log, r)
    ensures Ran(w, 0, t) <= |Labels(m, t)| && Labels(m, log) == Labels(m, t)[..Ran(w, 0, t)]
  {
  }

  /** A thread that runs its own copy does what its prototypes say, in their order, and ends as they would. */
  lemma CopyRuns(w: World, m: Mem, l: List, m': Mem, l': List, k: nat, log: seq<Event>, r: Result, log': seq<Event>, r': Result)
    requires Rep(m, l) && Rep(m', l') && Same(m, l, m', l')
    requires Did(w, [], Flat(w.draw, m, l, k).events, log, r) && Did(w, [], Flat(w.draw, m', l', k).events, log', r')
    ensures Labels(m, log) == Labels(m', log') && r == r'
  {
    var t, t' := Flat(w.draw, m, l, k).events, Flat(w.draw, m', l', k).events;
    SameFlat(w.draw, m, l, m', l', k);
    SameRan(w, 0, m, t, m', t');
    LogLabels(w, m, t, log, r);
    LogLabels(w, m', t', log', r');
  }
}
