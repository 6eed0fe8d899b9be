/** What holds in every state of every run of the fileset protocol. */
module FilesetRuns {
  import opened FilesetState
  import opened FilesetProtocol

  datatype Event<E> = Event(t: Thread, a: Action<E>)

  /** `ws` are the states and `es` the steps between them. */
  ghost predicate Run<E>(ws: seq<World<E>>, es: seq<Event<E>>) {
    && |ws| == |es| + 1
    && forall i :: 0 <= i < |es| ==> Step(ws[i], es[i].t, es[i].a, ws[i + 1])
  }

  lemma StepKeeps<E>(w: World<E>, t: Thread, a: Action<E>, w': World<E>)
    requires Inv(w) && Step(w, t, a, w')
    ensures Inv(w')
  {
    match a
    case Pick(p, st) => PickKeeps(w, t, p, st, w');
    case DeleteGrab(e) => GrabKeeps(w, t, a, w');
    case CloseGrab(e) => GrabKeeps(w, t, a, w');
    case Let(q) => LetKeeps(w, t, q, w');
  }

  /** The invariant holds all along every run, of any number of threads. */
  lemma {:induction false} RunInv<E>(ws: seq<World<E>>, es: seq<Event<E>>, i: nat)
    requires Run(ws, es) && Init(ws[0]) && i < |ws|
    ensures Inv(ws[i])
  {
    if i == 0 {
      InitInv(ws[0]);
    } else {
      RunInv(ws, es, i - 1);
      StepKeeps(ws[i - 1], es[i - 1].t, es[i - 1].a, ws[i]);
    }
  }

  // ---------- mutual exclusion and placement ----------

  /** In every reachable state a busy entry is held by exactly one thread. */
  lemma BusyIsHeld<E>(ws: seq<World<E>>, es: seq<Event<E>>, i: nat, e: E)
    requires Run(ws, es) && Init(ws[0]) && i < |ws|
    ensures var w := ws[i];
            && (e in w.fs.busy <==> exists t :: t in w.pc && w.pc[t] == Holding(e))
            && forall t, u :: t in w.pc && u in w.pc && w.pc[t] == Holding(e) && w.pc[u] == Holding(e) ==> t == u
  {
    RunInv(ws, es, i);
    var w := ws[i];
    if e in w.fs.busy {
      assert e in Held(w.pc);
      var t :| t in w.pc && w.pc[t].Holding? && w.pc[t].e == e;
      assert w.pc[t] == Holding(e);
    }
    if t :| t in w.pc && w.pc[t] == Holding(e) {
      assert w.pc[t].e in Held(w.pc);
    }
  }

  /** In every reachable state every entry is in exactly one tree, the one its flags name. */
  lemma EntryIsPlaced<E>(ws: seq<World<E>>, es: seq<Event<E>>, i: nat, e: E)
    requires Run(ws, es) && Init(ws[0]) && i < |ws| && e in ws[i].fs.index
    ensures var s := ws[i].fs;
            && (e in s.free <==> e in s.isFree) && (e in s.exist <==> e !in s.isFree && e in s.extant)
            && (e in s.noex <==> e !in s.isFree && e !in s.extant)
  {
    RunInv(ws, es, i);
  }

  // ---------- the idle count ----------

  /** The idle count never falls short of the idle entries, so a pick goes to sleep only when every entry is busy. */
  lemma SleepsOnlyWhenAllBusy<E>(ws: seq<World<E>>, es: seq<Event<E>>, i: nat)
    requires Run(ws, es) && Init(ws[0]) && i < |ws|
    ensures |Idle(ws[i].fs)| <= ws[i].fs.idle
    ensures ws[i].fs.idle == 0 ==> Idle(ws[i].fs) == {}
    ensures i < |es| && es[i].a.Pick? && es[i].t in ws[i + 1].pc && ws[i + 1].pc[es[i].t] == AsleepIdle ==> Idle(ws[i].fs) == {}
  {
    RunInv(ws, es, i);
  }

  /** This step is a close that grabs an entry whose open count is not 1. */
  ghost predicate SkipsCount<E>(w: World<E>, a: Action<E>) {
    a.CloseGrab? && a.e in w.fs.open && a.e !in w.fs.busy && w.fs.open[a.e] != 1
  }

  lemma StepSkips<E>(w: World<E>, t: Thread, a: Action<E>, w': World<E>)
    requires Inv(w) && Step(w, t, a, w')
    ensures w'.skipped == if SkipsCount(w, a) then w.skipped + 1 else w.skipped
  {
  }

  lemma {:induction false} SkippedCounts<E>(ws: seq<World<E>>, es: seq<Event<E>>, i: nat)
    requires Run(ws, es) && Init(ws[0]) && i < |ws|
    ensures ws[i].skipped == 0 <==> forall j :: 0 <= j < i ==> !SkipsCount(ws[j], es[j].a)
  {
    if i > 0 {
      SkippedCounts(ws, es, i - 1);
      RunInv(ws, es, i - 1);
      StepSkips(ws[i - 1], es[i - 1].t, es[i - 1].a, ws[i]);
    }
  }

  /** The idle count is exact at some point of a run if and only if every close up to there found its open count at 1. */
  lemma IdleCountExact<E>(ws: seq<World<E>>, es: seq<Event<E>>, i: nat)
    requires Run(ws, es) && Init(ws[0]) && i < |ws|
    ensures ws[i].fs.idle == |Idle(ws[i].fs)| <==> forall j :: 0 <= j < i ==> !SkipsCount(ws[j], es[j].a)
  {
    RunInv(ws, es, i);
    SkippedCounts(ws, es, i);
  }

  /**
   So as long as no close has skipped its decrement, a pick goes to sleep if and only if there are entries and every
   one of them is busy.
   */
  lemma SleepsExactly<E>(ws: seq<World<E>>, es: seq<Event<E>>, i: nat)
    requires Run(ws, es) && Init(ws[0]) && i < |es| && es[i].a.Pick? && forall j :: 0 <= j < i ==> !SkipsCount(ws[j], es[j].a)
    ensures es[i].t in ws[i + 1].pc
    ensures ws[i + 1].pc[es[i].t] == AsleepIdle <==> ws[i].fs.index.Keys != {} && ws[i].fs.index.Keys <= ws[i].fs.busy
  {
    assert Step(ws[i], es[i].t, es[i].a, ws[i + 1]);
    IdleCountExact(ws, es, i);
    assert Idle(ws[i].fs) == {} <==> ws[i].fs.index.Keys <= ws[i].fs.busy;
  }

  /**
   A delete or a close takes the entry it is after if and only if that is idle, and it is then busy and off the idle
   count, but for a close with other opens left; otherwise the thread sleeps on it, and the waiting flag is set.
   */
  lemma GrabTakes<E>(w: World<E>, t: Thread, a: Action<E>, w': World<E>)
    requires Inv(w) && (a.DeleteGrab? || a.CloseGrab?) && Step(w, t, a, w')
    ensures t in w'.pc && a.e in w.fs.open && w'.pc == w.pc[t := w'.pc[t]]
    ensures if a.e in w.fs.busy then
              w'.pc[t] == Blocked(a.e) && w'.fs == w.fs.(waiting := w.fs.waiting + {a.e})
            else
              && w'.pc[t] == Holding(a.e)
              && w'.fs == w.fs.(busy := w.fs.busy + {a.e}, idle := w.fs.idle - if SkipsCount(w, a) then 0 else 1)
  {
  }

  // ---------- waiting for one entry ----------

  /** In every reachable state, a thread asleep on an entry sleeps on a busy one whose release will broadcast. */
  lemma SleeperIsRemembered<E>(ws: seq<World<E>>, es: seq<Event<E>>, i: nat, t: Thread)
    requires Run(ws, es) && Init(ws[0]) && i < |ws| && t in ws[i].pc && ws[i].pc[t].Blocked?
    ensures ws[i].pc[t].e in ws[i].fs.busy && ws[i].pc[t].e in ws[i].fs.waiting
  {
    RunInv(ws, es, i);
  }

  /** A release leaves no thread asleep on the entry it released: if one may be, it wakes all that sleep on any entry. */
  lemma ReleaseWakes<E>(w: World<E>, t: Thread, q: Release, w': World<E>, u: Thread)
    requires Inv(w) && Step(w, t, Let(q), w') && u in w'.pc
    ensures w'.pc[u] != Blocked(w.pc[t].e)
    ensures u in w.pc && w.pc[u].Blocked? ==> w'.pc[u] == if w.pc[t].e in w.fs.waiting then Ready else w.pc[u]
  {
    LeaveHeld(w.pc, t, w.pc[t].e, w.fs.waiting, w'.pc);
    if u in w.pc && w.pc[u].Blocked? { LetBlocked(w.pc, t, w.pc[t].e, w.fs.waiting, w'.pc, u); }
  }

  lemma LetBlocked<E>(pc: map<Thread, Pc<E>>, t: Thread, e: E, waiting: set<E>, pc': map<Thread, Pc<E>>, u: Thread)
    requires t in pc && pc[t] == Holding(e) && Awoken(pc, t, e, waiting, pc') && u in pc && pc[u].Blocked?
    ensures u in pc' && pc'[u] == if e in waiting then Ready else pc[u]
  {
    var mid := if e in waiting then WakeBlocked(pc[t := Ready]) else pc[t := Ready];
    assert u in mid && !mid[u].AsleepIdle?;
  }

  // ---------- a held entry is frozen ----------

  /** The same entry, but that a thread may have begun to wait for it. */
  ghost predicate SameEntry<E>(s: State<E>, s': State<E>, e: E) {
    && (e in s'.index <==> e in s.index) && (e in s.index ==> s'.index[e] == s.index[e])
    && (e in s'.busy <==> e in s.busy) && (e in s.waiting ==> e in s'.waiting)
    && (e in s'.isFree <==> e in s.isFree) && (e in s'.extant <==> e in s.extant)
    && (e in s'.open <==> e in s.open) && (e in s.open ==> s'.open[e] == s.open[e])
  }

  lemma StepFreezes<E>(w: World<E>, u: Thread, a: Action<E>, w': World<E>, t: Thread, e: E)
    requires Inv(w) && Step(w, u, a, w') && t != u && t in w.pc && w.pc[t] == Holding(e)
    ensures t in w'.pc && w'.pc[t] == Holding(e) && SameEntry(w.fs, w'.fs, e)
  {
    match a
    case Pick(p, st) =>
      if !(w.fs.index.Keys != {} && w.fs.idle == 0) {
        PickEffect(w.fs, p, st, w'.fs, if w'.pc[u].Holding? then Some(w'.pc[u].e) else None);
      }
    case DeleteGrab(_) =>
    case CloseGrab(_) =>
    case Let(q) =>
      assert w.pc[u].e != e;
      LetOthers(w.fs, w.pc[u].e, q, e);
      LetPc(w.pc, u, w.pc[u].e, w.fs.waiting, w'.pc, t);
  }

  lemma LetOthers<E>(s: State<E>, x: E, q: Release, e: E)
    requires x in s.open && x != e
    ensures SameEntry(s, Unbusy(s, x, q), e)
  {
  }

  lemma LetPc<E>(pc: map<Thread, Pc<E>>, u: Thread, x: E, waiting: set<E>, pc': map<Thread, Pc<E>>, t: Thread)
    requires u in pc && Awoken(pc, u, x, waiting, pc') && t in pc && t != u && pc[t].Holding?
    ensures t in pc' && pc'[t] == pc[t]
  {
  }

  /** While a thread holds an entry and takes no step, other threads change nothing of the entry but its waiting flag, and that they only set. */
  lemma {:induction false} HeldIsFrozen<E>(ws: seq<World<E>>, es: seq<Event<E>>, i: nat, j: nat, t: Thread, e: E)
    requires Run(ws, es) && Init(ws[0]) && i <= j < |ws| && t in ws[i].pc && ws[i].pc[t] == Holding(e)
    requires forall k :: i <= k < j ==> es[k].t != t
    ensures t in ws[j].pc && ws[j].pc[t] == Holding(e) && SameEntry(ws[i].fs, ws[j].fs, e)
    decreases j
  {
    if i < j {
      HeldIsFrozen(ws, es, i, j - 1, t, e);
      RunInv(ws, es, j - 1);
      StepFreezes(ws[j - 1], es[j - 1].t, es[j - 1].a, ws[j], t, e);
    }
  }

  /**
   `flowoplib_deletefile` reads the open count without the lock and later subtracts it: whatever happens in
   between, the deleted file ends with open count 0, not existing, and idle.
   */
  lemma DeleteClears<E>(ws: seq<World<E>>, es: seq<Event<E>>, i: nat, j: nat, t: Thread, e: E)
    requires Run(ws, es) && Init(ws[0]) && i <= j < |es| && t in ws[i].pc && ws[i].pc[t] == Holding(e)
    requires forall k :: i <= k < j ==> es[k].t != t
    requires e in ws[i].fs.open && es[j] == Event(t, Let(Release(true, false, -ws[i].fs.open[e])))
    ensures e in ws[j + 1].fs.open && ws[j + 1].fs.open[e] == 0
    ensures e in ws[j + 1].fs.noex && e !in ws[j + 1].fs.busy
  {
    HeldIsFrozen(ws, es, i, j, t, e);
    RunInv(ws, es, j);
    var s, q := ws[j].fs, es[j].a.q;
    assert e in Held(ws[j].pc);
    UnbusyEffect(s, e, q);
    SetExistsSound(s, e, false);
  }
}
