/**
 Any number of threads over one fileset. Every step is one critical section under `fs_pick_lock`, in any
 interleaving; waiting on a condition variable is a state of the thread.
 */
module FilesetProtocol {
  import opened FilesetState

  type Thread = nat

  /**
   A thread is between operations, holds an entry, sleeps until an entry is released, sleeps until one is idle,
   or has been woken from that sleep and is about to pick again.
   */
  datatype Pc<E> = Ready | Holding(e: E) | Blocked(e: E) | AsleepIdle | Woken

  /**
   Two counters keep history: `skipped`, the closes that grabbed an entry whose open count was not 1, and
   `fruitless`, the picks of a woken thread that came back empty.
   */
  datatype World<E> = World(fs: State<E>, pc: map<Thread, Pc<E>>, skipped: nat, fruitless: nat)

  datatype Action<E> =
    | Pick(p: Pool, st: Start)
    | DeleteGrab(e: E)
    | CloseGrab(e: E)
    | Let(q: Release)

  function Idle<E>(s: State<E>): (r: set<E>) {
    s.index.Keys - s.busy
  }

  /** The threads that a broadcast on the release condition wakes. */
  function WakeBlocked<E>(pc: map<Thread, Pc<E>>): (r: map<Thread, Pc<E>>) {
    map t | t in pc :: if pc[t].Blocked? then Ready else pc[t]
  }

  /** A signal on the idle condition wakes at most one sleeping picker. */
  ghost predicate SignalIdle<E>(pc: map<Thread, Pc<E>>, pc': map<Thread, Pc<E>>) {
    if forall t :: t in pc ==> !pc[t].AsleepIdle? then pc' == pc
    else exists t :: t in pc && pc[t].AsleepIdle? && pc' == pc[t := Woken]
  }

  ghost predicate Enabled<E>(w: World<E>, t: Thread, a: Action<E>) {
    && t in w.pc
    && match a
       case Pick(p, st) => w.pc[t] in {Ready, Woken} && (st.Rotor? ==> st.tid < MAX_TID)
       case DeleteGrab(e) => w.pc[t] == Ready && e in w.fs.index
       case CloseGrab(e) => w.pc[t] == Ready && e in w.fs.index
       case Let(q) => w.pc[t].Holding? && w.pc[t].e in w.fs.open
  }

  /** Thread `t` does `a`. */
  ghost predicate Step<E>(w: World<E>, t: Thread, a: Action<E>, w': World<E>) {
    && Sound(w.fs) && Enabled(w, t, a)
    && match a
       case Pick(p, st) =>
         if w.fs.index.Keys != {} && w.fs.idle == 0 then
           w' == w.(pc := w.pc[t := AsleepIdle])
         else
           && t in w'.pc && (w'.pc[t].Holding? || w'.pc[t] == Ready)
           && Picks(w.fs, p, st, w'.fs, if w'.pc[t].Holding? then Some(w'.pc[t].e) else None)
           && w'.pc == w.pc[t := w'.pc[t]] && w'.skipped == w.skipped
           && w'.fruitless == (if w.pc[t] == Woken && w'.pc[t] == Ready then w.fruitless + 1 else w.fruitless)
       case DeleteGrab(e) =>
         if e in w.fs.busy then
           w' == w.(fs := Wait(w.fs, e), pc := w.pc[t := Blocked(e)])
         else
           w' == w.(fs := GrabToDelete(w.fs, e), pc := w.pc[t := Holding(e)])
       case CloseGrab(e) =>
         if e in w.fs.busy then
           w' == w.(fs := Wait(w.fs, e), pc := w.pc[t := Blocked(e)])
         else
           w' == w.(fs := GrabToClose(w.fs, e), pc := w.pc[t := Holding(e)],
                    skipped := if w.fs.open[e] == 1 then w.skipped else w.skipped + 1)
       case Let(q) =>
         var e := w.pc[t].e;
         && w'.fs == Unbusy(w.fs, e, q) && w'.skipped == w.skipped && w'.fruitless == w.fruitless
         && Awoken(w.pc, t, e, w.fs.waiting, w'.pc)
  }

  // ---------- the invariant ----------

  /** The entries some thread holds. */
  ghost function Held<E>(pc: map<Thread, Pc<E>>): (r: set<E>) {
    set t | t in pc && pc[t].Holding? :: pc[t].e
  }

  ghost predicate OneHolder<E>(pc: map<Thread, Pc<E>>) {
    forall t, u :: t in pc && u in pc && pc[t].Holding? && pc[t] == pc[u] ==> t == u
  }

  /** The busy entries are the held ones, and each is held by one thread only. */
  ghost predicate HeldByOne<E>(w: World<E>) {
    Held(w.pc) == w.fs.busy && OneHolder(w.pc)
  }

  /** The idle count is the number of idle entries plus one for every close that did not take one off it. */
  ghost predicate Counted<E>(w: World<E>) {
    w.fs.idle == |Idle(w.fs)| + w.skipped
  }

  /** A thread asleep on an entry is never forgotten: the entry is busy and its release will broadcast. */
  ghost predicate WillWake<E>(w: World<E>) {
    forall t :: t in w.pc && w.pc[t].Blocked? ==> w.pc[t].e in w.fs.busy && w.pc[t].e in w.fs.waiting
  }

  ghost predicate Inv<E>(w: World<E>) {
    Sound(w.fs) && HeldByOne(w) && Counted(w) && WillWake(w)
  }

  /** Where a run starts: every entry idle, no thread holding anything. */
  ghost predicate Init<E>(w: World<E>) {
    && Sound(w.fs) && w.fs.busy == {} && w.fs.idle == |w.fs.index| && w.skipped == 0 && w.fruitless == 0
    && forall t :: t in w.pc ==> w.pc[t] == Ready
  }

  lemma InitInv<E>(w: World<E>)
    requires Init(w)
    ensures Inv(w)
  {
    assert Idle(w.fs) == w.fs.index.Keys;
  }

  // ---------- every step keeps it: who holds what ----------

  lemma HeldTake<E>(pc: map<Thread, Pc<E>>, t: Thread, e: E)
    requires t in pc && !pc[t].Holding? && OneHolder(pc) && e !in Held(pc)
    ensures Held(pc[t := Holding(e)]) == Held(pc) + {e} && OneHolder(pc[t := Holding(e)])
  {
    var pc' := pc[t := Holding(e)];
    assert forall u :: u in pc && pc[u].Holding? ==> pc[u].e in Held(pc);
    assert pc'[t].e in Held(pc');
    forall x | x in Held(pc) ensures x in Held(pc') {
      var u :| u in pc && pc[u].Holding? && pc[u].e == x;
      assert pc'[u].Holding?;
    }
  }

  lemma HeldSame<E>(pc: map<Thread, Pc<E>>, t: Thread, x: Pc<E>)
    requires t in pc && !pc[t].Holding? && !x.Holding? && OneHolder(pc)
    ensures Held(pc[t := x]) == Held(pc) && OneHolder(pc[t := x])
  {
    var pc' := pc[t := x];
    forall y | y in Held(pc) ensures y in Held(pc') {
      var u :| u in pc && pc[u].Holding? && pc[u].e == y;
      assert pc'[u].Holding?;
    }
  }

  lemma HeldDrop<E>(pc: map<Thread, Pc<E>>, t: Thread, e: E)
    requires t in pc && pc[t] == Holding(e) && OneHolder(pc)
    ensures Held(pc[t := Ready]) == Held(pc) - {e} && OneHolder(pc[t := Ready])
  {
    var pc' := pc[t := Ready];
    forall y | y in Held(pc) && y != e ensures y in Held(pc') {
      var u :| u in pc && pc[u].Holding? && pc[u].e == y;
      assert pc'[u].Holding?;
    }
  }

  lemma HeldWake<E>(pc: map<Thread, Pc<E>>)
    requires OneHolder(pc)
    ensures Held(WakeBlocked(pc)) == Held(pc) && OneHolder(WakeBlocked(pc))
  {
    var pc' := WakeBlocked(pc);
    forall y | y in Held(pc) ensures y in Held(pc') {
      var u :| u in pc && pc[u].Holding? && pc[u].e == y;
      assert pc'[u].Holding?;
    }
  }

  lemma HeldSignal<E>(pc: map<Thread, Pc<E>>, pc': map<Thread, Pc<E>>)
    requires OneHolder(pc) && SignalIdle(pc, pc')
    ensures Held(pc') == Held(pc) && OneHolder(pc')
    ensures pc'.Keys == pc.Keys && forall t :: t in pc' && pc'[t] != Woken ==> pc'[t] == pc[t]
  {
    if exists t :: t in pc && pc[t].AsleepIdle? {
      var t :| t in pc && pc[t].AsleepIdle? && pc' == pc[t := Woken];
      HeldSame(pc, t, Woken);
    }
  }

  // ---------- every step keeps it: the count ----------

  lemma CountTake<E>(all: set<E>, busy: set<E>, e: E)
    requires e in all && e !in busy
    ensures |all - busy| == |all - (busy + {e})| + 1
  {
    assert all - busy == (all - (busy + {e})) + {e};
  }

  // ---------- the three kinds of step ----------

  /** Thread `t` takes the idle entry `e`. */
  lemma TakeKeeps<E>(w: World<E>, t: Thread, e: E, w': World<E>)
    requires HeldByOne(w) && Counted(w) && WillWake(w)
    requires t in w.pc && !w.pc[t].Holding? && e in w.fs.index && e !in w.fs.busy
    requires w'.fs.index == w.fs.index && w'.fs.busy == w.fs.busy + {e} && w'.fs.waiting == w.fs.waiting
    requires w'.pc == w.pc[t := Holding(e)] && w'.fs.idle - w'.skipped == w.fs.idle - w.skipped - 1
    ensures HeldByOne(w') && Counted(w') && WillWake(w')
  {
    HeldTake(w.pc, t, e);
    CountTake(w.fs.index.Keys, w.fs.busy, e);
  }

  /** Thread `t` takes nothing, and perhaps goes to sleep. */
  lemma StayKeeps<E>(w: World<E>, t: Thread, x: Pc<E>, w': World<E>)
    requires HeldByOne(w) && Counted(w) && WillWake(w)
    requires t in w.pc && !w.pc[t].Holding? && !x.Holding?
    requires x.Blocked? ==> x.e in w'.fs.busy && x.e in w'.fs.waiting
    requires w'.fs.index == w.fs.index && w'.fs.busy == w.fs.busy && w.fs.waiting <= w'.fs.waiting
    requires w'.pc == w.pc[t := x] && w'.fs.idle == w.fs.idle && w'.skipped == w.skipped
    ensures HeldByOne(w') && Counted(w') && WillWake(w')
  {
    HeldSame(w.pc, t, x);
  }

  /** The threads after a release: `t` is done, and the broadcast and the signal have woken whom they wake. */
  ghost predicate Awoken<E>(pc: map<Thread, Pc<E>>, t: Thread, e: E, waiting: set<E>, pc': map<Thread, Pc<E>>) {
    SignalIdle(if e in waiting then WakeBlocked(pc[t := Ready]) else pc[t := Ready], pc')
  }

  lemma LeaveHeld<E>(pc: map<Thread, Pc<E>>, t: Thread, e: E, waiting: set<E>, pc': map<Thread, Pc<E>>)
    requires t in pc && pc[t] == Holding(e) && OneHolder(pc) && Awoken(pc, t, e, waiting, pc')
    ensures Held(pc') == Held(pc) - {e} && OneHolder(pc')
    ensures forall u :: u in pc' && pc'[u].Blocked? ==> u in pc && pc[u] == pc'[u] && e !in waiting
  {
    var mid := pc[t := Ready];
    HeldDrop(pc, t, e);
    HeldWake(mid);
    HeldSignal(if e in waiting then WakeBlocked(mid) else mid, pc');
  }

  /** Thread `t` lets `e` go, waking whom it should. */
  lemma LeaveKeeps<E>(w: World<E>, t: Thread, e: E, w': World<E>)
    requires HeldByOne(w) && Counted(w) && WillWake(w)
    requires t in w.pc && w.pc[t] == Holding(e) && e in w.fs.index
    requires w'.fs.index == w.fs.index && w'.fs.busy == w.fs.busy - {e} && w'.fs.waiting == w.fs.waiting - {e}
    requires w'.fs.idle == w.fs.idle + 1 && w'.skipped == w.skipped
    requires Awoken(w.pc, t, e, w.fs.waiting, w'.pc)
    ensures HeldByOne(w') && Counted(w') && WillWake(w')
  {
    LeaveHeld(w.pc, t, e, w.fs.waiting, w'.pc);
    assert e in Held(w.pc);
    assert w.fs.busy - {e} + {e} == w.fs.busy;
    CountTake(w.fs.index.Keys, w.fs.busy - {e}, e);
  }

  // ---------- every step keeps the invariant ----------

  lemma PickKeeps<E>(w: World<E>, t: Thread, p: Pool, st: Start, w': World<E>)
    requires Inv(w) && Step(w, t, Pick(p, st), w')
    ensures Inv(w')
  {
    if w.fs.index.Keys != {} && w.fs.idle == 0 {
      StayKeeps(w, t, AsleepIdle, w');
    } else if w'.pc[t].Holding? {
      var e := w'.pc[t].e;
      PicksSound(w.fs, p, st, w'.fs, Some(e));
      PickEffect(w.fs, p, st, w'.fs, Some(e));
      TakeKeeps(w, t, e, w');
    } else {
      PicksSound(w.fs, p, st, w'.fs, None);
      PickEffect(w.fs, p, st, w'.fs, None);
      StayKeeps(w, t, Ready, w');
    }
  }

  lemma PickEffect<E>(s: State<E>, p: Pool, st: Start, s': State<E>, r: Option<E>)
    requires Sound(s) && (st.Rotor? ==> st.tid < MAX_TID) && Picks(s, p, st, s', r)
    ensures s'.index == s.index && s'.waiting == s.waiting && s'.open == s.open
    ensures s'.isFree == s.isFree && s'.extant == s.extant && s'.free == s.free && s'.exist == s.exist && s'.noex == s.noex
    ensures r == None ==> s'.busy == s.busy && s'.idle == s.idle
    ensures r.Some? ==> r.value in s.index && r.value !in s.busy && s'.busy == s.busy + {r.value} && s'.idle == s.idle - 1
  {
  }

  lemma GrabKeeps<E>(w: World<E>, t: Thread, a: Action<E>, w': World<E>)
    requires Inv(w) && (a.DeleteGrab? || a.CloseGrab?) && Step(w, t, a, w')
    ensures Inv(w')
  {
    GrabSound(w.fs, a.e);
    if a.e in w.fs.busy {
      StayKeeps(w, t, Blocked(a.e), w');
    } else {
      TakeKeeps(w, t, a.e, w');
    }
  }

  lemma GrabSound<E>(s: State<E>, e: E)
    requires Sound(s) && e in s.index
    ensures if e in s.busy then Sound(Wait(s, e)) else Sound(GrabToDelete(s, e)) && Sound(GrabToClose(s, e))
  {
  }

  lemma LetKeeps<E>(w: World<E>, t: Thread, q: Release, w': World<E>)
    requires Inv(w) && Step(w, t, Let(q), w')
    ensures Inv(w')
  {
    var e := w.pc[t].e;
    assert e in Held(w.pc);
    UnbusySound(w.fs, e, q);
    UnbusyEffect(w.fs, e, q);
    LeaveKeeps(w, t, e, w');
  }

  lemma UnbusyEffect<E>(s: State<E>, e: E, q: Release)
    requires Sound(s) && e in s.busy
    ensures var r := Unbusy(s, e, q);
            && r.index == s.index && r.busy == s.busy - {e} && r.waiting == s.waiting - {e} && r.idle == s.idle + 1
            && r.open == s.open[e := s.open[e] + q.openIncr] && r.neRotor == s.neRotor && r.exRotor == s.exRotor
  {
  }
}
