/** Exactly when a picker is left asleep beside an idle entry, and a run in which it is. */
module FilesetStranded {
  import opened FilesetOrder
  import opened FilesetState
  import opened FilesetProtocol
  import opened FilesetRuns
  import opened FilesetSleep
  import opened FilesetLayout

  /**
   The one kind of step that strands a sleeper: a pick by the only thread woken, while others sleep, with an idle
   entry counted that the pick will not take.
   */
  ghost predicate Strands<E>(w: World<E>, t: Thread, a: Action<E>) {
    && a.Pick? && t in w.pc && w.pc[t] == Woken && Wakers(w.pc) == {t} && Sleepers(w.pc) != {}
    && w.fs.idle > if Tree(w.fs, a.p) <= w.fs.busy then 0 else 1
  }

  lemma PickStrands<E>(w: World<E>, t: Thread, a: Action<E>, w': World<E>)
    requires Inv(w) && a.Pick? && Step(w, t, a, w') && !Stranded(w)
    ensures Stranded(w') <==> Strands(w, t, a)
  {
    if w.fs.index.Keys != {} && w.fs.idle == 0 {
      assert w'.fs.idle == 0;
    } else {
      PickLeaves(w, t, a, w');
      OneChange(w.pc, t, w'.pc[t]);
    }
  }

  /** What a pick that does not sleep leaves of the idle count. */
  lemma PickLeaves<E>(w: World<E>, t: Thread, a: Action<E>, w': World<E>)
    requires Inv(w) && a.Pick? && Step(w, t, a, w') && (w.fs.index.Keys == {} || w.fs.idle != 0)
    ensures t in w'.pc && w'.pc == w.pc[t := w'.pc[t]] && !w'.pc[t].AsleepIdle? && !w'.pc[t].Woken?
    ensures w'.fs.idle == w.fs.idle - if Tree(w.fs, a.p) <= w.fs.busy then 0 else 1
  {
    var r := if w'.pc[t].Holding? then Some(w'.pc[t].e) else None;
    PickEffect(w.fs, a.p, a.st, w'.fs, r);
    PickOutcome(w.fs, a.p, a.st, w'.fs, r);
  }

  lemma GrabStrandsNone<E>(w: World<E>, t: Thread, a: Action<E>, w': World<E>)
    requires Inv(w) && (a.DeleteGrab? || a.CloseGrab?) && Step(w, t, a, w') && !Stranded(w)
    ensures !Stranded(w')
  {
    OneChange(w.pc, t, w'.pc[t]);
  }

  lemma LetStrandsNone<E>(w: World<E>, t: Thread, q: Release, w': World<E>)
    requires Inv(w) && Step(w, t, Let(q), w') && !Stranded(w)
    ensures !Stranded(w')
  {
    var e := w.pc[t].e;
    assert e in Held(w.pc);
    UnbusyEffect(w.fs, e, q);
    var mid := w.pc[t := Ready];
    OneChange(w.pc, t, Ready);
    BroadcastKeeps(mid);
    SignalCounts(if e in w.fs.waiting then WakeBlocked(mid) else mid, w'.pc);
  }

  /** A step strands a sleeper if and only if it is such a pick. */
  lemma StrandsExactly<E>(w: World<E>, t: Thread, a: Action<E>, w': World<E>)
    requires Inv(w) && Step(w, t, a, w') && !Stranded(w)
    ensures Stranded(w') <==> Strands(w, t, a)
  {
    match a
    case Pick(p, st) => PickStrands(w, t, a, w');
    case DeleteGrab(e) => GrabStrandsNone(w, t, a, w');
    case CloseGrab(e) => GrabStrandsNone(w, t, a, w');
    case Let(q) => LetStrandsNone(w, t, q, w');
  }

  ghost predicate StrandsAt<E>(ws: seq<World<E>>, es: seq<Event<E>>, j: nat)
    requires j < |ws| && j < |es|
  {
    Strands(ws[j], es[j].t, es[j].a)
  }

  lemma {:induction false} StrandedSince<E>(ws: seq<World<E>>, es: seq<Event<E>>, i: nat) returns (j: nat)
    requires Run(ws, es) && Init(ws[0]) && i < |ws| && Stranded(ws[i])
    ensures j < i && j < |es| && StrandsAt(ws, es, j)
  {
    assert Sleepers(ws[0].pc) == {};
    j := i - 1;
    if Stranded(ws[j]) {
      j := StrandedSince(ws, es, j);
    } else {
      RunInv(ws, es, j);
      StrandsExactly(ws[j], es[j].t, es[j].a, ws[i]);
    }
  }

  /** A run strands a sleeper somewhere if and only if it has such a step. */
  lemma RunStrandsExactly<E>(ws: seq<World<E>>, es: seq<Event<E>>)
    requires Run(ws, es) && Init(ws[0])
    ensures (exists i :: 0 <= i < |ws| && Stranded(ws[i])) <==> exists j :: 0 <= j < |es| && StrandsAt(ws, es, j)
  {
    if i :| 0 <= i < |ws| && Stranded(ws[i]) {
      var j := StrandedSince(ws, es, i);
    }
    if j :| 0 <= j < |es| && StrandsAt(ws, es, j) {
      RunInv(ws, es, j);
      assert !Stranded(ws[j]);
      StrandsExactly(ws[j], es[j].t, es[j].a, ws[j + 1]);
      assert Stranded(ws[j + 1]);
    }
  }

  // ---------- and then it happens ----------

  /** The one file of the smallest layout, free or existing, busy or idle. */
  function OneFile(free: bool, busy: bool): (s: State<nat>) {
    State(map[2 := 0], if free then {2} else {}, if free then {} else {2}, if busy then {2} else {}, {},
          if free then {2} else {}, if free then {} else {2}, {}, map[2 := 0], if busy then 0 else 1, 0, seq(MAX_TID, _ => 0))
  }

  lemma OneFilePopulated()
    ensures Laid(OneOfEachLayout()) && Populated(OneOfEachLayout(), File) == OneFile(true, false)
  {
    OneOfEach(OneOfEachLayout());
    assert OfKind(OneOfEachLayout(), File) == {2};
    assert Populated(OneOfEachLayout(), File).index == map[2 := 0];
  }

  function ThreePcs(a: Pc<nat>, b: Pc<nat>, c: Pc<nat>): (pc: map<Thread, Pc<nat>>) {
    map[0 := a, 1 := b, 2 := c]
  }

  /** Thread 0 makes the file; thread 1, after one that does not exist, and thread 2, after one that does, wait for it. */
  function DemoWorlds(): (ws: seq<World<nat>>)
    ensures |ws| == 6
  {
    [ World(OneFile(true, false), ThreePcs(Ready, Ready, Ready), 0, 0),
      World(OneFile(true, true), ThreePcs(Holding(2), Ready, Ready), 0, 0),
      World(OneFile(true, true), ThreePcs(Holding(2), AsleepIdle, Ready), 0, 0),
      World(OneFile(true, true), ThreePcs(Holding(2), AsleepIdle, AsleepIdle), 0, 0),
      World(OneFile(false, false), ThreePcs(Ready, Woken, AsleepIdle), 0, 0),
      World(OneFile(false, false), ThreePcs(Ready, Ready, AsleepIdle), 0, 1) ]
  }

  function DemoEvents(): (es: seq<Event<nat>>)
    ensures |es| == 5
  {
    [ Event(0, Pick(Unique, AtIndex(0))),
      Event(1, Pick(NotExisting, AtIndex(0))),
      Event(2, Pick(Existing, AtIndex(0))),
      Event(0, Let(Release(true, true, 0))),
      Event(1, Pick(NotExisting, AtIndex(0))) ]
  }

  lemma DemoPick()
    ensures var ws, es := DemoWorlds(), DemoEvents(); Step(ws[0], es[0].t, es[0].a, ws[1])
  {
    var s, s' := OneFile(true, false), OneFile(true, true);
    assert IndexSet(s.index, {2}) == {0};
    assert Tree(s, Unique) - s.busy == {2};
    CyclicIs({0}, 0, 0);
    assert Picks(s, Unique, AtIndex(0), s', Some(2));
    assert DemoWorlds()[1].pc == DemoWorlds()[0].pc[0 := Holding(2)];
  }

  lemma DemoSleeps()
    ensures var ws, es := DemoWorlds(), DemoEvents();
            Step(ws[1], es[1].t, es[1].a, ws[2]) && Step(ws[2], es[2].t, es[2].a, ws[3])
  {
    assert DemoWorlds()[2].pc == DemoWorlds()[1].pc[1 := AsleepIdle];
    assert DemoWorlds()[3].pc == DemoWorlds()[2].pc[2 := AsleepIdle];
  }

  lemma DemoUnbusy()
    ensures Unbusy(OneFile(true, true), 2, Release(true, true, 0)) == OneFile(false, false)
  {
    var u := SetExists(OneFile(true, true), 2, true);
    assert u == OneFile(false, true);
    assert Unbusy(OneFile(true, true), 2, Release(true, true, 0)).busy == {};
  }

  lemma DemoRelease()
    ensures var ws, es := DemoWorlds(), DemoEvents(); Step(ws[3], es[3].t, es[3].a, ws[4])
  {
    DemoUnbusy();
    var w, w' := DemoWorlds()[3], DemoWorlds()[4];
    var mid := w.pc[0 := Ready];
    assert mid[1].AsleepIdle? && w'.pc == mid[1 := Woken];
    assert SignalIdle(mid, w'.pc);
  }

  lemma DemoEmpty()
    ensures var ws, es := DemoWorlds(), DemoEvents(); Step(ws[4], es[4].t, es[4].a, ws[5])
  {
    assert DemoWorlds()[5].pc == DemoWorlds()[4].pc[1 := Ready];
    assert Picks(OneFile(false, false), NotExisting, AtIndex(0), OneFile(false, false), None);
  }

  lemma DemoRuns()
    ensures Run(DemoWorlds(), DemoEvents())
  {
    var ws, es := DemoWorlds(), DemoEvents();
    forall i | 0 <= i < |es| ensures Step(ws[i], es[i].t, es[i].a, ws[i + 1]) {
      if i == 0 {
        DemoPick();
      } else if i == 1 || i == 2 {
        DemoSleeps();
      } else if i == 3 {
        DemoRelease();
      } else {
        DemoEmpty();
      }
    }
  }

  lemma DemoStarts()
    ensures Laid(OneOfEachLayout()) && DemoWorlds()[0].fs == Populated(OneOfEachLayout(), File) && Init(DemoWorlds()[0])
  {
    OneFilePopulated();
    PopulatedSound(OneOfEachLayout(), File);
  }

  lemma DemoEnds()
    ensures Stranded(DemoWorlds()[5]) && Idle(DemoWorlds()[5].fs) == {2}
  {
    var pc := ThreePcs(Ready, Ready, AsleepIdle);
    assert 2 in Sleepers(pc) && Wakers(pc) == {};
  }

  /**
   A run from a populated fileset at whose end its one file is idle, no thread holds anything, and a picker of that
   file sleeps on.
   */
  lemma SleeperLeftBehind()
    ensures Laid(OneOfEachLayout()) && DemoWorlds()[0].fs == Populated(OneOfEachLayout(), File) && Init(DemoWorlds()[0])
    ensures Run(DemoWorlds(), DemoEvents())
    ensures Stranded(DemoWorlds()[5]) && Idle(DemoWorlds()[5].fs) == {2}
  {
    DemoStarts();
    DemoRuns();
    DemoEnds();
  }
}
