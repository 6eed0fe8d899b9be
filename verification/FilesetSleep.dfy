/**
 Pickers asleep until an entry is idle. A release signals one of them only, and a pick signals none, whatever it
 leaves idle.
 */
module FilesetSleep {
  import opened FilesetState
  import opened FilesetProtocol
  import opened FilesetRuns

  function Sleepers<E>(pc: map<Thread, Pc<E>>): (r: set<Thread>) {
    set t | t in pc && pc[t].AsleepIdle?
  }

  function Wakers<E>(pc: map<Thread, Pc<E>>): (r: set<Thread>) {
    set t | t in pc && pc[t].Woken?
  }

  /** While some picker sleeps, every idle entry counted is matched by a thread woken for it or a fruitless pick. */
  ghost predicate Matched<E>(w: World<E>) {
    Sleepers(w.pc) != {} ==> w.fs.idle <= |Wakers(w.pc)| + w.fruitless
  }

  lemma ToggleSize<T>(s: set<T>, t: T, on: bool)
    ensures |if on then s + {t} else s - {t}| == |s| - (if t in s then 1 else 0) + (if on then 1 else 0)
  {
    if t in s {
      assert s + {t} == s == (s - {t}) + {t};
    } else {
      assert s - {t} == s;
    }
  }

  lemma OneSleeper<E>(pc: map<Thread, Pc<E>>, t: Thread, x: Pc<E>)
    ensures Sleepers(pc[t := x]) == if x.AsleepIdle? then Sleepers(pc) + {t} else Sleepers(pc) - {t}
  {
  }

  lemma OneWaker<E>(pc: map<Thread, Pc<E>>, t: Thread, x: Pc<E>)
    ensures Wakers(pc[t := x]) == if x.Woken? then Wakers(pc) + {t} else Wakers(pc) - {t}
  {
  }

  /** One thread's state changes. */
  lemma OneChange<E>(pc: map<Thread, Pc<E>>, t: Thread, x: Pc<E>)
    requires t in pc
    ensures Sleepers(pc[t := x]) == if x.AsleepIdle? then Sleepers(pc) + {t} else Sleepers(pc) - {t}
    ensures Wakers(pc[t := x]) == if x.Woken? then Wakers(pc) + {t} else Wakers(pc) - {t}
    ensures |Wakers(pc[t := x])| == |Wakers(pc)| - (if pc[t].Woken? then 1 else 0) + (if x.Woken? then 1 else 0)
  {
    OneSleeper(pc, t, x);
    OneWaker(pc, t, x);
    ToggleSize(Wakers(pc), t, x.Woken?);
  }

  lemma BroadcastKeeps<E>(pc: map<Thread, Pc<E>>)
    ensures Sleepers(WakeBlocked(pc)) == Sleepers(pc) && Wakers(WakeBlocked(pc)) == Wakers(pc)
  {
  }

  lemma SignalCounts<E>(pc: map<Thread, Pc<E>>, pc': map<Thread, Pc<E>>)
    requires SignalIdle(pc, pc')
    ensures Sleepers(pc') <= Sleepers(pc)
    ensures |Wakers(pc')| == |Wakers(pc)| + if Sleepers(pc) == {} then 0 else 1
  {
    if Sleepers(pc) == {} {
      forall t | t in pc ensures !pc[t].AsleepIdle? {
        assert t !in Sleepers(pc);
      }
    } else {
      var s :| s in Sleepers(pc);
      var t :| t in pc && pc[t].AsleepIdle? && pc' == pc[t := Woken];
      OneChange(pc, t, Woken);
    }
  }

  lemma LetMatches<E>(w: World<E>, t: Thread, q: Release, w': World<E>)
    requires Inv(w) && Matched(w) && Step(w, t, Let(q), w')
    ensures Matched(w')
  {
    var e := w.pc[t].e;
    assert e in Held(w.pc);
    UnbusyEffect(w.fs, e, q);
    var mid := w.pc[t := Ready];
    OneChange(w.pc, t, Ready);
    BroadcastKeeps(mid);
    SignalCounts(if e in w.fs.waiting then WakeBlocked(mid) else mid, w'.pc);
  }

  lemma PickMatches<E>(w: World<E>, t: Thread, p: Pool, st: Start, w': World<E>)
    requires Inv(w) && Matched(w) && Step(w, t, Pick(p, st), w')
    ensures Matched(w')
  {
    OneChange(w.pc, t, w'.pc[t]);
    if !(w.fs.index.Keys != {} && w.fs.idle == 0) {
      PickEffect(w.fs, p, st, w'.fs, if w'.pc[t].Holding? then Some(w'.pc[t].e) else None);
    }
  }

  lemma GrabMatches<E>(w: World<E>, t: Thread, a: Action<E>, w': World<E>)
    requires Inv(w) && Matched(w) && (a.DeleteGrab? || a.CloseGrab?) && Step(w, t, a, w')
    ensures Matched(w')
  {
    OneChange(w.pc, t, w'.pc[t]);
  }

  lemma StepMatches<E>(w: World<E>, t: Thread, a: Action<E>, w': World<E>)
    requires Inv(w) && Matched(w) && Step(w, t, a, w')
    ensures Matched(w')
  {
    match a
    case Pick(p, st) => PickMatches(w, t, p, st, w');
    case DeleteGrab(e) => GrabMatches(w, t, a, w');
    case CloseGrab(e) => GrabMatches(w, t, a, w');
    case Let(q) => LetMatches(w, t, q, w');
  }

  lemma {:induction false} RunMatched<E>(ws: seq<World<E>>, es: seq<Event<E>>, i: nat)
    requires Run(ws, es) && Init(ws[0]) && i < |ws|
    ensures Matched(ws[i])
  {
    if i == 0 {
      assert Sleepers(ws[0].pc) == {};
    } else {
      RunMatched(ws, es, i - 1);
      RunInv(ws, es, i - 1);
      StepMatches(ws[i - 1], es[i - 1].t, es[i - 1].a, ws[i]);
    }
  }

  /** A picker sleeps on although entries are idle and nobody is on the way to them. */
  ghost predicate Stranded<E>(w: World<E>) {
    Sleepers(w.pc) != {} && w.fs.idle > 0 && Wakers(w.pc) == {}
  }

  /** A picker is stranded only if a woken thread's pick came back empty earlier in the run. */
  lemma StrandedOnlyIfFruitless<E>(ws: seq<World<E>>, es: seq<Event<E>>, i: nat)
    requires Run(ws, es) && Init(ws[0]) && i < |ws| && Stranded(ws[i])
    ensures ws[i].fruitless >= ws[i].fs.idle > 0
    ensures exists j :: 0 <= j < i && es[j].a.Pick? && es[j].t in ws[j].pc && ws[j].pc[es[j].t] == Woken
                        && es[j].t in ws[j + 1].pc && ws[j + 1].pc[es[j].t] == Ready
  {
    RunMatched(ws, es, i);
    FruitlessHappened(ws, es, i);
  }

  lemma {:induction false} FruitlessHappened<E>(ws: seq<World<E>>, es: seq<Event<E>>, i: nat)
    requires Run(ws, es) && Init(ws[0]) && i < |ws| && ws[i].fruitless > 0
    ensures exists j :: 0 <= j < i && es[j].a.Pick? && es[j].t in ws[j].pc && ws[j].pc[es[j].t] == Woken
                        && es[j].t in ws[j + 1].pc && ws[j + 1].pc[es[j].t] == Ready
  {
    if ws[i - 1].fruitless > 0 {
      FruitlessHappened(ws, es, i - 1);
    } else {
      assert Step(ws[i - 1], es[i - 1].t, es[i - 1].a, ws[i]);
    }
  }
}
