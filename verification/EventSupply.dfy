/** How well the generator keeps up: what it rounds away, and which demands its five-second queue can meet. */
module EventSupply {
  import opened EventTokens

  /** Ten periods, as long as the generator asks to sleep. */
  function Sleep(rate: nat): (ns: nat)
    requires rate > 0
  {
    var ten := NANO / rate * 10;
    if ten < 1000 then 1000 else ten
  }

  lemma OnePeriod(rate: nat, period: nat)
    requires rate > 0 && period == NANO / rate
    ensures rate * period >= NANO - rate
  {
  }

  lemma Grows(rate: nat, a: nat, b: nat)
    requires a <= b
    ensures rate * a <= rate * b
  {
  }

  lemma TenPeriods(rate: nat, delta: nat)
    requires 0 < rate <= NANO / 10 && Sleep(rate) <= delta
    ensures rate * delta >= 9 * NANO
  {
    var period := NANO / rate;
    OnePeriod(rate, period);
    Grows(rate, period * 10, delta);
    assert rate * (period * 10) == 10 * (rate * period);
  }

  /** When the sleep is not cut short, rounding down costs at most a ninth of what is due. */
  lemma RoundingCost(rate: nat, delta: nat)
    requires 0 < rate <= NANO / 10 && Sleep(rate) <= delta
    ensures 9 * NANO * Count(rate, delta) >= 8 * (rate * delta)
  {
    TenPeriods(rate, delta);
    CountEarned(rate, delta);
  }

  /** A run at rates up to `top` in which no turn posts more than `most`. */
  ghost predicate Steady(w: World, es: seq<Event>, top: nat, most: nat)
    decreases |es|
  {
    es != [] ==>
      && Enabled(w, es[0])
      && (es[0].Tick? && es[0].rate > 0 ==> es[0].rate <= top && Count(es[0].rate, es[0].now - w.last) <= most)
      && Steady(Next(w, es[0]), es[1..], top, most)
  }

  lemma CapStep(w: World, e: Event, top: nat, most: nat)
    requires Enabled(w, e) && w.q <= 5 * top + most
    requires e.Tick? && e.rate > 0 ==> e.rate <= top && Count(e.rate, e.now - w.last) <= most
    ensures Next(w, e).q <= 5 * top + most
    ensures w.q < 5 * top + most && top > 0 ==> Next(w, e).q < 5 * top + most
  {
  }

  /** The queue never holds more than five seconds' worth and one posting. */
  lemma {:induction false} QueueCap(w: World, es: seq<Event>, w': World, top: nat, most: nat)
    requires Runs(w, es, w') && Steady(w, es, top, most) && top > 0 && w.q < 5 * top + most
    ensures w'.q < 5 * top + most
    decreases |es|
  {
    if es != [] {
      CapStep(w, es[0], top, most);
      QueueCap(Next(w, es[0]), es[1..], w', top, most);
    }
  }

  /** A limiter that asks for that much or more is never let go: it waits for the rest of the run. */
  lemma {:induction false} Starves(w: World, es: seq<Event>, w': World, id: nat, top: nat, most: nat)
    requires Runs(w, es, w') && Steady(w, es, top, most) && top > 0 && w.q < 5 * top + most
    requires id < |w.limiters| && w.limiters[id].events >= 5 * top + most
    ensures id < |w'.limiters| && w'.limiters[id] == w.limiters[id]
    decreases |es|
  {
    if es != [] {
      CapStep(w, es[0], top, most);
      Starves(Next(w, es[0]), es[1..], w', id, top, most);
    }
  }

  /** Only the generator runs, at a fixed rate, and posts something every turn. */
  ghost predicate Generating(w: World, es: seq<Event>, rate: nat)
    decreases |es|
  {
    es != [] ==>
      && es[0].Tick? && es[0].rate == rate && Enabled(w, es[0]) && Count(rate, es[0].now - w.last) >= 1
      && Generating(Next(w, es[0]), es[1..], rate)
  }

  /** A demand within the five seconds is met after at most that many turns. */
  lemma {:induction false} Served(w: World, es: seq<Event>, w': World, id: nat, rate: nat)
    requires Runs(w, es, w') && Generating(w, es, rate) && rate > 0
    requires id < |w.limiters| && 0 < w.limiters[id].events <= 5 * rate && w.limiters[id].events <= w.q + |es|
    ensures Enabled(w', Take(id)) && w'.limiters == w.limiters
    decreases |es|
  {
    if es != [] {
      var w1 := Next(w, es[0]);
      if w.q >= 5 * rate {
        assert w1.q == w.q;
        Stays(w1, es[1..], w', id, rate);
      } else {
        assert w1.q >= w.q + 1;
        Served(w1, es[1..], w', id, rate);
      }
    }
  }

  lemma {:induction false} Stays(w: World, es: seq<Event>, w': World, id: nat, rate: nat)
    requires Runs(w, es, w') && Generating(w, es, rate) && rate > 0
    requires id < |w.limiters| && 0 < w.limiters[id].events <= w.q
    ensures Enabled(w', Take(id)) && w'.limiters == w.limiters
    decreases |es|
  {
    if es != [] {
      Stays(Next(w, es[0]), es[1..], w', id, rate);
    }
  }

  // ---------- exactly which demands are met ----------

  /** Whenever the generator alone has run for as many turns as are missing, the limiter may take its events. */
  ghost predicate AlwaysServed(w: World, id: nat, rate: nat)
    requires id < |w.limiters|
  {
    forall es, w' :: Runs(w, es, w') && Generating(w, es, rate) && w.limiters[id].events <= w.q + |es| ==> Enabled(w', Take(id))
  }

  /** The least time in which one event falls due. */
  function Period(rate: nat): (ns: nat)
    requires rate > 0
  {
    (NANO + rate - 1) / rate
  }

  lemma PeriodBounds(rate: nat, ns: nat)
    requires 0 < rate && ns == (NANO + rate - 1) / rate
    ensures NANO <= rate * ns <= NANO + rate - 1
  {
    assert NANO + rate - 1 == rate * ns + (NANO + rate - 1) % rate;
  }

  lemma OnePerPeriod(rate: nat)
    requires 0 < rate <= NANO
    ensures Count(rate, Period(rate)) == 1
  {
    PeriodBounds(rate, Period(rate));
    CountEarned(rate, Period(rate));
  }

  /** The generator woken once every period. */
  function Metronome(last: nat, rate: nat, n: nat): (es: seq<Event>)
    requires rate > 0
    ensures |es| == n
    decreases n
  {
    if n == 0 then [] else
    var t := last + Period(rate);
    [Tick(rate, t, t)] + Metronome(t, rate, n - 1)
  }

  /** The queue then fills to five seconds' worth and no further. */
  lemma {:induction false} FillsToFive(w: World, rate: nat, n: nat) returns (w': World)
    requires 0 < rate <= NANO
    ensures Runs(w, Metronome(w.last, rate, n), w') && Generating(w, Metronome(w.last, rate, n), rate)
    ensures w'.limiters == w.limiters && w'.q <= (if w.q < 5 * rate then 5 * rate else w.q)
    decreases n
  {
    if n == 0 {
      w' := w;
    } else {
      var es := Metronome(w.last, rate, n);
      OnePerPeriod(rate);
      var w1 := Next(w, es[0]);
      assert es[1..] == Metronome(w1.last, rate, n - 1);
      w' := FillsToFive(w1, rate, n - 1);
    }
  }

  /** A demand is always met if and only if it is no more than five seconds' worth, or is on the queue already. */
  lemma ServedExactly(w: World, id: nat, rate: nat)
    requires 0 < rate <= NANO && id < |w.limiters| && w.limiters[id].events > 0
    ensures AlwaysServed(w, id, rate) <==> w.limiters[id].events <= 5 * rate || w.limiters[id].events <= w.q
  {
    var events := w.limiters[id].events;
    if events <= 5 * rate || events <= w.q {
      forall es, w' | Runs(w, es, w') && Generating(w, es, rate) && events <= w.q + |es| ensures Enabled(w', Take(id)) {
        if events <= w.q { Stays(w, es, w', id, rate); } else { Served(w, es, w', id, rate); }
      }
    } else {
      var es := Metronome(w.last, rate, events - w.q);
      var w' := FillsToFive(w, rate, events - w.q);
      assert Runs(w, es, w') && Generating(w, es, rate) && !Enabled(w', Take(id));
    }
  }

  lemma RunsFrom(w: World, e: Event, es: seq<Event>, w': World)
    requires Enabled(w, e) && Runs(Next(w, e), es, w')
    ensures Runs(w, [e] + es, w')
  {
    assert ([e] + es)[1..] == es;
  }

  /** At any rate there is a limiter that one burst of operations leaves waiting, however long the generator then runs. */
  lemma SomeoneStarves(rate: nat, n: nat) returns (w: World, es: seq<Event>, w': World)
    requires 0 < rate <= NANO
    ensures Init(w) && |es| == n + 3 && Runs(w, es, w')
    ensures |w'.limiters| == 1 && w'.limiters[0].events > 0 && !Enabled(w', Take(0))
  {
    w := World(false, 0, 0, [Limiter(PerOp, 0, 0, 0, 0, 0)], 0, 0, 0, 0);
    var w1 := Next(w, Tick(rate, 0, 0));
    var w2 := Next(w1, Reach(0, 1));
    var w3 := Next(w2, Reach(0, 5 * rate + 2));
    w' := FillsToFive(w3, rate, n);
    es := Metronome(w3.last, rate, n);
    RunsFrom(w2, Reach(0, 5 * rate + 2), es, w');
    RunsFrom(w1, Reach(0, 1), [Reach(0, 5 * rate + 2)] + es, w');
    RunsFrom(w, Tick(rate, 0, 0), [Reach(0, 1)] + ([Reach(0, 5 * rate + 2)] + es), w');
    es := [Tick(rate, 0, 0)] + ([Reach(0, 1)] + ([Reach(0, 5 * rate + 2)] + es));
  }

  // ---------- what a turn posts ----------

  /**
   A turn posts the whole events that fall due between where the clock stood and its first reading, or nothing if five
   seconds' worth are queued, and leaves the clock at its second reading. Without a rate it does nothing.
   */
  lemma TurnPosts(w: World, rate: int, now: nat, again: nat)
    requires w.last <= now <= again
    ensures var w' := Generate(w, rate, now, again); var n := w'.q - w.q;
            if rate <= 0 then w' == w
            else
              && (if w.q >= 5 * rate then n == 0 else NANO * n <= rate * (now - w.last) < NANO * (n + 1))
              && w'.posted == w.posted + n && w'.last == again && w'.enabled
              && w'.limiters == w.limiters && w'.dropped == w.dropped && w'.start == w.start
  {
    if rate > 0 { CountEarned(rate, now - w.last); }
  }

  /** A turn posts all that falls due in it if and only if nothing is rounded away, no time passes between the two
      readings of the clock, and the queue is not full. */
  lemma PostsAllDue(w: World, rate: nat, now: nat, again: nat)
    requires 0 < rate && w.last <= now <= again && w.last < again
    ensures NANO * (Generate(w, rate, now, again).posted - w.posted) == rate * (again - w.last)
       <==> w.q < 5 * rate && again == now && rate * (now - w.last) % NANO == 0
  {
    var delta, whole := now - w.last, again - w.last;
    CountEarned(rate, delta);
    Grows(rate, delta, whole);
    Grows(rate, 1, whole);
    if delta < whole {
      Grows(rate, delta + 1, whole);
      assert rate * (delta + 1) == rate * delta + rate;
    }
  }
}
