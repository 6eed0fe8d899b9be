/** What the limiters let by, told by the readings and the calls of a run alone. */
module EventReadings {
  import opened EventTokens

  // ---------- what a limiter is called with ----------

  /** The generator has been enabled by the end of a run. */
  function On(on: bool, es: seq<Event>): (r: bool) {
    if es == [] then on
    else var e := es[|es| - 1]; On(on, es[..|es| - 1]) || (e.Tick? && e.rate > 0)
  }

  /** The readings limiter `id` has been called with while the generator was enabled, in order. */
  function Heard(on: bool, es: seq<Event>, id: nat): (h: seq<nat>) {
    if es == [] then []
    else
      var before, e := es[..|es| - 1], es[|es| - 1];
      Heard(on, before, id) + if e.Reach? && e.id == id && On(on, before) then [e.reading] else []
  }

  function Latest(h: seq<nat>): (n: nat) {
    if h == [] then 0 else h[|h| - 1]
  }

  /** The first reading that is not zero. */
  function Baseline(h: seq<nat>): (n: nat) {
    if h == [] then 0
    else var b := Baseline(h[..|h| - 1]); if b != 0 then b else h[|h| - 1]
  }

  /** What went by between the first and the last of these calls; for a limiter of calls, how many there were. */
  function Seen(k: Kind, h: seq<nat>): (n: int) {
    if k == PerCall then |h| else Latest(h) - Baseline(h)
  }

  /** The calls that have returned: all but the last while the limiter waits. */
  function Returned(l: Limiter, h: seq<nat>): (r: seq<nat>) {
    if l.events == 0 || h == [] then h else h[..|h| - 1]
  }

  // ---------- the limiter keeps account of it ----------

  /** The limiter's fields are what its calls make them, and what had gone by when it last returned is paid for. */
  ghost predicate Tracks(l: Limiter, h: seq<nat>) {
    && (l.events > 0 ==> h != [])
    && (l.kind == PerCall ==> l.used + l.events == |h|)
    && (l.kind != PerCall ==> l.last == Latest(h) && l.base == Baseline(h))
    && Seen(l.kind, Returned(l, h)) <= Worth(l.kind) * l.used
  }

  lemma EnterTracks(l: Limiter, h: seq<nat>, reading: nat)
    requires Balanced(l) && Tracks(l, h) && l.events == 0 && l.last <= reading
    ensures Tracks(Enter(l, reading), h + [reading])
  {
    var h', l' := h + [reading], Enter(l, reading);
    assert h'[..|h|] == h;
    EnterBalanced(l, reading);
    if l'.events == 0 { PaidFor(l'); }
  }

  lemma GrantTracks(l: Limiter, h: seq<nat>)
    requires Balanced(l) && Tracks(l, h) && l.events > 0
    ensures Tracks(Grant(l), h)
  {
    GrantBalanced(l);
    PaidFor(Grant(l));
  }

  ghost predicate AllTrack(w: World, es: seq<Event>, w': World) {
    && w'.enabled == On(w.enabled, es)
    && forall id :: 0 <= id < |w'.limiters| ==> Tracks(w'.limiters[id], Heard(w.enabled, es, id))
  }

  lemma NextTracks(w: World, es: seq<Event>, mid: World, e: Event)
    requires AllBalanced(mid.limiters) && AllTrack(w, es, mid) && Enabled(mid, e)
    ensures AllTrack(w, es + [e], Next(mid, e))
  {
    var t, w' := es + [e], Next(mid, e);
    assert t[..|es|] == es;
    forall id | 0 <= id < |w'.limiters| ensures Tracks(w'.limiters[id], Heard(w.enabled, t, id)) {
      var l, h := mid.limiters[id], Heard(w.enabled, es, id);
      assert Balanced(l) && Tracks(l, h);
      if e.Reach? && e.id == id && mid.enabled {
        EnterTracks(l, h, e.reading);
      } else {
        assert Heard(w.enabled, t, id) == h;
        if e.Take? && e.id == id { GrantTracks(l, h); }
      }
    }
  }

  lemma {:induction false} RunsSnoc(w: World, es: seq<Event>, w': World) returns (mid: World)
    requires Runs(w, es, w') && es != []
    ensures Runs(w, es[..|es| - 1], mid) && Enabled(mid, es[|es| - 1]) && w' == Next(mid, es[|es| - 1])
    decreases |es|
  {
    var n := |es| - 1;
    if n == 0 {
      assert Runs(Next(w, es[0]), es[1..], w');
      return w;
    }
    mid := RunsSnoc(Next(w, es[0]), es[1..], w');
    assert es[1..][..n - 1] == es[..n][1..];
  }

  lemma RunBalanced(w: World, es: seq<Event>, w': World)
    requires Init(w) && Runs(w, es, w')
    ensures AllBalanced(w'.limiters)
  {
    InitInv(w);
    RunInv(w, es, w');
  }

  /** At every point of every run. */
  lemma {:induction false} RunTracks(w: World, es: seq<Event>, w': World)
    requires Init(w) && Runs(w, es, w')
    ensures AllTrack(w, es, w') && |w'.limiters| == |w.limiters|
    decreases |es|
  {
    if es != [] {
      var before, e := es[..|es| - 1], es[|es| - 1];
      assert es == before + [e];
      var mid := RunsSnoc(w, es, w');
      RunTracks(w, before, mid);
      RunBalanced(w, before, mid);
      NextTracks(w, before, mid, e);
    }
  }

  /** What a limiter has heard of against what it has taken: never an event too few, and never one too many. */
  lemma HeardIsPaid(w: World, es: seq<Event>, w': World, id: nat)
    requires Init(w) && Runs(w, es, w') && id < |w'.limiters|
    ensures var l, h := w'.limiters[id], Heard(w.enabled, es, id);
            var seen, taken := Seen(l.kind, h), l.used + l.events;
            && Seen(l.kind, Returned(l, h)) <= Worth(l.kind) * l.used
            && if l.kind == PerMegabyte then seen <= MB * taken <= seen + MB else seen == taken
  {
    RunTracks(w, es, w');
    RunBalanced(w, es, w');
    var l := w'.limiters[id];
    assert Balanced(l) && Tracks(l, Heard(w.enabled, es, id));
    if l.kind == PerMegabyte { Asks(l); }
  }

  lemma Asks(l: Limiter)
    requires Balanced(l) && l.kind == PerMegabyte
    ensures l.last - l.base <= MB * (l.used + l.events) <= l.last - l.base + MB
  {
    assert MB * (l.used + l.events) == MB * l.used + MB * l.events;
    if l.events > 0 {
      var short := -l.bucket;
      assert short == MB * (short / MB) + short % MB;
    }
  }

  // ---------- all the limiters ----------

  /** What the first `n` limiters let by in calls that have returned, in bytes' worth of events. */
  ghost function LetBy(on: bool, es: seq<Event>, ls: seq<Limiter>, n: nat): (r: int)
    requires n <= |ls|
  {
    if n == 0 then 0 else LetBy(on, es, ls, n - 1) + LetByOne(ls[n - 1], Heard(on, es, n - 1))
  }

  ghost function LetByOne(l: Limiter, h: seq<nat>): (r: int) {
    var seen := Seen(l.kind, Returned(l, h));
    if l.kind == PerMegabyte then seen else MB * seen
  }

  lemma LetByOneIsPaid(l: Limiter, h: seq<nat>)
    requires Tracks(l, h)
    ensures LetByOne(l, h) <= MB * l.used
  {
  }

  lemma AddPaid(a: int, u: nat, b: int, v: nat)
    requires a <= MB * u && b <= MB * v
    ensures a + b <= MB * (u + v)
  {
  }

  lemma {:induction false} LetByIsPaid(on: bool, es: seq<Event>, ls: seq<Limiter>, n: nat)
    requires n <= |ls| && forall id :: 0 <= id < n ==> LetByOne(ls[id], Heard(on, es, id)) <= MB * ls[id].used
    ensures LetBy(on, es, ls, n) <= MB * Used(ls[..n])
  {
    if n > 0 {
      LetByIsPaid(on, es, ls, n - 1);
      var l, h := ls[n - 1], Heard(on, es, n - 1);
      var a, b, u := LetBy(on, es, ls, n - 1), LetByOne(l, h), Used(ls[..n - 1]);
      AddPaid(a, u, b, l.used);
      assert LetBy(on, es, ls, n) == a + b;
      assert Used(ls[..n]) == u + l.used by {
        assert ls[..n] == ls[..n - 1] + [l];
        UsedSnoc(ls[..n - 1], l);
      }
    }
  }

  lemma {:induction false} UsedSnoc(s: seq<Limiter>, l: Limiter)
    ensures Used(s + [l]) == Used(s) + l.used
  {
    if s != [] {
      assert (s + [l])[1..] == s[1..] + [l];
      UsedSnoc(s[1..], l);
    }
  }

  /**
   The whole of it: under a rate of at most `top`, the calls, operations and megabytes that all the limiters together
   have let by come to no more than `top` a second, at any point of any run.
   */
  lemma EndToEnd(w: World, es: seq<Event>, w': World, top: nat)
    requires Init(w) && Runs(w, es, w') && Slow(es, top)
    ensures NANO * LetBy(w.enabled, es, w'.limiters, |w'.limiters|) <= MB * (top * (w'.last - w.start))
  {
    RunTracks(w, es, w');
    RateBound(w, es, w', top);
    forall id | 0 <= id < |w'.limiters|
      ensures LetByOne(w'.limiters[id], Heard(w.enabled, es, id)) <= MB * w'.limiters[id].used
    {
      LetByOneIsPaid(w'.limiters[id], Heard(w.enabled, es, id));
    }
    LetByIsPaid(w.enabled, es, w'.limiters, |w'.limiters|);
    assert w'.limiters[..|w'.limiters|] == w'.limiters;
    Scale(LetBy(w.enabled, es, w'.limiters, |w'.limiters|), Used(w'.limiters), top * (w'.last - w.start));
  }
}
