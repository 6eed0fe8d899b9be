/**
 The event generator and the flowops that wait for its events, as a state machine: one producer, any number of
 limiters, one shared queue.
 */
module EventTokens {
  const NANO: nat := 1_000_000_000
  const MB: nat := 1024 * 1024

  /** `eventlimit`; `iopslimit` and `opslimit`; `bwlimit`. */
  datatype Kind = PerCall | PerOp | PerMegabyte

  /**
   `last` and `bucket` are `fo_tputlast` and `fo_tputbucket`; `events` is what the limiter is waiting for, zero
   when it is not waiting. `base` is the reading its counting began with and `used` the events it has taken.
   */
  datatype Limiter = Limiter(kind: Kind, last: nat, bucket: int, events: nat, base: nat, used: nat)

  /** How much one event pays for. */
  function Worth(k: Kind): (n: nat) {
    if k == PerMegabyte then MB else 1
  }

  /** How many events a limiter that is short by `short` asks for. */
  function Demand(k: Kind, short: nat): (n: nat) {
    if k == PerMegabyte then short / MB + 1 else short
  }

  /** A limiter reached with the counter it watches at `reading`. */
  function Enter(l: Limiter, reading: nat): (r: Limiter)
    requires l.events == 0 && l.last <= reading
  {
    if l.kind == PerCall then l.(events := 1)
    else if l.last == 0 then l.(last := reading, base := reading)
    else
      var bucket := l.bucket - (reading - l.last);
      l.(last := reading, bucket := bucket, events := if bucket >= 0 then 0 else Demand(l.kind, -bucket))
  }

  /** The events it waited for have been taken from the queue. */
  function Grant(l: Limiter): (r: Limiter) {
    l.(events := 0, used := l.used + l.events, bucket := if l.kind == PerCall then l.bucket else l.bucket + l.events * Worth(l.kind))
  }

  /** What has gone by under the limiter since its counting began. */
  function Counted(l: Limiter): (n: int) {
    if l.kind == PerCall then l.used else l.last - l.base
  }

  /**
   The bucket is exactly what was paid for less what went by. A limiter that is not waiting owes nothing, and has
   at most one event's worth in hand; one that is waiting asks for just enough.
   */
  ghost predicate Balanced(l: Limiter) {
    && l.base <= l.last && (l.base == 0 ==> l.last == 0)
    && (l.kind == PerCall ==> l.bucket == 0 && l.last == 0 && l.events <= 1)
    && (l.kind != PerCall ==> l.bucket == Worth(l.kind) * l.used - (l.last - l.base))
    && (l.kind != PerCall && l.events > 0 ==> l.bucket < 0 && l.events == Demand(l.kind, -l.bucket))
    && (l.kind == PerOp && l.events == 0 ==> l.bucket == 0)
    && (l.kind == PerMegabyte && l.events == 0 ==> 0 <= l.bucket <= MB)
  }

  lemma EnterBalanced(l: Limiter, reading: nat)
    requires Balanced(l) && l.events == 0 && l.last <= reading
    ensures Balanced(Enter(l, reading)) && Enter(l, reading).used == l.used
  {
  }

  lemma GrantBalanced(l: Limiter)
    requires Balanced(l) && l.events > 0
    ensures Balanced(Grant(l))
  {
    if l.kind == PerMegabyte {
      var short := -l.bucket;
      assert short == MB * (short / MB) + short % MB;
      assert MB * (l.used + l.events) == MB * l.used + MB * l.events;
    }
  }

  /** At rest, a limiter has let by no more than its events paid for, and has used less than one event too many. */
  lemma PaidFor(l: Limiter)
    requires Balanced(l) && l.events == 0
    ensures Counted(l) <= Worth(l.kind) * l.used
    ensures l.kind == PerMegabyte ==> MB * l.used <= Counted(l) + MB
    ensures l.kind != PerMegabyte ==> Counted(l) == l.used
  {
  }

  // ---------- the whole system ----------

  /**
   `q` is `shm_eventgen_q` and `last` the generator's clock; `posted` and `dropped` are all the events put on the
   queue and cleared by resets since time `start`, and `due` adds up rate times elapsed time.
   */
  datatype World = World(enabled: bool, q: nat, last: nat, limiters: seq<Limiter>, start: nat, posted: nat, dropped: nat, due: nat)

  /** The generator reads the clock twice: once for the time gone by, and again for where to count from next. */
  datatype Event = Tick(rate: int, now: nat, again: nat) | Reset | Reach(id: nat, reading: nat) | Take(id: nat)

  function Count(rate: nat, delta: nat): (n: nat) {
    rate * delta / NANO
  }

  ghost predicate Enabled(w: World, e: Event) {
    match e
    case Tick(rate, now, again) => w.last <= now <= again
    case Reset => true
    case Reach(id, reading) => id < |w.limiters| && w.limiters[id].events == 0 && w.limiters[id].last <= reading
    case Take(id) => id < |w.limiters| && 0 < w.limiters[id].events <= w.q
  }

  /** One turn of the generator's loop. */
  function Generate(w: World, rate: int, now: nat, again: nat): (r: World)
    requires w.last <= now <= again
  {
    if rate <= 0 then w
    else
      var count := Count(rate, now - w.last);
      var post := if w.q < 5 * rate then count else 0;
      w.(enabled := true, last := again, q := w.q + post, posted := w.posted + post, due := w.due + rate * (now - w.last))
  }

  function Next(w: World, e: Event): (r: World)
    requires Enabled(w, e)
  {
    match e
    case Tick(rate, now, again) => Generate(w, rate, now, again)
    case Reset => w.(q := 0, dropped := w.dropped + w.q)
    case Reach(id, reading) =>
      if w.enabled then w.(limiters := w.limiters[id := Enter(w.limiters[id], reading)]) else w
    case Take(id) => w.(q := w.q - w.limiters[id].events, limiters := w.limiters[id := Grant(w.limiters[id])])
  }

  function Used(s: seq<Limiter>): (n: nat) {
    if s == [] then 0 else s[0].used + Used(s[1..])
  }

  lemma {:induction false} UsedUpdate(s: seq<Limiter>, i: nat, l: Limiter)
    requires i < |s|
    ensures Used(s[i := l]) == Used(s) - s[i].used + l.used
  {
    if i == 0 {
      assert s[0 := l][1..] == s[1..];
    } else {
      assert s[i := l][1..] == s[1..][i - 1 := l];
      UsedUpdate(s[1..], i - 1, l);
    }
  }

  ghost predicate AllBalanced(s: seq<Limiter>) {
    forall i :: 0 <= i < |s| ==> Balanced(s[i])
  }

  /** Every event posted is on the queue, was cleared, or was taken by a limiter. */
  ghost predicate Conserved(w: World) {
    w.posted == w.q + w.dropped + Used(w.limiters)
  }

  /** Nothing is posted that time has not earned. */
  ghost predicate Earned(w: World) {
    w.start <= w.last && NANO * w.posted <= w.due
  }

  ghost predicate Inv(w: World) {
    AllBalanced(w.limiters) && Conserved(w) && Earned(w)
  }

  ghost predicate Init(w: World) {
    && w.q == 0 && w.posted == 0 && w.dropped == 0 && w.due == 0 && w.start == w.last
    && forall i :: 0 <= i < |w.limiters| ==>
         var l := w.limiters[i]; l.last == 0 && l.bucket == 0 && l.events == 0 && l.base == 0 && l.used == 0
  }

  lemma {:induction false} NoneUsed(s: seq<Limiter>)
    requires forall i :: 0 <= i < |s| ==> s[i].used == 0
    ensures Used(s) == 0
  {
    if s != [] { NoneUsed(s[1..]); }
  }

  lemma InitInv(w: World)
    requires Init(w)
    ensures Inv(w)
  {
    NoneUsed(w.limiters);
  }

  lemma CountEarned(rate: nat, delta: nat)
    ensures NANO * Count(rate, delta) <= rate * delta < NANO * Count(rate, delta) + NANO
  {
  }

  lemma NextInv(w: World, e: Event)
    requires Inv(w) && Enabled(w, e)
    ensures Inv(Next(w, e))
  {
    match e
    case Tick(rate, now, again) =>
      if rate > 0 { CountEarned(rate, now - w.last); }
    case Reset =>
    case Reach(id, reading) =>
      EnterBalanced(w.limiters[id], reading);
      UsedUpdate(w.limiters, id, Enter(w.limiters[id], reading));
    case Take(id) =>
      GrantBalanced(w.limiters[id]);
      UsedUpdate(w.limiters, id, Grant(w.limiters[id]));
  }

  /** After a reset no limiter can take anything until more is posted. */
  lemma ResetStops(w: World, id: nat)
    requires Enabled(w, Reset)
    ensures var r := Next(w, Reset); !Enabled(r, Take(id)) && r.limiters == w.limiters && r.dropped == w.dropped + w.q
  {
  }

  // ---------- runs ----------

  ghost predicate Runs(w: World, es: seq<Event>, w': World)
    decreases |es|
  {
    if es == [] then w' == w
    else Enabled(w, es[0]) && Runs(Next(w, es[0]), es[1..], w')
  }

  lemma {:induction false} RunInv(w: World, es: seq<Event>, w': World)
    requires Inv(w) && Runs(w, es, w')
    ensures Inv(w')
    decreases |es|
  {
    if es != [] {
      NextInv(w, es[0]);
      RunInv(Next(w, es[0]), es[1..], w');
    }
  }

  /** The rate never goes above `top`. */
  ghost predicate Slow(es: seq<Event>, top: nat) {
    forall i :: 0 <= i < |es| && es[i].Tick? ==> es[i].rate <= top
  }

  lemma DueStep(w: World, e: Event, top: nat)
    requires Enabled(w, e) && (e.Tick? ==> e.rate <= top)
    requires w.start <= w.last && w.due <= top * (w.last - w.start)
    ensures var r := Next(w, e); r.start == w.start <= r.last && r.due <= top * (r.last - r.start)
  {
    if e.Tick? && e.rate > 0 {
      var delta := e.now - w.last;
      assert e.rate * delta <= top * delta;
      assert top * (w.last - w.start) + top * delta == top * (e.now - w.start) <= top * (e.again - w.start);
    }
  }

  lemma {:induction false} DueBound(w: World, es: seq<Event>, w': World, top: nat)
    requires Runs(w, es, w') && Slow(es, top) && w.start <= w.last && w.due <= top * (w.last - w.start)
    ensures w'.start == w.start <= w'.last && w'.due <= top * (w'.last - w'.start)
    decreases |es|
  {
    if es != [] {
      DueStep(w, es[0], top);
      DueBound(Next(w, es[0]), es[1..], w', top);
    }
  }

  lemma DueFromStart(w: World, es: seq<Event>, w': World, top: nat)
    requires Init(w) && Runs(w, es, w') && Slow(es, top)
    ensures w'.start == w.start <= w'.last && w'.due <= top * (w'.last - w.start)
  {
    assert w.last - w.start == 0 && top * 0 == 0;
    DueBound(w, es, w', top);
  }

  /** In every run, events taken and queued are at most those posted, and those at most rate times elapsed time. */
  lemma RateBound(w: World, es: seq<Event>, w': World, top: nat)
    requires Init(w) && Runs(w, es, w') && Slow(es, top)
    ensures Used(w'.limiters) + w'.q <= w'.posted
    ensures NANO * w'.posted <= top * (w'.last - w.start)
  {
    InitInv(w);
    RunInv(w, es, w');
    DueFromStart(w, es, w', top);
  }

  // ---------- what gets by ----------

  /** What has gone by and been paid for; a limiter that waits still owes the rest of what has gone by. */
  function Paid(l: Limiter): (n: int) {
    if l.kind != PerCall && l.bucket < 0 then Counted(l) + l.bucket else Counted(l)
  }

  /** A limiter at rest has been paid for all that has gone by; one that waits is short of just what it is waiting to pay. */
  lemma PaidShare(l: Limiter)
    requires Balanced(l)
    ensures 0 <= Paid(l) <= if l.kind == PerMegabyte then MB * l.used else l.used
    ensures l.events == 0 ==> Paid(l) == Counted(l)
    ensures l.kind != PerCall && l.events > 0 ==> Paid(l) == Worth(l.kind) * l.used == Counted(l) + l.bucket
  {
  }

  /** That, in bytes' worth of events. */
  function Share(l: Limiter): (n: int) {
    if l.kind == PerMegabyte then Paid(l) else MB * Paid(l)
  }

  lemma InBytes(a: nat, b: nat)
    requires a <= b
    ensures 0 <= MB * a <= MB * b
  {
  }

  lemma ShareIsPaidFor(l: Limiter)
    requires Balanced(l)
    ensures 0 <= Share(l) <= MB * l.used
  {
    PaidShare(l);
    if l.kind != PerMegabyte { InBytes(Paid(l), l.used); }
  }

  /** All the limiters, waiting or not. */
  function Passed(s: seq<Limiter>): (n: int) {
    if s == [] then 0 else Share(s[0]) + Passed(s[1..])
  }

  lemma {:induction false} PassedIsPaidFor(s: seq<Limiter>)
    requires AllBalanced(s)
    ensures 0 <= Passed(s) <= MB * Used(s)
  {
    if s != [] {
      PassedIsPaidFor(s[1..]);
      ShareIsPaidFor(s[0]);
    }
  }

  lemma Scale(p: int, u: nat, bound: nat)
    requires p <= MB * u && NANO * u <= bound
    ensures NANO * p <= MB * bound
  {
  }

  /** Under a rate of at most `top`, what all the limiters together have been paid for is no more than `top` a second. */
  lemma PaidRate(w: World, es: seq<Event>, w': World, top: nat)
    requires Init(w) && Runs(w, es, w') && Slow(es, top)
    ensures NANO * Passed(w'.limiters) <= MB * (top * (w'.last - w.start))
  {
    InitInv(w);
    RunInv(w, es, w');
    RateBound(w, es, w', top);
    PassedIsPaidFor(w'.limiters);
    Scale(Passed(w'.limiters), Used(w'.limiters), top * (w'.last - w.start));
  }
}
