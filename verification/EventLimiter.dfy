/** The generator thread and the limiting flowops as they update their fields and the shared queue. */
module EventLimiter {
  import opened EventTokens

  /** The shared queue with the clock of the generator thread. */
  class Generator {
    var enabled: bool
    var q: nat
    var last: nat

    constructor (now: nat)
      ensures !enabled && q == 0 && last == now
    {
      enabled, q, last := false, 0, now;
    }

    /** The generator's part of a world. */
    ghost predicate In(w: World)
      reads this
    {
      enabled == w.enabled && q == w.q && last == w.last
    }

    /** One turn of `eventgen_thread`; the clock is read at `now`, and again at `again`. */
    method Turn(rate: int, now: nat, again: nat, ghost w: World)
      requires In(w) && Enabled(w, Tick(rate, now, again))
      modifies this
      ensures In(Next(w, Tick(rate, now, again)))
    {
      if rate > 0 {
        enabled := true;
      } else {
        return;
      }
      var delta := now - last;
      last := again;
      var count := rate * delta / NANO;
      if q < 5 * rate {
        q := q + count;
      }
    }

    /** `eventgen_reset`. */
    method Clear(ghost w: World)
      requires In(w)
      modifies this`q
      ensures In(Next(w, Reset))
    {
      q := 0;
    }
  }

  class LimitFlowop {
    const kind: Kind
    var tputLast: nat
    var tputBucket: int
    ghost var events: nat
    ghost var base: nat
    ghost var used: nat

    constructor (kind: Kind)
      ensures View() == Limiter(kind, 0, 0, 0, 0, 0)
    {
      this.kind, tputLast, tputBucket, events, base, used := kind, 0, 0, 0, 0, 0;
    }

    ghost function View(): (l: Limiter)
      reads this
    {
      Limiter(kind, tputLast, tputBucket, events, base, used)
    }

    /** A limiter up to its wait loop: how many events it must take, none if it may go on. */
    method Reach(reading: nat) returns (need: nat)
      requires View().events == 0 && tputLast <= reading
      modifies this
      ensures View() == Enter(old(View()), reading) && need == events
      ensures kind == PerCall ==> need == 1 && View() == old(View()).(events := 1)
      ensures kind != PerCall ==> tputLast == reading && base == if old(tputLast) == 0 then reading else old(base)
      ensures kind != PerCall && old(tputLast) != 0 ==>
                tputBucket == old(tputBucket) - (reading - old(tputLast)) && (need == 0 <==> tputBucket >= 0)
    {
      events := Enter(View(), reading).events;
      if kind == PerCall {
        return 1;
      }
      if tputLast == 0 {
        tputLast, base := reading, reading;
        return 0;
      }
      var delta := reading - tputLast;
      tputBucket := tputBucket - delta;
      tputLast := reading;
      if tputBucket >= 0 {
        return 0;
      }
      var short := -tputBucket;
      need := if kind == PerMegabyte then short / MB + 1 else short;
    }

    /**
     The wait loop. `seen` is what the queue holds each time the lock is got, and `turn` the first time that is
     enough; the limiter is still waiting if it never is.
     */
    method Wait(need: nat, seen: seq<nat>) returns (turn: nat, left: nat)
      requires 0 < need == events && Balanced(View())
      modifies this
      ensures turn <= |seen| && forall i :: 0 <= i < turn ==> seen[i] < need
      ensures turn == |seen| ==> View() == old(View())
      ensures turn < |seen| ==> seen[turn] >= need && left == seen[turn] - need && View() == Grant(old(View()))
      ensures Balanced(View())
    {
      turn, left := 0, 0;
      GrantBalanced(View());
      while turn < |seen|
        invariant turn <= |seen| && View() == old(View())
        invariant forall i :: 0 <= i < turn ==> seen[i] < need
      {
        if seen[turn] >= need {
          left := seen[turn] - need;
          if kind == PerMegabyte {
            tputBucket := tputBucket + need * MB;
          } else if kind == PerOp {
            tputBucket := tputBucket + need;
          }
          used, events := used + need, 0;
          return;
        }
        turn := turn + 1;
      }
    }

    /** A whole call while the generator is enabled: on return the limiter owes nothing. */
    method Limit(reading: nat, seen: seq<nat>) returns (returned: bool)
      requires Balanced(View()) && events == 0 && tputLast <= reading
      modifies this
      ensures Balanced(View()) && (returned <==> events == 0)
      ensures kind == PerCall ==> used == old(used) + if returned then 1 else 0
      ensures kind != PerCall ==> tputLast == reading && base == if old(tputLast) == 0 then reading else old(base)
      ensures returned && kind != PerCall ==> reading - base <= Worth(kind) * used
      ensures returned && kind == PerOp ==> reading - base == used
      ensures returned && kind == PerMegabyte ==> 0 <= tputBucket <= MB
    {
      EnterBalanced(View(), reading);
      var need := Reach(reading);
      if need == 0 {
        returned := true;
      } else {
        var turn, left := Wait(need, seen);
        returned := turn < |seen|;
      }
      if returned { PaidFor(View()); }
    }
  }
}
