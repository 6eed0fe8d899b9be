/** The Thunderbolt baseline: multiplicative throttling, and recovery in steps of 5 at randomized intervals. */
module Thunderbolt {

  /**
   `user` and `critical` are the bandwidth caps and `userSet` and `criticalSet` what `cpu.max` was last given;
   `active` is `throttling_active_state` and `next` is `next_unthrottle_time`.
   */
  datatype State = State(user: real, critical: real, userSet: real, criticalSet: real, active: bool, next: real)

  /** Measured power, the budget, the clock, and the wait drawn if a cap is raised. */
  datatype Sample = Sample(actual: real, target: real, now: real, wait: real)

  ghost predicate Drawn(r: Sample) {
    1.0 <= r.wait <= 10.0
  }

  predicate OverLow(r: Sample) {
    r.actual > r.target * 0.96
  }

  predicate OverHigh(r: Sample) {
    r.actual > r.target * 0.98
  }

  function Active(s: State, r: Sample): (a: bool) {
    if OverLow(r) then true else if r.actual <= r.target * 0.90 then false else s.active
  }

  /** One cap cut down, given whether the flag for throttling is up. */
  function Cut(v: real, r: Sample, active: bool): (w: real) {
    var m := if OverHigh(r) then v * 0.01 else if OverLow(r) && active then v * 0.75 else v;
    if m < 1.0 then 1.0 else m
  }

  function Lift(v: real): (w: real) {
    if v + 5.0 < 100.0 then v + 5.0 else 100.0
  }

  /** What is written to `cpu.max`: nothing when the cap moved by no more than 0.01. */
  function Applied(was: real, before: real, after: real): (a: real) {
    if after - before > 0.01 || before - after > 0.01 then after else was
  }

  /** The caps and the timer after a sample. */
  function Decide(s: State, r: Sample, active: bool): (t: State) {
    if OverLow(r) then
      if s.user > 1.0 then s.(user := Cut(s.user, r, active))
      else if s.critical > 1.0 then s.(critical := Cut(s.critical, r, active))
      else s
    else if r.now >= s.next then
      if s.critical < 100.0 then s.(critical := Lift(s.critical), next := r.now + r.wait)
      else if s.user < 100.0 then s.(user := Lift(s.user), next := r.now + r.wait)
      else s
    else s
  }

  /** One turn of `run_power_capping_loop`. */
  function Turn(s: State, r: Sample): (t: State) {
    var active := Active(s, r);
    var d := Decide(s, r, active);
    d.(active := active, userSet := Applied(s.userSet, s.user, d.user), criticalSet := Applied(s.criticalSet, s.critical, d.critical))
  }

  // ---------- what every turn keeps ----------

  /** The cap in force is the cap, or within 0.01 of one that has just reached its end. */
  predicate Near(put: real, cap: real) {
    || put == cap
    || (cap == 1.0 && 1.0 < put <= 1.01)
    || (cap == 100.0 && 99.99 <= put < 100.0)
  }

  predicate Inv(s: State) {
    && 1.0 <= s.user <= 100.0 && 1.0 <= s.critical <= 100.0
    && (s.critical < 100.0 ==> s.user == 1.0)
    && Near(s.userSet, s.user) && Near(s.criticalSet, s.critical)
  }

  const START := State(100.0, 100.0, 100.0, 100.0, false, 0.0)

  lemma TurnKeeps(s: State, r: Sample)
    requires Inv(s)
    ensures Inv(Turn(s, r))
  {
  }

  /** Over 96% of the budget neither cap rises; at or under that neither falls. */
  lemma TurnMoves(s: State, r: Sample)
    requires Inv(s)
    ensures r.actual > r.target * 0.96 ==>
              Turn(s, r).user <= s.user && Turn(s, r).critical <= s.critical && Turn(s, r).next == s.next
    ensures r.actual <= r.target * 0.96 ==> Turn(s, r).user >= s.user && Turn(s, r).critical >= s.critical
  {
  }

  function Top(a: real, b: real): (r: real) { if a < b then b else a }

  /** The group to be throttled left with `part` of its cap, but not below 1: the user group, until that is at 1. */
  predicate Throttled(s: State, t: State, part: real) {
    && t.next == s.next
    && if s.user > 1.0 then t.user == Top(1.0, part * s.user) && t.critical == s.critical
       else t.user == s.user && t.critical == Top(1.0, part * s.critical)
  }

  /** The group to be restored given 5 more, or what it lacks of 100: the critical group, until that is at 100. */
  predicate Restored(s: State, t: State) {
    if s.critical < 100.0 then t.user == s.user && t.critical == 100.0 - Top(0.0, 95.0 - s.critical)
    else t.critical == s.critical && t.user == 100.0 - Top(0.0, 95.0 - s.user)
  }

  /**
   Just how far: over 98% of the budget to a hundredth, over 96% to three quarters; at or under 96% up by 5 if the
   timer has run out, and the timer is then set to the time drawn if there was something to restore.
   */
  lemma TurnMovesBy(s: State, r: Sample)
    requires Inv(s)
    ensures var t := Turn(s, r);
            if r.actual > r.target * 0.96 then
              Throttled(s, t, if r.actual > r.target * 0.98 then 0.01 else 0.75)
            else if r.now < s.next then
              t.user == s.user && t.critical == s.critical && t.next == s.next
            else
              Restored(s, t) && t.next == if s.critical == s.user == 100.0 then s.next else r.now + r.wait
  {
  }

  /** `cpu.max` is written exactly when a cap moved by more than 0.01; the flag goes up over 96% and down at 90%. */
  lemma TurnWrites(s: State, r: Sample)
    ensures var t := Turn(s, r);
            && t.userSet == (if s.user - 0.01 <= t.user <= s.user + 0.01 then s.userSet else t.user)
            && t.criticalSet == (if s.critical - 0.01 <= t.critical <= s.critical + 0.01 then s.criticalSet else t.critical)
            && (r.actual > r.target * 0.96 ==> t.active)
            && (r.actual <= r.target * 0.96 && r.actual <= r.target * 0.90 ==> !t.active)
            && (r.target * 0.90 < r.actual <= r.target * 0.96 ==> t.active == s.active)
  {
  }

  /** The flag, and so its hysteresis, never makes a difference to a cap or to the timer. */
  lemma FlagIdle(s: State, r: Sample, b: bool)
    ensures Turn(s.(active := b), r).(active := s.active) == Turn(s, r).(active := s.active)
  {
  }

  // ---------- runs ----------

  function Run(s: State, rs: seq<Sample>): (t: State)
    decreases |rs|
  {
    if rs == [] then s else Run(Turn(s, rs[0]), rs[1..])
  }

  lemma {:induction false} RunSplit(s: State, a: seq<Sample>, b: seq<Sample>)
    ensures Run(s, a + b) == Run(Run(s, a), b)
    decreases |a|
  {
    if a == [] {
      assert a + b == b;
    } else {
      assert (a + b)[1..] == a[1..] + b;
      RunSplit(Turn(s, a[0]), a[1..], b);
    }
  }

  /** In every run both caps stay in 1..100, with the critical cap below 100 only while the user cap is exactly 1. */
  lemma {:induction false} RunKeeps(s: State, rs: seq<Sample>)
    requires Inv(s)
    ensures Inv(Run(s, rs))
    decreases |rs|
  {
    if rs != [] {
      TurnKeeps(s, rs[0]);
      RunKeeps(Turn(s, rs[0]), rs[1..]);
    }
  }

  // ---------- the way down ----------

  ghost predicate AllOver(rs: seq<Sample>) {
    forall i :: 0 <= i < |rs| ==> OverLow(rs[i])
  }

  /** 100 after `k` cuts by a quarter. */
  function Left(k: nat): (p: real) {
    if k == 0 then 100.0 else 0.75 * Left(k - 1)
  }

  lemma SixteenLeft()
    ensures Left(16) > 1.0 && Left(17) < 1.0
  {
    assert Left(4) == 31.640625;
    assert Left(8) == 10.01129150390625;
    assert Left(12) == 3.1676352024078369140625;
  }

  lemma {:induction false} LeftFalls(i: nat, j: nat)
    requires i <= j
    ensures 0.0 < Left(j) <= Left(i)
  {
    if j > 0 {
      LeftFalls(if i < j then i else i - 1, j - 1);
    }
  }

  /** A cut takes at least a quarter, or down to 1. */
  lemma CutTakesQuarter(v: real, r: Sample)
    requires 1.0 <= v && OverLow(r)
    ensures 1.0 <= Cut(v, r, true) <= Top(1.0, 0.75 * v)
  {
  }

  lemma {:induction false} UserFalls(s: State, rs: seq<Sample>, j: nat)
    requires Inv(s) && AllOver(rs) && s.user <= Top(1.0, Left(j))
    ensures Inv(Run(s, rs)) && Run(s, rs).user <= Top(1.0, Left(j + |rs|))
    decreases |rs|
  {
    if rs != [] {
      TurnKeeps(s, rs[0]);
      CutTakesQuarter(s.user, rs[0]);
      UserFalls(Turn(s, rs[0]), rs[1..], j + 1);
    }
  }

  lemma {:induction false} CriticalFalls(s: State, rs: seq<Sample>, j: nat)
    requires Inv(s) && AllOver(rs) && s.user == 1.0 && s.critical <= Top(1.0, Left(j))
    ensures Inv(Run(s, rs)) && Run(s, rs).user == 1.0 && Run(s, rs).critical <= Top(1.0, Left(j + |rs|))
    decreases |rs|
  {
    if rs != [] {
      TurnKeeps(s, rs[0]);
      CutTakesQuarter(s.critical, rs[0]);
      CriticalFalls(Turn(s, rs[0]), rs[1..], j + 1);
    }
  }

  /** Any 34 samples in a row over the low threshold, hard or soft, bring both caps to 1. */
  lemma ThirtyFour(s: State, rs: seq<Sample>)
    requires Inv(s) && AllOver(rs) && |rs| == 34
    ensures Run(s, rs).user == Run(s, rs).critical == 1.0
  {
    var a, b := rs[..17], rs[17..];
    assert rs == a + b;
    RunSplit(s, a, b);
    SixteenLeft();
    UserFalls(s, a, 0);
    CriticalFalls(Run(s, a), b, 0);
  }

  /** Two hard samples are enough. */
  lemma TwoHard(s: State, r: Sample, q: Sample)
    requires Inv(s) && OverLow(r) && OverHigh(r) && OverLow(q) && OverHigh(q)
    ensures Run(s, [r, q]).user == Run(s, [r, q]).critical == 1.0
  {
    assert [r, q][1..] == [q] && [q][1..] == [];
    assert Run(Turn(s, r), [q]) == Run(Turn(Turn(s, r), q), []);
    TurnKeeps(s, r);
  }

  ghost predicate AllSoft(rs: seq<Sample>) {
    forall i :: 0 <= i < |rs| ==> OverLow(rs[i]) && !OverHigh(rs[i])
  }

  lemma {:induction false} SoftUser(s: State, rs: seq<Sample>, j: nat)
    requires Inv(s) && AllSoft(rs) && s.user == Left(j) && Left(j + |rs|) > 1.0
    ensures Inv(Run(s, rs)) && Run(s, rs).user == Left(j + |rs|) && Run(s, rs).critical == s.critical
    decreases |rs|
  {
    if rs != [] {
      TurnKeeps(s, rs[0]);
      LeftFalls(j + 1, j + |rs|);
      SoftUser(Turn(s, rs[0]), rs[1..], j + 1);
    }
  }

  lemma {:induction false} SoftCritical(s: State, rs: seq<Sample>, j: nat)
    requires Inv(s) && AllSoft(rs) && s.user == 1.0 && s.critical == Left(j) && Left(j + |rs|) > 1.0
    ensures Inv(Run(s, rs)) && Run(s, rs).critical == Left(j + |rs|)
    decreases |rs|
  {
    if rs != [] {
      TurnKeeps(s, rs[0]);
      LeftFalls(j + 1, j + |rs|);
      SoftCritical(Turn(s, rs[0]), rs[1..], j + 1);
    }
  }

  /** No fewer will do: after 33 soft samples from full bandwidth the critical cap is still above 1. */
  lemma ThirtyThree(s: State, rs: seq<Sample>)
    requires Inv(s) && s.user == s.critical == 100.0 && AllSoft(rs) && |rs| == 33
    ensures Run(s, rs).critical > 1.0
  {
    var a, m, b := rs[..16], rs[16], rs[17..];
    assert rs == a + ([m] + b);
    RunSplit(s, a, [m] + b);
    SixteenLeft();
    SoftUser(s, a, 0);
    var t := Run(s, a);
    TurnKeeps(t, m);
    assert ([m] + b)[1..] == b && Left(17) == 0.75 * Left(16);
    SoftCritical(Turn(t, m), b, 0);
  }

  // ---------- the way up ----------

  /** The sample raises a cap. */
  predicate Raises(s: State, r: Sample) {
    !OverLow(r) && r.now >= s.next && (s.critical < 100.0 || s.user < 100.0)
  }

  ghost predicate AllDrawn(rs: seq<Sample>) {
    forall i :: 0 <= i < |rs| ==> Drawn(rs[i])
  }

  function RaiseCount(s: State, rs: seq<Sample>): (n: nat)
    decreases |rs|
  {
    if rs == [] then 0 else (if Raises(s, rs[0]) then 1 else 0) + RaiseCount(Turn(s, rs[0]), rs[1..])
  }

  /** Every raise puts the next one off by at least a second, and gains at most 5. */
  lemma {:induction false} RaisesTakeTime(s: State, rs: seq<Sample>)
    requires Inv(s) && AllDrawn(rs)
    ensures var t := Run(s, rs); var n := RaiseCount(s, rs) as real;
            t.next >= s.next + n && t.user + t.critical <= s.user + s.critical + 5.0 * n
    decreases |rs|
  {
    if rs != [] {
      TurnKeeps(s, rs[0]);
      TurnMoves(s, rs[0]);
      RaisesTakeTime(Turn(s, rs[0]), rs[1..]);
    }
  }

  ghost predicate NoneOver(rs: seq<Sample>) {
    forall i :: 0 <= i < |rs| ==> !OverLow(rs[i])
  }

  lemma {:induction false} RaisesEnough(s: State, rs: seq<Sample>, a: nat, b: nat)
    requires Inv(s) && NoneOver(rs) && s.critical + 5.0 * a as real >= 100.0 && s.user + 5.0 * b as real >= 100.0
    ensures RaiseCount(s, rs) >= a + b ==> Run(s, rs).user == Run(s, rs).critical == 100.0
    decreases |rs|
  {
    if rs != [] {
      TurnKeeps(s, rs[0]);
      var t := Turn(s, rs[0]);
      if Raises(s, rs[0]) {
        if s.critical < 100.0 {
          RaisesEnough(t, rs[1..], a - 1, b);
        } else {
          RaisesEnough(t, rs[1..], a, b - 1);
        }
      } else {
        RaisesEnough(t, rs[1..], a, b);
      }
    }
  }

  /** 40 raises without a throttle in between always restore full bandwidth. */
  lemma FortyRaises(s: State, rs: seq<Sample>)
    requires Inv(s) && NoneOver(rs) && RaiseCount(s, rs) >= 40
    ensures Run(s, rs).user == Run(s, rs).critical == 100.0
  {
    RaisesEnough(s, rs, 20, 20);
  }

  /** Two raises in a run, whatever comes between them, are at least a second apart. */
  lemma RaisesApart(s: State, first: Sample, between: seq<Sample>, second: Sample)
    requires Inv(s) && Drawn(first) && AllDrawn(between)
    requires Raises(s, first) && Raises(Run(Turn(s, first), between), second)
    ensures second.now >= first.now + 1.0
  {
    TurnKeeps(s, first);
    RaisesTakeTime(Turn(s, first), between);
  }

  lemma {:induction false} TimerRests(s: State, rs: seq<Sample>)
    requires RaiseCount(s, rs) == 0
    ensures Run(s, rs).next == s.next
    decreases |rs|
  {
    if rs != [] { TimerRests(Turn(s, rs[0]), rs[1..]); }
  }

  /** Nor is a raise put off longer than ten: ten seconds after the last one, the next sample with room for it raises a cap. */
  lemma RaisesReturn(s: State, first: Sample, between: seq<Sample>, second: Sample)
    requires Inv(s) && Drawn(first) && Raises(s, first) && RaiseCount(Turn(s, first), between) == 0
    requires second.now >= first.now + 10.0 && second.actual <= second.target * 0.96
    ensures var t := Run(Turn(s, first), between); var u := Turn(t, second);
            (t.user < 100.0 || t.critical < 100.0) ==> Raises(t, second) && u.user + u.critical > t.user + t.critical
  {
    TurnKeeps(s, first);
    RunKeeps(Turn(s, first), between);
    TimerRests(Turn(s, first), between);
  }

  /** From both caps at 1, full bandwidth takes at least 40 raises, which move the timer by at least 40 seconds. */
  lemma RecoveryTakesForty(s: State, rs: seq<Sample>)
    requires Inv(s) && AllDrawn(rs) && s.user == s.critical == 1.0
    requires Run(s, rs).user == Run(s, rs).critical == 100.0
    ensures RaiseCount(s, rs) >= 40 && Run(s, rs).next >= s.next + 40.0
  {
    RaisesTakeTime(s, rs);
  }
}
