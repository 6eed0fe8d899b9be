/**
 The PIP power-cap controller: two bandwidth caps driven by measured power, a budget and a power model. The model's
 answers are arbitrary, and may differ from one sample to the next.
 */
module PipControl {

  /** `full_mode`, `current_bandwidth` and `current_bandwidth2`. */
  datatype Caps = Caps(full: bool, user: int, critical: int)

  /** Which search asks the model about a cap. */
  datatype Search = LowerUser | LowerCritical | RaiseUser | RaiseCritical

  /**
   One sample: the measured power, the budget, whether the model finds a candidate cap good enough, and what is
   read back from `cpu.max` after a cap is written there.
   */
  datatype Sample = Sample(actual: real, target: int, fits: (Search, int) -> bool, back: int -> int)

  /** Reading back gives the cap written, or one rounded down, but not below the least. */
  ghost predicate ReadsBack(r: Sample) {
    forall t :: 1 <= t <= 100 ==> 1 <= r.back(t) <= t
  }

  // ---------- searching for a cap ----------

  /** The first of `from`, `from - 5`, ... above `floor` that the model accepts; `floor` if there is none. */
  function FirstFit(fits: int -> bool, from: int, floor: int): (r: int)
    decreases from - floor
  {
    if from <= floor then floor else if fits(from) then from else FirstFit(fits, from - 5, floor)
  }

  /** A candidate of that search. */
  predicate Candidate(from: int, floor: int, t: int) {
    floor < t <= from && (from - t) % 5 == 0
  }

  /** It is the greatest candidate the model accepts, and `floor` exactly when it accepts none. */
  lemma {:induction false} FirstFitGreatest(fits: int -> bool, from: int, floor: int)
    ensures var r := FirstFit(fits, from, floor);
            && (r != floor ==> Candidate(from, floor, r) && fits(r))
            && (forall t :: Candidate(from, floor, t) && fits(t) ==> t <= r)
            && (r == floor <==> forall t :: Candidate(from, floor, t) ==> !fits(t))
    decreases from - floor
  {
    if from > floor && !fits(from) {
      FirstFitGreatest(fits, from - 5, floor);
      forall t | Candidate(from, floor, t) ensures t == from || Candidate(from - 5, floor, t) {
      }
    }
  }

  lemma {:induction false} FirstFitBounds(fits: int -> bool, from: int, floor: int)
    ensures floor <= FirstFit(fits, from, floor) && (floor < from ==> FirstFit(fits, from, floor) <= from)
    decreases from - floor
  {
    if from > floor { FirstFitBounds(fits, from - 5, floor); }
  }

  // ---------- one sample ----------

  function Max(a: int, b: int): (r: int) { if a < b then b else a }

  function Min(a: int, b: int): (r: int) { if a < b then a else b }

  predicate Above(r: Sample) {
    r.actual >= r.target as real * 0.97
  }

  predicate Below(r: Sample) {
    r.actual < r.target as real * 0.94
  }

  /** A violation, if any, of less than the tolerance of 5 W. */
  predicate Small(r: Sample) {
    r.actual - r.target as real < 5.0
  }

  /** `strict_power_capping`. */
  function Strict(c: Caps, r: Sample): (c': Caps) {
    if Small(r) then
      var step := if r.actual < r.target as real then 5 else 10;
      if c.user > 1 then c.(user := Max(c.user - step, 1))
      else if c.critical > 1 then c.(critical := Max(c.critical - step, 1))
      else c
    else
      var t := if c.user > 5 then FirstFit(x => r.fits(LowerUser, x), c.user - 5, 0) else 0;
      if t > 0 then c.(user := t)
      else c.(user := 1, critical := r.back(Max(FirstFit(x => r.fits(LowerCritical, x), c.critical, 0), 1)))
  }

  /** The next cap on the way up. */
  function Raised(v: int, gap: real, fits: int -> bool): (r: int) {
    var t := FirstFit(fits, 100, v);
    Min(if gap < 10.0 then v + 1 else if t == v || v < 10 then Min(v + 5, 100) else t, 100)
  }

  /** `increase_bandwidth`. */
  function Increase(c: Caps, r: Sample): (c': Caps) {
    var gap := r.target as real - r.actual;
    if c.critical < 100 then c.(user := r.back(1), critical := Raised(c.critical, gap, x => r.fits(RaiseCritical, x)))
    else if c.user < 100 then c.(user := Raised(c.user, gap, x => r.fits(RaiseUser, x)))
    else c
  }

  /** One turn of the loop of `run_stress_test`. */
  function Turn(c: Caps, r: Sample): (c': Caps) {
    if !c.full then c.(full := Above(r))
    else if Above(r) then Strict(c, r)
    else if Below(r) then Increase(c, r)
    else c
  }

  // ---------- what every turn keeps ----------

  /** Both caps are percentages, and the critical group is capped only once the user group is at the bottom. */
  predicate Inv(c: Caps) {
    1 <= c.user <= 100 && 1 <= c.critical <= 100 && (c.critical < 100 ==> c.user == 1)
  }

  lemma RaisedBounds(v: int, gap: real, fits: int -> bool)
    requires 1 <= v < 100
    ensures v < Raised(v, gap, fits) <= 100
  {
    FirstFitBounds(fits, 100, v);
  }

  lemma TurnKeeps(c: Caps, r: Sample)
    requires Inv(c) && ReadsBack(r)
    ensures Inv(Turn(c, r))
  {
    StrictLowers(c, r);
    IncreaseRaises(c, r);
  }

  /** Capping never raises a cap, and keeps the priority. */
  lemma StrictLowers(c: Caps, r: Sample)
    requires Inv(c) && ReadsBack(r)
    ensures var c' := Strict(c, r); Inv(c') && c'.user <= c.user && c'.critical <= c.critical && c'.full == c.full
  {
    if !Small(r) {
      if c.user > 5 { FirstFitBounds(x => r.fits(LowerUser, x), c.user - 5, 0); }
      FirstFitBounds(x => r.fits(LowerCritical, x), c.critical, 0);
    }
  }

  /** The greatest cap the model accepts for the critical group, not above the one it has; 1 if it accepts none. */
  ghost predicate CriticalPick(c: Caps, r: Sample, x: int) {
    && (x == 1 || (Candidate(c.critical, 0, x) && r.fits(LowerCritical, x)))
    && forall t :: Candidate(c.critical, 0, t) && r.fits(LowerCritical, t) ==> t <= x
  }

  /**
   A violation of 5 W or more picks caps by the model: the greatest accepted one at least 5 below the user cap; if
   there is none, 1 for the user group and, as read back, the greatest accepted one, or 1, for the critical group.
   */
  lemma StrictPicks(c: Caps, r: Sample)
    requires Inv(c) && !Small(r)
    ensures var c' := Strict(c, r);
            if exists t :: c.user > 5 && Candidate(c.user - 5, 0, t) && r.fits(LowerUser, t) then
              && c'.critical == c.critical && Candidate(c.user - 5, 0, c'.user) && r.fits(LowerUser, c'.user)
              && forall t :: Candidate(c.user - 5, 0, t) && r.fits(LowerUser, t) ==> t <= c'.user
            else
              c'.user == 1 && exists x :: CriticalPick(c, r, x) && c'.critical == r.back(x)
  {
    FirstFitGreatest(x => r.fits(LowerUser, x), c.user - 5, 0);
    FirstFitBounds(x => r.fits(LowerUser, x), c.user - 5, 0);
    FirstFitGreatest(x => r.fits(LowerCritical, x), c.critical, 0);
    FirstFitBounds(x => r.fits(LowerCritical, x), c.critical, 0);
    assert CriticalPick(c, r, Max(FirstFit(x => r.fits(LowerCritical, x), c.critical, 0), 1));
  }

  /** A gap of 10 W or more raises a cap to the greatest one the model accepts; by 5 from below 10, or if there is none. */
  lemma RaisedPicks(v: int, gap: real, fits: int -> bool)
    requires 1 <= v < 100 && gap >= 10.0
    ensures var n := Raised(v, gap, fits);
            if v >= 10 && exists t :: Candidate(100, v, t) && fits(t) then
              Candidate(100, v, n) && fits(n) && forall t :: Candidate(100, v, t) && fits(t) ==> t <= n
            else
              n == Min(v + 5, 100)
  {
    FirstFitGreatest(fits, 100, v);
    FirstFitBounds(fits, 100, v);
  }

  /** The cap a large gap gives, by the model's answers to search `q`. */
  ghost predicate Picked(r: Sample, q: Search, v: int, n: int) {
    if v >= 10 && exists t :: Candidate(100, v, t) && r.fits(q, t) then
      Candidate(100, v, n) && r.fits(q, n) && forall t :: Candidate(100, v, t) && r.fits(q, t) ==> t <= n
    else
      n == Min(v + 5, 100)
  }

  /** Recovery from a gap of 10 W or more: the critical group first, by its model, and then the user group by its own. */
  lemma IncreasePicks(c: Caps, r: Sample)
    requires Inv(c) && ReadsBack(r) && r.target as real - r.actual >= 10.0
    ensures var c' := Increase(c, r);
            if c.critical < 100 then Picked(r, RaiseCritical, c.critical, c'.critical) && c'.user == c.user
            else if c.user < 100 then Picked(r, RaiseUser, c.user, c'.user) && c'.critical == c.critical
            else c' == c
  {
    var gap := r.target as real - r.actual;
    if c.critical < 100 {
      RaisedPicks(c.critical, gap, x => r.fits(RaiseCritical, x));
    } else if c.user < 100 {
      RaisedPicks(c.user, gap, x => r.fits(RaiseUser, x));
    }
  }

  /** Recovery lowers neither cap, and raises their sum until both are full. */
  lemma IncreaseRaises(c: Caps, r: Sample)
    requires Inv(c) && ReadsBack(r)
    ensures var c' := Increase(c, r);
            && Inv(c') && c'.user >= c.user && c'.critical >= c.critical && c'.full == c.full
            && (c'.user + c'.critical > c.user + c.critical || (c.user == c.critical == 100 && c' == c))
  {
    var gap := r.target as real - r.actual;
    if c.critical < 100 {
      RaisedBounds(c.critical, gap, x => r.fits(RaiseCritical, x));
      assert r.back(1) == 1;
    } else if c.user < 100 {
      RaisedBounds(c.user, gap, x => r.fits(RaiseUser, x));
    }
  }
}
