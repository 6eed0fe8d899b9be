/** What the PIP controller guarantees over whole runs, whatever is measured and whatever the model answers. */
module PipRuns {
  import opened PipControl

  /** A turn in which the budget or the power could not be read does nothing. */
  datatype Event = Missed | Got(sample: Sample)

  function Next(c: Caps, e: Event): (c': Caps) {
    match e
    case Missed => c
    case Got(r) => Turn(c, r)
  }

  function Run(c: Caps, es: seq<Event>): (c': Caps)
    decreases |es|
  {
    if es == [] then c else Run(Next(c, es[0]), es[1..])
  }

  ghost predicate AllReadBack(es: seq<Event>) {
    forall i :: 0 <= i < |es| && es[i].Got? ==> ReadsBack(es[i].sample)
  }

  const START := Caps(false, 100, 100)

  /** In every run both caps stay between 1 and 100, and the critical cap is below 100 only while the user cap is 1. */
  lemma {:induction false} RunKeeps(c: Caps, es: seq<Event>)
    requires Inv(c) && AllReadBack(es)
    ensures Inv(Run(c, es)) && (c.full ==> Run(c, es).full)
    decreases |es|
  {
    if es != [] {
      if es[0].Got? {
        TurnKeeps(c, es[0].sample);
        StrictLowers(c, es[0].sample);
        IncreaseRaises(c, es[0].sample);
      }
      RunKeeps(Next(c, es[0]), es[1..]);
    }
  }

  /** No cap is touched before power first comes within 3% of the budget; from then on the mode is full for good. */
  lemma {:induction false} NothingUntilNearBudget(es: seq<Event>)
    ensures !Run(START, es).full <==> forall i :: 0 <= i < |es| && es[i].Got? ==> !Above(es[i].sample)
    ensures !Run(START, es).full ==> Run(START, es) == START
    decreases |es|
  {
    if es != [] {
      if es[0].Got? && Above(es[0].sample) {
        StaysFull(Next(START, es[0]), es[1..]);
      } else {
        assert Next(START, es[0]) == START;
        NothingUntilNearBudget(es[1..]);
        assert forall i :: 0 < i < |es| ==> es[i] == es[1..][i - 1];
      }
    }
  }

  lemma {:induction false} StaysFull(c: Caps, es: seq<Event>)
    requires c.full
    ensures Run(c, es).full
    decreases |es|
  {
    if es != [] { StaysFull(Next(c, es[0]), es[1..]); }
  }

  // ---------- the way up ----------

  ghost predicate AllBelow(es: seq<Event>) {
    forall i :: 0 <= i < |es| ==> es[i].Got? && ReadsBack(es[i].sample) && !Above(es[i].sample) && Below(es[i].sample)
  }

  /** Every sample below the band adds at least one percent until both caps are full: 198 samples always do. */
  lemma {:induction false} Recovers(c: Caps, es: seq<Event>)
    requires Inv(c) && c.full && AllBelow(es)
    ensures var c' := Run(c, es); Inv(c') && c'.user + c'.critical >= Min(c.user + c.critical + |es|, 200)
    ensures |es| >= 198 ==> Run(c, es).user == Run(c, es).critical == 100
    decreases |es|
  {
    if es != [] {
      IncreaseRaises(c, es[0].sample);
      Recovers(Next(c, es[0]), es[1..]);
    }
  }

  /** 197 may not: when the gap to the budget stays under 10 W each sample adds just one percent. */
  lemma {:induction false} RecoversSlowly(c: Caps, es: seq<Event>)
    requires Inv(c) && c.full && AllBelow(es) && c.user + c.critical + |es| <= 200
    requires forall i :: 0 <= i < |es| ==> es[i].sample.target as real - es[i].sample.actual < 10.0
    ensures var c' := Run(c, es); Inv(c') && c'.user + c'.critical == c.user + c.critical + |es|
    decreases |es|
  {
    if es != [] {
      IncreaseRaises(c, es[0].sample);
      assert es[0].sample.back(1) == 1;
      RecoversSlowly(Next(c, es[0]), es[1..]);
    }
  }

  // ---------- the way down ----------

  ghost predicate AllAbove(es: seq<Event>) {
    forall i :: 0 <= i < |es| ==> es[i].Got? && ReadsBack(es[i].sample) && Above(es[i].sample)
  }

  /** A violation of any size takes at least 5 off the user cap, or takes it to 1. */
  lemma StrictTakesFive(c: Caps, r: Sample)
    requires Inv(c) && ReadsBack(r)
    ensures Strict(c, r).user <= Max(c.user - 5, 1)
  {
    if !Small(r) && c.user > 5 { FirstFitBounds(x => r.fits(LowerUser, x), c.user - 5, 0); }
  }

  /** So any 20 samples in a row at the budget leave the user group at 1. */
  lemma {:induction false} UserFloor(c: Caps, es: seq<Event>)
    requires Inv(c) && c.full && AllAbove(es)
    ensures Inv(Run(c, es)) && Run(c, es).user <= Max(c.user - 5 * |es|, 1)
    ensures |es| >= 20 ==> Run(c, es).user == 1
    decreases |es|
  {
    if es != [] {
      StrictLowers(c, es[0].sample);
      StrictTakesFive(c, es[0].sample);
      UserFloor(Next(c, es[0]), es[1..]);
    }
  }

  /**
   A violation of less than 5 W takes 5 when power is under the budget and 10 when it is not, or as much as there is
   down to 1: from the user group, and from the critical group once that is at 1.
   */
  lemma SmallTakes(c: Caps, r: Sample)
    requires Inv(c) && c.full && r.target as real * 0.97 <= r.actual < r.target as real + 5.0
    ensures var step := if r.actual < r.target as real then 5 else 10;
            Turn(c, r) == if c.user > 1 then c.(user := c.user - Min(step, c.user - 1))
                          else c.(critical := c.critical - Min(step, c.critical - 1))
  {
  }

  /** How many small violations away from the bottom. */
  function Steps(c: Caps): (n: int) {
    (c.user + 3) / 5 + (c.critical + 3) / 5
  }

  lemma SmallStep(c: Caps, r: Sample)
    requires Inv(c) && ReadsBack(r) && Small(r)
    ensures Steps(Strict(c, r)) <= Max(Steps(c) - 1, 0)
  {
  }

  /** Any 40 small violations in a row bring both groups to 1. */
  lemma {:induction false} SmallViolations(c: Caps, es: seq<Event>)
    requires Inv(c) && c.full && AllAbove(es) && forall i :: 0 <= i < |es| ==> Small(es[i].sample)
    ensures Inv(Run(c, es)) && Steps(Run(c, es)) <= Max(Steps(c) - |es|, 0)
    ensures |es| >= 40 ==> Run(c, es).user == Run(c, es).critical == 1
    decreases |es|
  {
    if es != [] {
      StrictLowers(c, es[0].sample);
      SmallStep(c, es[0].sample);
      SmallViolations(Next(c, es[0]), es[1..]);
    }
  }

  /** At or over the budget each takes 10, and from 100 and 100 it takes just 20. */
  lemma {:induction false} SmallOverBudget(c: Caps, es: seq<Event>)
    requires Inv(c) && c.full && AllAbove(es)
    requires forall i :: 0 <= i < |es| ==> Small(es[i].sample) && es[i].sample.actual >= es[i].sample.target as real
    ensures Inv(Run(c, es)) && TenSteps(Run(c, es)) == Max(TenSteps(c) - |es|, 0)
    ensures |es| >= TenSteps(c) <==> Run(c, es).user == Run(c, es).critical == 1
    ensures |es| >= 20 ==> Run(c, es).user == Run(c, es).critical == 1
    decreases |es|
  {
    if es != [] {
      StrictLowers(c, es[0].sample);
      SmallOverBudget(Next(c, es[0]), es[1..]);
    }
  }

  function TenSteps(c: Caps): (n: int) {
    (c.user + 8) / 10 + (c.critical + 8) / 10
  }

  /** Fewer than 40 do not always: while power stays just under the budget each takes only 5. */
  lemma {:induction false} NoFewer(c: Caps, es: seq<Event>)
    requires Inv(c) && c.full && AllAbove(es)
    requires forall i :: 0 <= i < |es| ==> es[i].sample.actual < es[i].sample.target as real
    ensures Inv(Run(c, es)) && Steps(Run(c, es)) == Max(Steps(c) - |es|, 0)
    ensures |es| >= Steps(c) <==> Run(c, es).user == Run(c, es).critical == 1
    decreases |es|
  {
    if es != [] {
      StrictLowers(c, es[0].sample);
      NoFewer(Next(c, es[0]), es[1..]);
    }
  }

  /** The model accepts the critical cap there is, and writing it again reads back the same. */
  predicate Content(c: Caps, r: Sample) {
    c.critical == 1 || (r.fits(LowerCritical, c.critical) && r.back(c.critical) == c.critical)
  }

  /**
   A violation of 5 W or more is different once the user group is at 1: it changes nothing when the model accepts
   the critical cap there is and writing that again does not round it down; otherwise the critical cap falls.
   */
  lemma LargeViolation(c: Caps, r: Sample)
    requires Inv(c) && c.user == 1 && !Small(r) && ReadsBack(r)
    ensures Strict(c, r) == c <==> Content(c, r)
    ensures Strict(c, r).critical < c.critical <==> !Content(c, r)
  {
    FirstFitBounds(x => r.fits(LowerCritical, x), c.critical - 5, 0);
  }

  /** Over the budget the critical cap never rises. */
  lemma {:induction false} NeverRises(c: Caps, es: seq<Event>)
    requires Inv(c) && c.full && AllAbove(es)
    ensures Run(c, es).critical <= c.critical
    decreases |es|
  {
    if es != [] {
      StrictLowers(c, es[0].sample);
      NeverRises(Next(c, es[0]), es[1..]);
    }
  }

  /** So a run of such samples, however long, leaves the caps alone exactly when that is so at every one of them. */
  lemma {:induction false} LargeViolations(c: Caps, es: seq<Event>)
    requires Inv(c) && c.full && c.user == 1 && AllAbove(es) && forall i :: 0 <= i < |es| ==> !Small(es[i].sample)
    ensures Run(c, es) == c <==> forall i :: 0 <= i < |es| ==> Content(c, es[i].sample)
    ensures Run(c, es) != c ==> Run(c, es).critical < c.critical
    decreases |es|
  {
    if es != [] {
      var next, rest := Next(c, es[0]), es[1..];
      LargeViolation(c, es[0].sample);
      if next == c {
        LargeViolations(c, rest);
        assert forall i :: 0 < i < |es| ==> es[i] == rest[i - 1];
      } else {
        StrictLowers(c, es[0].sample);
        NeverRises(next, rest);
      }
    }
  }

  // ---------- staying put ----------

  /** Within the band: less than 3% but not 6% under the budget. */
  predicate InBand(r: Sample) {
    r.target as real * 0.94 <= r.actual < r.target as real * 0.97
  }

  /**
   A sample leaves full mode just as it is in three cases only: power is in the band; it is above and nothing is left
   to take, or the violation is large and the model content; or it is below and both caps are full.
   */
  lemma LeftAlone(c: Caps, r: Sample)
    requires Inv(c) && ReadsBack(r) && c.full
    ensures Turn(c, r) == c <==>
            if r.actual >= r.target as real * 0.97 then
              c.user == 1 && if r.actual - r.target as real < 5.0 then c.critical == 1 else Content(c, r)
            else
              InBand(r) || c.user == c.critical == 100
  {
    StrictTakesFive(c, r);
    if !Small(r) && c.user == 1 { LargeViolation(c, r); }
    IncreaseRaises(c, r);
  }

  /** So samples in the band and samples missed, however many, change nothing. */
  lemma {:induction false} BandHolds(c: Caps, es: seq<Event>)
    requires c.full && forall i :: 0 <= i < |es| && es[i].Got? ==> InBand(es[i].sample)
    ensures Run(c, es) == c
    decreases |es|
  {
    if es != [] { BandHolds(c, es[1..]); }
  }

  // ---------- writing and reading a cap ----------

  function Quota(cores: nat, cap: nat): (q: nat) {
    100000 * cores * cap / 100
  }

  function ReadCap(cores: nat, quota: nat): (cap: int)
    requires cores > 0
  {
    quota * 100 / (100000 * cores)
  }

  lemma QuotaValue(cores: nat, cap: nat)
    ensures Quota(cores, cap) == 1000 * (cores * cap)
  {
    assert 100000 * cores * cap == 100 * (1000 * (cores * cap));
  }

  lemma NoMultiple(d: nat, k: int, r: nat)
    requires d * k == r < d
    ensures k == 0
  {
  }

  lemma Divides(d: nat, n: int, x: int)
    requires d > 0 && x == d * n
    ensures x / d == n
  {
    var q, r := x / d, x % d;
    assert x == d * q + r;
    assert d * (n - q) == d * n - d * q;
    NoMultiple(d, n - q, r);
  }

  /** Without rounding, the cap read back from `cpu.max` is the cap that was set. */
  lemma CapRoundTrip(cores: nat, cap: nat)
    requires cores > 0
    ensures ReadCap(cores, Quota(cores, cap)) == cap
  {
    QuotaValue(cores, cap);
    assert 1000 * (cores * cap) * 100 == (100000 * cores) * cap;
    Divides(100000 * cores, cap, Quota(cores, cap) * 100);
  }
}
