/** The PIP controller's globals and the routines that change them. */
module PipController {
  import opened PipControl

  /** The downward loop over candidate caps, five apart, that stops at the first the model accepts. */
  method FindFit(fits: int -> bool, from: int, floor: int) returns (r: int)
    ensures r == FirstFit(fits, from, floor)
    ensures r != floor ==> Candidate(from, floor, r) && fits(r)
    ensures forall t :: Candidate(from, floor, t) && fits(t) ==> t <= r
  {
    FirstFitGreatest(fits, from, floor);
    var candidate := from;
    while candidate > floor
      invariant FirstFit(fits, candidate, floor) == FirstFit(fits, from, floor)
      decreases candidate - floor
    {
      if fits(candidate) {
        return candidate;
      }
      candidate := candidate - 5;
    }
    r := floor;
  }

  class Controller {
    var fullMode: bool
    var userCap: int
    var criticalCap: int

    constructor ()
      ensures View() == Caps(false, 100, 100)
    {
      fullMode, userCap, criticalCap := false, 100, 100;
    }

    function View(): (c: Caps)
      reads this
    {
      Caps(fullMode, userCap, criticalCap)
    }

    /** `critical_power_capping`. */
    method CapCritical(r: Sample)
      requires Inv(View())
      modifies this`criticalCap
      ensures criticalCap == r.back(Max(FirstFit(x => r.fits(LowerCritical, x), old(criticalCap), 0), 1))
    {
      var selected := FindFit(x => r.fits(LowerCritical, x), criticalCap, 0);
      if selected == 0 {
        selected := 1;
      }
      FirstFitBounds(x => r.fits(LowerCritical, x), criticalCap, 0);
      criticalCap := r.back(selected);
    }

    /** `strict_power_capping`. */
    method CapStrictly(r: Sample)
      requires Inv(View()) && ReadsBack(r)
      modifies this`userCap, this`criticalCap
      ensures View() == Strict(old(View()), r) && Inv(View())
    {
      StrictLowers(View(), r);
      if r.actual - r.target as real < 5.0 {
        var step := if r.actual < r.target as real then 5 else 10;
        if userCap > 1 {
          userCap := Max(userCap - step, 1);
        } else if criticalCap > 1 {
          criticalCap := Max(criticalCap - step, 1);
        }
        return;
      }
      var selected := 0;
      if userCap > 5 {
        selected := FindFit(x => r.fits(LowerUser, x), userCap - 5, 0);
      }
      if selected > 0 {
        userCap := selected;
      } else {
        if userCap > 5 { FirstFitBounds(x => r.fits(LowerUser, x), userCap - 5, 0); }
        CapCritical(r);
        userCap := 1;
      }
    }

    /** The step up for one group. */
    method StepUp(v: int, gap: real, fits: int -> bool) returns (n: int)
      requires 1 <= v < 100
      ensures n == Raised(v, gap, fits) && v < n <= 100
    {
      RaisedBounds(v, gap, fits);
      if gap < 10.0 {
        n := v + 1;
      } else {
        var candidate := FindFit(fits, 100, v);
        if candidate == v || v < 10 {
          n := Min(v + 5, 100);
        } else {
          n := candidate;
        }
      }
      n := Min(n, 100);
    }

    /** `increase_bandwidth`. */
    method IncreaseBandwidth(r: Sample)
      requires Inv(View()) && ReadsBack(r)
      modifies this`userCap, this`criticalCap
      ensures View() == Increase(old(View()), r) && Inv(View())
    {
      IncreaseRaises(View(), r);
      var gap := r.target as real - r.actual;
      if criticalCap < 100 {
        userCap := 1;
        userCap := r.back(userCap);
        criticalCap := StepUp(criticalCap, gap, x => r.fits(RaiseCritical, x));
      } else if userCap < 100 {
        userCap := StepUp(userCap, gap, x => r.fits(RaiseUser, x));
      }
    }

    /** One turn of `run_stress_test`. */
    method Sampled(r: Sample)
      requires Inv(View()) && ReadsBack(r)
      modifies this
      ensures View() == Turn(old(View()), r) && Inv(View())
    {
      if !fullMode {
        if r.actual >= r.target as real * (1.0 - 0.03) {
          fullMode := true;
        }
        return;
      }
      if r.actual >= r.target as real * (1.0 - 0.03) {
        CapStrictly(r);
      } else if r.actual < r.target as real * (1.0 - 0.03 * 2.0) {
        IncreaseBandwidth(r);
      }
    }
  }
}
