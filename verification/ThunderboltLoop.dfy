/** The Thunderbolt loop with its globals. */
module ThunderboltLoop {
  import opened Thunderbolt

  class Loop {
    var user: real
    var critical: real
    var userSet: real
    var criticalSet: real
    var active: bool
    var next: real

    constructor ()
      ensures View() == START && Inv(View())
    {
      user, critical, userSet, criticalSet, active, next := 100.0, 100.0, 100.0, 100.0, false, 0.0;
    }

    ghost function View(): (s: State)
      reads this
    {
      State(user, critical, userSet, criticalSet, active, next)
    }

    /** The throttle phase. */
    method Throttle(r: Sample)
      requires OverLow(r)
      modifies this`user, this`critical
      ensures View() == Decide(old(View()), r, active)
    {
      var hard := r.actual > r.target * 0.98;
      var soft := r.actual > r.target * 0.96 && !hard && active;
      if user > 1.0 {
        if hard {
          user := user * 0.01;
        } else if soft {
          user := user * 0.75;
        }
        user := Top(1.0, user);
      } else if critical > 1.0 {
        if hard {
          critical := critical * 0.01;
        } else if soft {
          critical := critical * 0.75;
        }
        critical := Top(1.0, critical);
      }
    }

    /** The recovery phase. */
    method Recover(r: Sample)
      requires !OverLow(r)
      modifies this`user, this`critical, this`next
      ensures View() == Decide(old(View()), r, active)
    {
      if r.now >= next {
        if critical < 100.0 {
          critical := if critical + 5.0 < 100.0 then critical + 5.0 else 100.0;
          next := r.now + r.wait;
        } else if user < 100.0 {
          user := if user + 5.0 < 100.0 then user + 5.0 else 100.0;
          next := r.now + r.wait;
        }
      }
    }

    /** One turn of `run_power_capping_loop` in which the power could be read. */
    method Sampled(r: Sample)
      requires Inv(View())
      modifies this
      ensures View() == Turn(old(View()), r) && Inv(View())
    {
      TurnKeeps(View(), r);
      if r.actual > r.target * 0.96 {
        active := true;
      } else if r.actual <= r.target * 0.90 {
        active := false;
      }
      var user0, critical0 := user, critical;
      if r.actual > r.target * 0.96 {
        Throttle(r);
      } else {
        Recover(r);
      }
      if user - user0 > 0.01 || user0 - user > 0.01 {
        userSet := user;
      }
      if critical - critical0 > 0.01 || critical0 - critical > 0.01 {
        criticalSet := critical;
      }
    }
  }
}
