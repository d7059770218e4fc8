/**
 * `AverageGenerator` of Lab6-2/Lab6-2.cpp: the handle the driver holds.  The
 * coroutine frame's locals (`history`, `zero_flag_active`, `last_zero_time`),
 * the promise's `current_average` and the coroutine's done/suspended status
 * become fields that `Resume` updates in place.
 */
module Generator {
  import opened Wrappers
  import opened Window
  import opened Unit

  class AverageGenerator {
    var history: seq<real>
    var zeroFlagActive: bool
    var lastZeroTime: int
    var currentAverage: real
    var status: Status

    /** The fields as a value of the state machine in module Unit. */
    function Snapshot(): State
      reads this
    {
      State(history, zeroFlagActive, lastZeroTime, currentAverage, status)
    }

    ghost predicate Valid()
      reads this
    {
      Invariant(Snapshot())
    }

    /** A new generator: not started, empty window, no cooldown, published value 0.0. */
    constructor ()
      ensures Valid() && Snapshot() == Init()
    {
      history := [];
      zeroFlagActive := false;
      lastZeroTime := 0;
      currentAverage := 0.0;
      status := NotStarted;
    }

    /**
     * One `resume()`: returns false when the generator was already done or
     * becomes done in this step, and true when it has yielded a new average.
     */
    method Resume(now: int, input: Option<real>) returns (active: bool)
      requires Valid()
      modifies this
      ensures Valid()
      ensures Snapshot() == Next(old(Snapshot()), now, input).next
      ensures active == Next(old(Snapshot()), now, input).active
    {
      if status.Terminal() {
        return false;
      }
      if zeroFlagActive {
        var elapsed := now - lastZeroTime;
        if elapsed < CooldownMs {
          status := Violated;
          return false;
        }
        zeroFlagActive := false;
      }
      if input.None? {
        status := Finished;
        return false;
      }
      var x := input.value;
      if x == 0.0 {
        zeroFlagActive := true;
        lastZeroTime := now;
        currentAverage := Mean(history);
        status := Suspended;
        return true;
      }
      history := history + [x];
      if |history| > Capacity {
        history := history[1..];
      }
      currentAverage := Mean(history);
      status := Suspended;
      return true;
    }

    /** `get_result()`: the last published average, read without changing anything. */
    method GetResult() returns (r: real)
      ensures r == currentAverage
    {
      r := currentAverage;
    }
  }

  /** A driver that feeds 5 and then 0, and resumes too soon after the zero. */
  method EarlyResumeClient(later: Option<real>)
  {
    var g := new AverageGenerator();
    var r := g.GetResult();
    assert r == 0.0;
    var active := g.Resume(0, Some(5.0));
    r := g.GetResult();
    assert active && r == 5.0;
    active := g.Resume(100, Some(0.0));
    r := g.GetResult();
    assert active && r == 5.0;
    active := g.Resume(300, later);
    r := g.GetResult();
    assert !active && r == 5.0 && g.status == Violated;
    active := g.Resume(5000, Some(1.0));
    assert !active && g.status == Violated;
  }
}
