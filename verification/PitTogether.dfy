/** The two counters run side by side from a count that is in place in both. */
module PitTogether {
  import T = PitTicking
  import F = PitFast
  import opened PitRates
  import PitShots
  import PitStrobes
  import opened PitPrograms
  import opened PitCounters

  /** Mode 2: t clock cycles and as much time, with a fraction of a tick, make the same
      falling edges. */
  method RunRates(c: Counter, f: FastCounter, ghost n: nat, ghost start: nat, t: nat, until: nat)
    requires Steady(c.State()) && JustLoaded(c.State(), n) && JustStarted(f.State(), n, start, n - 1)
    requires F.After(start, t, f.unit) <= until < F.After(start, t, f.unit) + f.unit
    modifies c, f
    ensures c.falls == old(c.falls) + Progression(old(c.ticks) + n - 1, n, MarksBy(n - 1, n, t))
    ensures old(f.falls) <= f.falls
    ensures SameEdges(c.falls[|old(c.falls)|..], old(c.ticks), f.falls[|old(f.falls)|..], start, old(f.unit))
  {
    hide T.Ticks, RunUntil, Cycles, Progression, MarksBy, SameEdges, F.After;
    ghost var was, fast := c.State(), f.State();
    CyclesAreTicks(was, t);
    FallingEdgesAgree(was, fast, n, start, t, until - F.After(start, t, f.unit));
    c.RunCycles(t);
    f.Run(until);
  }

  /** Modes 0 and 1: they raise OUT once, after n ticks. */
  method RunShots(c: Counter, f: FastCounter, ghost n: nat, ghost start: nat, t: nat, until: nat)
    requires Steady(c.State()) && PitShots.Counting(c.State(), n) && PitShots.Armed(f.State(), n, start)
    requires F.After(start, t, f.unit) <= until < F.After(start, t, f.unit) + f.unit
    modifies c, f
    ensures c.out == f.out == (t >= n) && c.falls == old(c.falls) && f.falls == old(f.falls)
    ensures c.rises == if t < n then old(c.rises) else old(c.rises) + [old(c.ticks) + n]
    ensures f.rises == if t < n then old(f.rises) else old(f.rises) + [F.After(start, n, old(f.unit))]
  {
    hide T.Ticks, RunUntil, Cycles, F.After;
    ghost var was, fast := c.State(), f.State();
    CyclesAreTicks(was, t);
    PitShots.TerminalCountAgrees(was, fast, n, start, t, until - F.After(start, t, f.unit));
    c.RunCycles(t);
    f.Run(until);
  }

  /** Modes 4 and 5: they are at the same level if and only if more than n ticks have gone by. */
  method RunStrobes(c: Counter, f: FastCounter, ghost n: nat, ghost start: nat, t: nat, until: nat)
    requires Steady(c.State()) && PitStrobes.StrobeLoaded(c.State(), n) && PitStrobes.StrobeArmed(f.State(), n, start)
    requires F.After(start, t, f.unit) <= until < F.After(start, t, f.unit) + f.unit
    modifies c, f
    ensures c.out == (t != n) && f.out == (t >= n) && (c.out == f.out <==> t > n)
  {
    hide T.Ticks, RunUntil, Cycles, F.After;
    ghost var was, fast := c.State(), f.State();
    CyclesAreTicks(was, t);
    PitStrobes.StrobesAgreeAfterwards(was, fast, n, start, t, until - F.After(start, t, f.unit));
    c.RunCycles(t);
    f.Run(until);
  }
}
