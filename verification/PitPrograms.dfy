/** From a control word and a count to the states the refinement lemmas start from. */
module PitPrograms {
  import opened PitCount
  import T = PitTicking
  import F = PitFast
  import opened PitRates
  import opened PitShots
  import opened PitSquare
  import opened Division

  /** One clock cycle: a rising and a falling edge. */
  function Cycle(c: T.Ctr): T.Ctr {
    T.Clock(T.Clock(c, true), false)
  }

  /** A clock cycle that finds no written value waiting is one tick. */
  lemma CycleIsTick(c: T.Ctr)
    requires c.usingTimer && !c.latch && !c.clock && c.s1Det == 0
    ensures Cycle(c) == T.Tick(c)
  {
    hide T.Tick;
    assert c.(clock := true).(clock := false) == c;
    assert c.(clock := true).(s1Det := 1).(clock := false).(s1Det := 0) == c;
  }

  /** A control word followed by a complete count, on a clocked counter. */
  function Programmed(c: T.Ctr, m: nat, l: nat): T.Ctr {
    T.Load(T.Control(c, m), l)
  }

  /** The cycle that takes a waiting value. */
  lemma TakingCycle(c: T.Ctr)
    requires c.usingTimer && c.latch
    ensures Cycle(c) == T.SetState1(c.(clock := false)).(latch := false)
  {
    hide T.Tick, T.SetState1;
    var up := T.Clock(c, true);
    assert up == c.(clock := true);
    assert up.(clock := false) == c.(clock := false);
  }

  lemma ProgrammedWaits(c: T.Ctr, m: nat, l: nat)
    requires c.usingTimer
    ensures var d := Programmed(c, m, l); d.usingTimer && d.latch && d.state == 0 && d.m == m
  {
  }

  lemma Reloads(c: T.Ctr, m: nat, l: nat)
    requires c.usingTimer && c.s1Det == 0 && m <= 5
    ensures var d := Programmed(c, m, l);
      Cycle(d) == d.(latch := false, incomplete := false, clock := false, state := if m % 4 == 1 then 5 else 1)
  {
    hide Programmed, Cycle;
    ProgrammedWaits(c, m, l);
    TakingCycle(Programmed(c, m, l));
  }

  /** Two clock cycles after it is programmed in mode 2 with its gate high, the ticking
      counter has loaded its count, 2 in place of 1. */
  lemma RateIsLoaded(c: T.Ctr, l: nat)
    requires c.usingTimer && c.s1Det == 0 && c.gate && l < FULL
    ensures JustLoaded(Cycle(Cycle(Programmed(c, 2, l))), if l == 1 then 2 else Initial(l))
  {
    hide Cycle, T.Step0, T.Step1, T.Step2, T.Step3, T.Step45;
    Reloads(c, 2, l);
    CycleIsTick(Cycle(Programmed(c, 2, l)));
  }

  lemma SquareIsLoaded(c: T.Ctr, l: nat)
    requires c.usingTimer && c.s1Det == 0 && c.gate && l < FULL
    ensures SquareLoaded(Cycle(Cycle(Programmed(c, 3, l))), if l == 1 then FULL else Initial(l))
  {
    hide Cycle, T.Step0, T.Step1, T.Step2, T.Step3, T.Step45;
    Reloads(c, 3, l);
    CycleIsTick(Cycle(Programmed(c, 3, l)));
  }

  lemma CountIsLoaded(c: T.Ctr, l: nat)
    requires c.usingTimer && c.s1Det == 0 && c.gate && l < FULL
    ensures Counting(Cycle(Cycle(Programmed(c, 0, l))), Initial(l))
  {
    hide Cycle, T.Step0, T.Step1, T.Step2, T.Step3, T.Step45;
    Reloads(c, 0, l);
    CycleIsTick(Cycle(Programmed(c, 0, l)));
  }

  /** A one-shot holds OUT high while it waits; the rising gate makes it load and drop
      OUT at the next tick, whatever it was doing. */
  lemma ShotIsTriggered(c: T.Ctr, l: nat)
    requires c.usingTimer && c.s1Det == 0 && l < FULL
    ensures var d := Cycle(Cycle(Programmed(c, 1, l))); d.out && d.state == 6
  {
    hide Cycle, T.Step0, T.Step1, T.Step2, T.Step3, T.Step45;
    Reloads(c, 1, l);
    CycleIsTick(Cycle(Programmed(c, 1, l)));
  }

  lemma TriggerLoads(c: T.Ctr, l: nat)
    requires c.usingTimer && c.s1Det == 0 && !c.clock && !c.latch && c.m == 1 && c.l == l < FULL && !c.gate
    ensures var d := Cycle(T.SetGate(c, true));
      && Counting(d, Initial(l)) && d.ticks == c.ticks + 1
      && d.falls == (if c.out then c.falls + [d.ticks] else c.falls) && d.rises == c.rises
  {
    hide Cycle, T.Step0, T.Step1, T.Step2, T.Step3, T.Step45;
    CycleIsTick(T.SetGate(c, true));
  }

  /** A rising gate restarts a rate generator: it loads at the next tick. */
  lemma GateReloadsRate(c: T.Ctr, n: nat)
    requires c.usingTimer && c.s1Det == 0 && !c.clock && !c.latch && c.m == 2 && n == Initial(c.l) && 2 <= n <= FULL
      && !c.gate
    ensures var d := Cycle(T.SetGate(c, true)); JustLoaded(d, n) && d.ticks == c.ticks + 1 && d.falls == c.falls
  {
    hide Cycle, T.Step0, T.Step1, T.Step3, T.Step45, T.Decrease;
    CycleIsTick(T.SetGate(c, true));
  }

  // ---- The deadline-driven counter ----

  function Written(f: F.Fast, m: nat, l: nat, now: nat): F.Fast {
    F.Load(F.Control(f, m, now), l, now)
  }

  lemma RateIsStarted(f: F.Fast, l: nat, now: nat)
    requires f.usingTimer && f.gate && l < FULL
    ensures var g := Written(f, 2, l, now); JustStarted(g, Initial(l), now, Initial(l) - 1) && g.unit == f.unit
  {
  }

  lemma SquareIsStarted(f: F.Fast, l: nat, now: nat)
    requires f.usingTimer && f.gate && l < FULL
    ensures var g := Written(f, 3, l, now); SquareStarted(g, Initial(l), now) && g.unit == f.unit
  {
  }

  lemma CountIsArmed(f: F.Fast, l: nat, now: nat)
    requires f.usingTimer && f.gate && l < FULL
    ensures var g := Written(f, 0, l, now); Armed(g, Initial(l), now) && g.unit == f.unit
  {
  }

  lemma TriggerArms(f: F.Fast, l: nat, now: nat)
    requires f.usingTimer && !f.disabled && f.m == 1 && f.l == l < FULL && !f.gate
    ensures var g := F.SetGate(f, true, now);
      && Armed(g, Initial(l), now) && g.unit == f.unit
      && g.falls == (if f.out then f.falls + [now] else f.falls) && g.rises == f.rises
  {
  }

  lemma GateRestartsRate(f: F.Fast, n: nat, now: nat)
    requires f.usingTimer && !f.disabled && f.m == 2 && n == Initial(f.l) && n <= FULL && !f.gate
    ensures var g := F.SetGate(f, true, now); JustStarted(g, n, now, n) && g.falls == f.falls && g.unit == f.unit
  {
  }

  // ---- Whole programs, in clock cycles ----

  function Cycles(c: T.Ctr, t: nat): T.Ctr {
    if t == 0 then c else Cycle(Cycles(c, t - 1))
  }

  /** The clock line between cycles. */
  predicate Steady(c: T.Ctr) {
    c.usingTimer && !c.latch && !c.clock && c.s1Det == 0
  }

  lemma TickIsSteady(c: T.Ctr)
    requires Steady(c)
    ensures Steady(T.Tick(c))
  {
    hide T.Step;
    T.StepKeepsInputs(c.(ticks := c.ticks + 1));
  }

  /** Clock cycles are ticks as long as nothing is written. */
  lemma {:induction false} CyclesAreTicks(c: T.Ctr, t: nat)
    requires Steady(c)
    ensures Cycles(c, t) == T.Ticks(c, t) && Steady(Cycles(c, t))
  {
    hide T.Tick;
    if t > 0 {
      CyclesAreTicks(c, t - 1);
      CycleIsTick(Cycles(c, t - 1));
      TickIsSteady(Cycles(c, t - 1));
    }
  }

  /** The one-shot: a trigger makes OUT low for exactly N ticks in both counters. The
      ticking one is a tick late on both edges. */
  lemma OneShotsAgree(c: T.Ctr, f: F.Fast, l: nat, now: nat, t: nat, phi: nat)
    requires Steady(c) && c.m == 1 && c.l == l < FULL && !c.gate && c.out
    requires f.usingTimer && !f.disabled && f.m == 1 && f.l == l && !f.gate && f.out && phi < f.unit
    ensures var n := Initial(l); var g := F.SetGate(f, true, now);
      var d := Cycles(T.SetGate(c, true), t + 1); var h := RunUntil(g, F.After(now, t, f.unit) + phi);
      && d.out == h.out == (t >= n)
      && d.falls == c.falls + [c.ticks + 1] && h.falls == f.falls + [now]
      && d.rises == (if t < n then c.rises else c.rises + [c.ticks + 1 + n])
      && h.rises == (if t < n then f.rises else f.rises + [F.After(now, n, f.unit)])
  {
    hide Cycles, Cycle, T.SetGate, T.Tick, F.SetGate, RunUntil, T.Ticks, F.After;
    var gated := T.SetGate(c, true);
    var d := Cycle(gated);
    TriggerLoads(c, l);
    TriggerArms(f, l, now);
    GatedCycles(c, t);
    TerminalCountAgrees(d, F.SetGate(f, true, now), Initial(l), now, t, phi);
  }

  lemma GatedCycles(c: T.Ctr, t: nat)
    requires Steady(c)
    ensures Cycles(T.SetGate(c, true), t + 1) == T.Ticks(Cycle(T.SetGate(c, true)), t)
  {
    hide Cycles, Cycle, T.Tick, T.Ticks;
    var gated := T.SetGate(c, true);
    CyclesFrom(gated, t);
    CycleIsTick(gated);
    TickIsSteady(gated);
    CyclesAreTicks(T.Tick(gated), t);
  }

  lemma {:induction false} CyclesFrom(c: T.Ctr, t: nat)
    ensures Cycles(c, t + 1) == Cycles(Cycle(c), t)
  {
    hide Cycle;
    if t > 0 { CyclesFrom(c, t - 1); }
  }

  /** A rate generator whose gate rises: OUT falls N ticks later and every N ticks from
      then on, in both counters. */
  lemma GatedRatesAgree(c: T.Ctr, f: F.Fast, n: nat, now: nat, t: nat, phi: nat)
    requires Steady(c) && c.m == 2 && n == Initial(c.l) && 2 <= n <= FULL && !c.gate
    requires f.usingTimer && !f.disabled && f.m == 2 && n == Initial(f.l) && !f.gate && phi < f.unit
    ensures var g := F.SetGate(f, true, now);
      var edges := Cycles(T.SetGate(c, true), t + 1).falls;
        var times := RunUntil(g, F.After(now, t + 1, f.unit) + phi).falls;
      && c.falls <= edges && f.falls <= times
      && |edges| == |c.falls| + MarksBy(n, n, t + 1)
      && SameEdges(edges[|c.falls|..], c.ticks, times[|f.falls|..], now, f.unit)
  {
    hide Cycles, Cycle, T.SetGate, T.Tick, F.SetGate, RunUntil, T.Ticks, F.After, Mark, MarksBy, SameEdges,
      Progression, Times;
    var d := Cycle(T.SetGate(c, true));
    GateReloadsRate(c, n);
    GateRestartsRate(f, n, now);
    GatedCycles(c, t);
    var g := F.SetGate(f, true, now);
    TickingFalls(d, n, t);
    DeadlineFalls(g, n, now, n, t + 1, phi);
    MarksShift(n, t);
    var k := MarksBy(n, n, t + 1);
    SameMarks(c.ticks, c.ticks + n, now, n, n, f.unit, k);
    TailOf(c.falls, Progression(c.ticks + n, n, k));
    TailOf(f.falls, Times(now, n, n, f.unit, k));
  }

  lemma MarksShift(n: nat, t: nat)
    requires n > 0
    ensures MarksBy(n - 1, n, t) == MarksBy(n, n, t + 1)
  {
  }

  // ---- Programs and edges ----

  lemma CyclesAfterLoad(c: T.Ctr, m: nat, l: nat, t: nat)
    requires c.usingTimer && c.s1Det == 0 && m <= 5
    ensures var b := Programmed(c, m, l);
      Cycles(b, 2) == Cycle(Cycle(b)) && Cycles(b, t + 2) == T.Ticks(Cycles(b, 2), t)
  {
    hide Cycle, Programmed, T.Tick, T.Ticks;
    var b := Programmed(c, m, l);
    Reloads(c, m, l);
    ProgrammedWaits(c, m, l);
    ProgrammedClock(c, m, l);
    var d := Cycle(b);
    CycleIsTick(d);
    TickIsSteady(d);
    CyclesAreTicks(Cycle(d), t);
    CyclesFrom(b, t + 1);
    CyclesFrom(d, t);
    assert Cycles(b, 1) == Cycle(Cycles(b, 0));
  }

  lemma ProgrammedClock(c: T.Ctr, m: nat, l: nat)
    ensures Programmed(c, m, l).s1Det == c.s1Det
  {
  }

  /** Rate generators programmed alike fall alike, counted from the ticking one's load and
      from the write, if and only if the count is not 1: the ticking counter takes a 1 for
      2, the other one falls at every tick. */
  lemma ProgrammedRatesAgree(c: T.Ctr, f: F.Fast, l: nat, now: nat, t: nat, phi: nat)
    requires c.usingTimer && c.s1Det == 0 && c.gate && f.usingTimer && f.gate && l < FULL && phi < f.unit
    ensures var b := Programmed(c, 2, l); var g := Written(f, 2, l, now); var loaded := Cycles(b, 2);
      var edges := Cycles(b, t + 2).falls; var times := RunUntil(g, F.After(now, t, f.unit) + phi).falls;
      && loaded.falls <= edges && g.falls <= times
      && (SameEdges(edges[|loaded.falls|..], loaded.ticks, times[|g.falls|..], now, f.unit) <==> l != 1)
  {
    hide Programmed, Written, Cycle, Cycles, RunUntil, T.Ticks, F.After, MarksBy, Mark, Progression, Times, SameEdges;
    var g := Written(f, 2, l, now);
    CyclesAfterLoad(c, 2, l, t);
    RateIsLoaded(c, l);
    RateIsStarted(f, l, now);
    var loaded := Cycles(Programmed(c, 2, l), 2);
    if l != 1 {
      FallingEdgesAgree(loaded, g, Initial(l), now, t, phi);
      var n := Initial(l);
      TailOf(loaded.falls, Progression(loaded.ticks + n - 1, n, MarksBy(n - 1, n, t)));
    } else {
      TickingFalls(loaded, 2, t);
      DeadlineFalls(g, 1, now, 0, t, phi);
      TailOf(loaded.falls, Progression(loaded.ticks + 1, 2, MarksBy(1, 2, t)));
      TailOf(g.falls, Times(now, 0, 1, f.unit, MarksBy(0, 1, t)));
      OneIsNotTwo(t);
      DifferentLengths(Progression(loaded.ticks + 1, 2, MarksBy(1, 2, t)), loaded.ticks,
                       Times(now, 0, 1, f.unit, MarksBy(0, 1, t)), now, f.unit);
    }
  }

  lemma OneIsNotTwo(t: nat)
    ensures MarksBy(1, 2, t) != MarksBy(0, 1, t)
  {
  }

  lemma DifferentLengths(edges: seq<nat>, origin: nat, times: seq<nat>, start: nat, unit: nat)
    requires |edges| != |times|
    ensures !SameEdges(edges, origin, times, start, unit)
  {
  }

  /** Square waves programmed alike have the same falling edges only until the first one is
      due; with a 1, which the ticking counter takes for 65536, that is after one tick. */
  lemma ProgrammedSquaresPart(c: T.Ctr, f: F.Fast, l: nat, now: nat, t: nat, phi: nat)
    requires c.usingTimer && c.s1Det == 0 && c.gate && f.usingTimer && f.gate && l < FULL && phi < f.unit
    ensures var b := Programmed(c, 3, l); var g := Written(f, 3, l, now); var loaded := Cycles(b, 2);
      var edges := Cycles(b, t + 2).falls; var times := RunUntil(g, F.After(now, t, f.unit) + phi).falls;
      && |loaded.falls| <= |edges| && |g.falls| <= |times|
      && (SameEdges(edges[|loaded.falls|..], loaded.ticks, times[|g.falls|..], now, f.unit) <==> t < Upper(Initial(l)))
  {
    hide Programmed, Written, Cycle, Cycles, RunUntil, T.Ticks, F.After, SameEdges;
    var g := Written(f, 3, l, now);
    CyclesAfterLoad(c, 3, l, t);
    SquareIsLoaded(c, l);
    SquareIsStarted(f, l, now);
    var loaded := Cycles(Programmed(c, 3, l), 2);
    if l != 1 {
      SquareWavesPart(loaded, g, Initial(l), now, t, phi);
    } else {
      SquareOfOne(loaded, g, now, t, phi);
    }
  }

  lemma SquareOfOne(c: T.Ctr, f: F.Fast, start: nat, t: nat, phi: nat)
    requires SquareLoaded(c, FULL) && SquareStarted(f, 1, start) && phi < f.unit
    ensures var edges := T.Ticks(c, t).falls; var times := RunUntil(f, F.After(start, t, f.unit) + phi).falls;
      && |edges| >= |c.falls| && |times| >= |f.falls|
      && (SameEdges(edges[|c.falls|..], c.ticks, times[|f.falls|..], start, f.unit) <==> t == 0)
  {
    hide T.Ticks, RunUntil, F.After, Mark, Progression, Times;
    SquareTicks(c, FULL, t);
    HalfUntil(f, 1, start, t, phi);
    OneFallATick(t);
  }

  /** In t ticks a wave of one tick has fallen t times, the other one less often. */
  lemma OneFallATick(t: nat)
    ensures Periods(t, 1) == t && Phase(t, 1) == 0
    ensures t > 0 ==> Periods(t, FULL + 2) + 1 <= t
    ensures t > 0 && Phase(t, FULL + 2) > Upper(FULL) ==> Periods(t, FULL + 2) + 1 < t
    ensures t == 0 ==> Periods(t, FULL + 2) == 0 && Phase(t, FULL + 2) == 0
  {
  }

  /** Terminal counts programmed alike: OUT is low for N ticks, counted from the ticking
      one's load and from the write, and then rises once, for every count. */
  lemma ProgrammedCountsAgree(c: T.Ctr, f: F.Fast, l: nat, now: nat, t: nat, phi: nat)
    requires c.usingTimer && c.s1Det == 0 && c.gate && f.usingTimer && f.gate && l < FULL && phi < f.unit
    ensures var n := Initial(l); var b := Programmed(c, 0, l); var g := Written(f, 0, l, now);
      var loaded := Cycles(b, 2);
      var d := Cycles(b, t + 2); var h := RunUntil(g, F.After(now, t, f.unit) + phi);
      && d.out == h.out == (t >= n) && d.falls == loaded.falls && h.falls == g.falls
      && d.rises == (if t < n then loaded.rises else loaded.rises + [loaded.ticks + n])
      && h.rises == (if t < n then g.rises else g.rises + [F.After(now, n, f.unit)])
  {
    hide Programmed, Written, Cycle, Cycles, RunUntil, T.Ticks, F.After;
    CyclesAfterLoad(c, 0, l, t);
    CountIsLoaded(c, l);
    CountIsArmed(f, l, now);
    TerminalCountAgrees(Cycles(Programmed(c, 0, l), 2), Written(f, 0, l, now), Initial(l), now, t, phi);
  }
}
