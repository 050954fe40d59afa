/** What a low gate does to the two counters, and how they go on when it rises. */
module PitGates {
  import opened Options
  import opened PitCount
  import T = PitTicking
  import F = PitFast
  import opened PitRates
  import opened PitShots
  import opened PitSquare
  import opened PitPrograms
  import opened Division

  // ---- A low gate holds the ticking counter ----

  /** The counter is counting in a mode whose gate is an enable. */
  predicate Enabling(c: T.Ctr) {
    || ((c.m == 0 || c.m == 2) && c.state == 2)
    || (c.m == 3 && (c.state == 2 || c.state == 3))
    || (c.m == 4 && c.state % 4 != 1)
  }

  lemma HoldsOneTick(c: T.Ctr)
    requires Enabling(c) && !c.gate
    ensures T.Tick(c) == c.(ticks := c.ticks + 1)
  {
    hide T.HalfStep, T.CountDown, T.Restarted, T.RunOn, T.Step1, T.Step45;
  }

  /** With the gate low, count, level and state stay as they are for as long as it is. */
  lemma {:induction false} LowGateHolds(c: T.Ctr, n: nat)
    requires Enabling(c) && !c.gate
    ensures T.Ticks(c, n) == c.(ticks := c.ticks + n)
  {
    hide T.Tick;
    if n > 0 {
      LowGateHolds(c, n - 1);
      HoldsOneTick(T.Ticks(c, n - 1));
    }
  }

  /** A falling gate forces OUT high in modes 2 and 3, and does nothing more in any mode. */
  lemma FallingGate(c: T.Ctr)
    requires c.gate && c.m <= 5
    ensures var forces := c.m == 2 || c.m == 3;
      T.SetGate(c, false) == c.(gate := false, out := c.out || forces,
                                rises := if forces && !c.out then c.rises + [c.ticks] else c.rises)
  {
  }

  // ---- And stops the other one ----

  /** In the modes whose gate is an enable the timer is stopped, and OUT left as it is. */
  lemma FallingGateStops(f: F.Fast, now: nat)
    requires f.usingTimer && !f.disabled && (f.m == 0 || f.m == 2 || f.m == 3 || f.m == 4)
    ensures var g := F.SetGate(f, false, now);
      && g.deadline.None? && !g.gate && g.out == f.out && g.falls == f.falls && g.rises == f.rises
      && g.m == f.m && g.l == f.l && g.usingTimer && !g.disabled && !g.running && g.unit == f.unit && g.thit == f.thit
      && g.newcount == f.newcount && g.initial == f.initial
  {
    hide F.Dump, F.Due, F.Trigger, F.RestartRate, F.RestartSquare;
    var h := FallenGate(f, now);
    assert F.SetGate(f, false, now) == F.Dump(h.(gate := false, running := false), now);
    DumpStops(h.(gate := false, running := false), now);
  }

  /** What the gate handler does before the timer is settled. */
  function FallenGate(f: F.Fast, now: nat): F.Fast {
    (if (f.m == 0 || f.m == 4) && !f.running then F.Delay(f, Initial(f.l), now) else f).(enabled := false)
  }

  lemma DumpStops(f: F.Fast, now: nat)
    requires f.usingTimer
    ensures F.Dump(f, now) == f.(deadline := None, count := F.Dump(f, now).count)
  {
    hide F.Read;
    if f.deadline.None? { assert f.(deadline := None, count := f.count) == f; }
  }

  /** No edge comes until the gate rises. */
  lemma NoDeadlineNoEdge(f: F.Fast, until: nat)
    requires f.deadline.None?
    ensures RunUntil(f, until) == f
  {
  }

  lemma GateKeepsState(c: T.Ctr)
    requires c.gate && Enabling(c)
    ensures Enabling(T.SetGate(c, false)) && !T.SetGate(c, false).gate
  {
    hide T.SetGate;
    FallingGate(c);
  }

  /** While the gate is low neither changes: in modes 2 and 3 the ticking counter is high,
      in modes 0 and 4 each keeps the level it had, and so does the deadline counter in all
      of them. So in modes 2 and 3 they are at the same level exactly if the deadline
      counter was high, and in modes 0 and 4 exactly if they were before. */
  lemma LevelsWhileLow(c: T.Ctr, f: F.Fast, now: nat, n: nat, until: nat)
    requires c.gate && Enabling(c) && c.m == f.m && f.usingTimer && !f.disabled
    ensures var d := T.Ticks(T.SetGate(c, false), n); var g := RunUntil(F.SetGate(f, false, now), until);
      && d.out == (c.out || c.m == 2 || c.m == 3) && g.out == f.out && d.count == c.count && d.falls == c.falls
      && g.falls == f.falls && g.rises == f.rises
      && (d.out == g.out <==> if c.m == 2 || c.m == 3 then f.out else c.out == f.out)
  {
    hide T.Ticks, T.SetGate, F.SetGate, RunUntil;
    FallingGate(c);
    GateKeepsState(c);
    LowGateHolds(T.SetGate(c, false), n);
    FallingGateStops(f, now);
    NoDeadlineNoEdge(F.SetGate(f, false, now), until);
  }

  /** A square wave stopped in its lower half, then: high in one counter, low in the other. */
  lemma SquaresWhileLow(c: T.Ctr, f: F.Fast, n: nat, start: nat, t: nat, u: nat, until: nat)
    requires SquareLoaded(c, n) && SquareStarted(f, n, start)
    ensures var at := F.After(start, t, f.unit);
      var d := T.Ticks(T.SetGate(T.Ticks(c, t), false), u);
      var g := RunUntil(F.SetGate(RunUntil(f, at), false, at), until);
      d.out && (d.out == g.out <==> !InLow(n, t))
  {
    hide T.Ticks, T.SetGate, F.SetGate, RunUntil, F.After, Mark, Progression, Times, Phase, Periods, InLow;
    SquareTicks(c, n, t);
    HalfUntil(f, n, start, t, 0);
    LevelsWhileLow(T.Ticks(c, t), RunUntil(f, F.After(start, t, f.unit)), F.After(start, t, f.unit), u, until);
  }

  /** A rate generator whose gate falls at the end of a period loads once more and then holds. */
  lemma {:induction false} LowGateRate(c: T.Ctr, n: nat)
    requires c.m == 2 && (c.state == 2 || c.state == 3) && !c.gate && c.out
    ensures var d := T.Ticks(c, n);
      d.out && d.falls == c.falls && d.rises == c.rises && d.m == 2 && (d.state == 2 || d.state == 3) && !d.gate
  {
    hide T.CountDown, T.Step1, T.Step45, T.Step3, T.Step0;
    if n > 0 { LowGateRate(c, n - 1); }
  }

  /** Rate generators are both high while the gate is low, whenever it falls. */
  lemma RatesWhileLow(c: T.Ctr, f: F.Fast, n: nat, start: nat, first: nat, t: nat, u: nat, until: nat)
    requires JustLoaded(c, n) && JustStarted(f, n, start, first)
    ensures var at := F.After(start, t, f.unit);
      var d := T.Ticks(T.SetGate(T.Ticks(c, t), false), u);
      var g := RunUntil(F.SetGate(RunUntil(f, at), false, at), until);
      d.out && g.out && d.falls == T.Ticks(c, t).falls && g.falls == RunUntil(f, at).falls
  {
    hide T.Ticks, T.SetGate, F.SetGate, RunUntil, F.After, Mark, Progression, Times, Phase, Periods, MarksBy;
    RateTicks(c, n, t);
    DueUntil(f, n, start, first, t, 0);
    var at := F.After(start, t, f.unit);
    FallingGate(T.Ticks(c, t));
    LowGateRate(T.SetGate(T.Ticks(c, t), false), u);
    FallingGateStops(RunUntil(f, at), at);
    NoDeadlineNoEdge(F.SetGate(RunUntil(f, at), false, at), until);
  }

  // ---- A terminal count that is interrupted ----

  lemma RisingGateCounts(c: T.Ctr)
    requires (c.m == 0 || c.m == 4) && !c.gate
    ensures T.SetGate(c, true) == c.(gate := true)
  {
  }

  lemma RisingGateRestarts(f: F.Fast, n: nat, now: nat)
    requires f.usingTimer && !f.disabled && !f.running && f.m == 0 && !f.gate && n == Initial(f.l) <= FULL
    requires !f.thit && !f.out
    ensures var g := F.SetGate(f, true, now);
      Armed(g, n, now) && g.unit == f.unit && g.falls == f.falls && g.rises == f.rises
  {
  }

  /** The gate is low for u ticks, t ticks into a terminal count N. The ticking counter goes
      on where it stopped and raises OUT after N ticks with the gate high. The deadline
      counter counts N from the rising gate. They are at the same level v ticks later
      exactly if that makes no difference, and always so only if the gate fell at once. */
  lemma InterruptedCount(c: T.Ctr, f: F.Fast, n: nat, start: nat, t: nat, u: nat, v: nat)
    requires Counting(c, n) && Armed(f, n, start) && c.m == 0 && f.m == 0 && f.gate && t < n
    ensures var fall, rise := F.After(start, t, f.unit), F.After(start, t + u, f.unit);
      var d := T.Ticks(T.SetGate(T.Ticks(T.SetGate(T.Ticks(c, t), false), u), true), v);
      var stopped := RunUntil(F.SetGate(RunUntil(f, fall), false, fall), rise);
      var g := RunUntil(F.SetGate(stopped, true, rise), F.After(rise, v, f.unit));
      && d.out == (t + v >= n) && g.out == (v >= n) && (d.out == g.out <==> t + v < n || v >= n)
      && d.rises == (if t + v < n then c.rises else c.rises + [c.ticks + u + n])
      && g.rises == (if v < n then f.rises else f.rises + [F.After(start, t + u + n, f.unit)])
  {
    hide T.Ticks, T.SetGate, F.SetGate, RunUntil, F.After, Mark;
    var fall, rise := F.After(start, t, f.unit), F.After(start, t + u, f.unit);
    ShotTicks(c, n, t);
    var c1 := T.Ticks(c, t);
    FallingGate(c1);
    LowGateHolds(T.SetGate(c1, false), u);
    RisingGateCounts(T.Ticks(T.SetGate(c1, false), u));
    Resumed(c, n, t, u, v);
    SpentUntil(f, n, start, t, 0);
    FallingGateStops(RunUntil(f, fall), fall);
    NoDeadlineNoEdge(F.SetGate(RunUntil(f, fall), false, fall), rise);
    var f1 := RunUntil(F.SetGate(RunUntil(f, fall), false, fall), rise);
    RisingGateRestarts(f1, n, rise);
    SpentUntil(F.SetGate(f1, true, rise), n, rise, v, 0);
    AfterAfter(start, t + u, n, f.unit);
  }

  /** The ticks before a pause and those after it, shifted by the pause. */
  lemma Resumed(c: T.Ctr, n: nat, t: nat, u: nat, v: nat)
    requires Counting(c, n) && t < n
    ensures var late := ShotAt(c, n, t).(ticks := c.ticks + t + u);
      var d := T.Ticks(late, v);
      d.out == (t + v >= n) && d.rises == if t + v < n then c.rises else c.rises + [c.ticks + u + n]
  {
    hide T.Ticks;
    var moved := c.(ticks := c.ticks + u);
    ShotTicks(moved, n, t);
    ShotTicks(moved, n, t + v);
    TicksAfterTicks(moved, t, v);
  }

  lemma {:induction false} TicksAfterTicks(c: T.Ctr, t: nat, v: nat)
    ensures T.Ticks(T.Ticks(c, t), v) == T.Ticks(c, t + v)
  {
    hide T.Tick;
    if v > 0 { TicksAfterTicks(c, t, v - 1); }
  }

  // ---- A square wave whose gate rises ----

  lemma GateReloadsSquare(c: T.Ctr, n: nat)
    requires Steady(c) && c.m == 3 && n == Initial(c.l) && 2 <= n <= FULL && !c.gate
    ensures var d := Cycle(T.SetGate(c, true)); SquareLoaded(d, n) && d.ticks == c.ticks + 1 && d.falls == c.falls
  {
    hide Cycle, T.Step0, T.Step1, T.Step2, T.Step3, T.Step45, T.Decrease;
    CycleIsTick(T.SetGate(c, true));
  }

  lemma GateRestartsSquare(f: F.Fast, n: nat, now: nat)
    requires f.usingTimer && !f.disabled && f.m == 3 && n == Initial(f.l) <= FULL && !f.gate
    ensures var g := F.SetGate(f, true, now); SquareStarted(g, n, now) && g.falls == f.falls && g.unit == f.unit
  {
  }

  /** Both start their square wave anew, high, the ticking one a tick later; the falling
      edges are the same from there until the first is due. */
  lemma GatedSquaresPart(c: T.Ctr, f: F.Fast, n: nat, now: nat, t: nat, phi: nat)
    requires Steady(c) && c.m == 3 && n == Initial(c.l) && 2 <= n <= FULL && !c.gate
    requires f.usingTimer && !f.disabled && f.m == 3 && n == Initial(f.l) && !f.gate && phi < f.unit
    ensures var g := F.SetGate(f, true, now); var d := T.SetGate(c, true);
      var edges := Cycles(d, t + 1).falls; var times := RunUntil(g, F.After(now, t, f.unit) + phi).falls;
      && d.out && g.out && |c.falls| <= |edges| && |f.falls| <= |times|
      && (SameEdges(edges[|c.falls|..], c.ticks + 1, times[|f.falls|..], now, f.unit) <==> t < Upper(n))
  {
    hide Cycles, Cycle, T.Tick, RunUntil, T.Ticks, F.After, SameEdges;
    GateReloadsSquare(c, n);
    GateRestartsSquare(f, n, now);
    GatedCycles(c, t);
    SquareWavesPart(Cycle(T.SetGate(c, true)), F.SetGate(f, true, now), n, now, t, phi);
  }
}
