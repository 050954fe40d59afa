/** One-shots under any schedule of triggers, those that come during a pulse included. */
module PitTriggers {
  import opened PitCount
  import T = PitTicking
  import F = PitFast
  import opened PitRates
  import opened PitShots
  import opened PitPrograms

  /** The gate is lowered, if it is high, and raised. */
  function Triggered(c: T.Ctr): T.Ctr {
    T.SetGate(T.SetGate(c, false), true)
  }

  /** Every gap is the number of clock cycles from one trigger to the next, the last one
      that to the end. */
  function Ticking(c: T.Ctr, gaps: seq<nat>): T.Ctr
    decreases |gaps|
  {
    if gaps == [] then c else Ticking(Cycles(Triggered(c), gaps[0]), gaps[1..])
  }

  function FastTriggered(f: F.Fast, now: nat): F.Fast {
    F.SetGate(F.SetGate(f, false, now), true, now)
  }

  /** The same in time, from `at` ticks after `start` on. */
  function Deadlines(f: F.Fast, start: nat, at: nat, gaps: seq<nat>): F.Fast
    decreases |gaps|
  {
    if gaps == [] then f else
      var g := FastTriggered(f, F.After(start, at, f.unit));
      Deadlines(RunUntil(g, F.After(start, at + gaps[0], f.unit)), start, at + gaps[0], gaps[1..])
  }

  // ---- What the schedule says ----

  /** A pulse of n ticks has ended when the next trigger comes: the ticking counter, a tick
      late on both edges, has to have ended it before. */
  predicate PulseOver(n: nat, gap: nat, late: bool) {
    if late then gap > n else gap >= n
  }

  /** When OUT falls: at the triggers that find it high. */
  function FallsAt(gaps: seq<nat>, n: nat, at: nat, high: bool, late: bool): seq<nat>
    decreases |gaps|
  {
    if gaps == [] then []
    else (if high then [at] else []) + FallsAt(gaps[1..], n, at + gaps[0], PulseOver(n, gaps[0], late), late)
  }

  /** When it rises: n ticks after the triggers that no other follows before. */
  function RisesAt(gaps: seq<nat>, n: nat, at: nat, late: bool): seq<nat>
    decreases |gaps|
  {
    if gaps == [] then []
    else (if PulseOver(n, gaps[0], late) then [at + n] else []) + RisesAt(gaps[1..], n, at + gaps[0], late)
  }

  /** OUT in the end. */
  function LevelAfter(gaps: seq<nat>, n: nat, high: bool, late: bool): bool {
    if gaps == [] then high else PulseOver(n, gaps[|gaps| - 1], late)
  }

  /** A one-shot between triggers. */
  predicate Shot(c: T.Ctr, l: nat) {
    Steady(c) && c.m == 1 && c.l == l < FULL
  }

  lemma TriggeredOnce(c: T.Ctr, l: nat, gap: nat)
    requires Shot(c, l) && gap > 0
    ensures var n := Initial(l); var d := Cycles(Triggered(c), gap);
      && Shot(d, l) && d.ticks == c.ticks + gap && d.out == PulseOver(n, gap, true)
      && d.falls == (if c.out then c.falls + [c.ticks + 1] else c.falls)
      && d.rises == (if PulseOver(n, gap, true) then c.rises + [c.ticks + 1 + n] else c.rises)
  {
    hide Cycles, Cycle, T.Tick, T.Ticks, T.SetGate;
    var b := T.SetGate(c, false);
    LoweredGate(c, l);
    TriggerLoads(b, l);
    GatedCycles(b, gap - 1);
    var e := Cycle(T.SetGate(b, true));
    RaisedGate(b, l);
    CycleIsTick(T.SetGate(b, true));
    TickIsSteady(T.SetGate(b, true));
    CyclesAreTicks(e, gap - 1);
    ShotTicks(e, Initial(l), gap - 1);
    TickKeeps(T.SetGate(b, true));
  }

  lemma LoweredGate(c: T.Ctr, l: nat)
    requires Shot(c, l)
    ensures T.SetGate(c, false) == c.(gate := false)
  {
  }

  lemma RaisedGate(c: T.Ctr, l: nat)
    requires Shot(c, l) && !c.gate
    ensures T.SetGate(c, true) == c.(gate := true, state := 1)
  {
  }

  lemma TickKeeps(c: T.Ctr)
    ensures T.Tick(c).m == c.m && T.Tick(c).l == c.l
  {
    hide T.Step;
    T.StepKeepsInputs(c.(ticks := c.ticks + 1));
  }

  /** The ticking counter under a schedule: one tick late on every edge. */
  lemma {:induction false} TickingShots(c: T.Ctr, l: nat, gaps: seq<nat>)
    requires Shot(c, l) && forall k :: 0 <= k < |gaps| ==> gaps[k] > 0
    ensures var n := Initial(l); var d := Ticking(c, gaps);
      && d.falls == c.falls + FallsAt(gaps, n, c.ticks + 1, c.out, true)
      && d.rises == c.rises + RisesAt(gaps, n, c.ticks + 1, true)
      && d.out == LevelAfter(gaps, n, c.out, true)
    decreases |gaps|
  {
    hide Cycles, Triggered, Shot, PulseOver;
    if gaps != [] {
      TriggeredOnce(c, l, gaps[0]);
      TickingShots(Cycles(Triggered(c), gaps[0]), l, gaps[1..]);
    }
  }

  // ---- Deadlines ----

  predicate FastShot(f: F.Fast, l: nat) {
    f.usingTimer && !f.disabled && f.m == 1 && f.l == l < FULL
  }

  lemma FastTriggeredOnce(f: F.Fast, l: nat, start: nat, at: nat, gap: nat)
    requires FastShot(f, l)
    ensures var n := Initial(l); var now := F.After(start, at, f.unit);
      var g := RunUntil(FastTriggered(f, now), F.After(start, at + gap, f.unit));
      && FastShot(g, l) && g.unit == f.unit && g.out == PulseOver(n, gap, false)
      && g.falls == (if f.out then f.falls + [now] else f.falls)
      && g.rises == (if PulseOver(n, gap, false) then f.rises + [F.After(start, at + n, f.unit)] else f.rises)
  {
    hide RunUntil, F.After, F.SetGate, Mark;
    var n := Initial(l);
    var now := F.After(start, at, f.unit);
    var b := F.SetGate(f, false, now);
    FastLowered(f, l, now);
    TriggerArms(b, l, now);
    var g := F.SetGate(b, true, now);
    FastRaised(b, l, now);
    SpentUntil(g, n, now, gap, 0);
    AfterAfter(start, at, gap, f.unit);
    AfterAfter(start, at, n, f.unit);
  }

  lemma FastLowered(f: F.Fast, l: nat, now: nat)
    requires FastShot(f, l)
    ensures var g := F.SetGate(f, false, now);
      && FastShot(g, l) && !g.gate && g.unit == f.unit && g.out == f.out && g.falls == f.falls && g.rises == f.rises
  {
  }

  lemma FastRaised(f: F.Fast, l: nat, now: nat)
    requires FastShot(f, l) && !f.gate
    ensures FastShot(F.SetGate(f, true, now), l)
  {
  }

  function TimesOf(start: nat, marks: seq<nat>, unit: nat): (r: seq<nat>)
    ensures |r| == |marks|
  {
    if marks == [] then [] else [F.After(start, marks[0], unit)] + TimesOf(start, marks[1..], unit)
  }

  lemma TimesOfFirst(start: nat, mark: nat, rest: seq<nat>, unit: nat)
    ensures TimesOf(start, [mark] + rest, unit) == [F.After(start, mark, unit)] + TimesOf(start, rest, unit)
    ensures TimesOf(start, [] + rest, unit) == TimesOf(start, rest, unit)
  {
    assert ([mark] + rest)[1..] == rest;
    assert [] + rest == rest;
  }

  /** The deadline counter under a schedule. */
  lemma {:induction false} DeadlineShots(f: F.Fast, l: nat, start: nat, at: nat, gaps: seq<nat>)
    requires FastShot(f, l)
    ensures var n := Initial(l); var g := Deadlines(f, start, at, gaps);
      && g.falls == f.falls + TimesOf(start, FallsAt(gaps, n, at, f.out, false), f.unit)
      && g.rises == f.rises + TimesOf(start, RisesAt(gaps, n, at, false), f.unit)
      && g.out == LevelAfter(gaps, n, f.out, false)
    decreases |gaps|
  {
    hide RunUntil, FastTriggered, FastShot, PulseOver, F.After, TimesOf;
    if gaps == [] {
      assert TimesOf(start, [], f.unit) == [];
    } else {
      var n := Initial(l);
      FastTriggeredOnce(f, l, start, at, gaps[0]);
      var g := RunUntil(FastTriggered(f, F.After(start, at, f.unit)), F.After(start, at + gaps[0], f.unit));
      DeadlineShots(g, l, start, at + gaps[0], gaps[1..]);
      TimesOfFirst(start, at, FallsAt(gaps[1..], n, at + gaps[0], PulseOver(n, gaps[0], false), false), f.unit);
      TimesOfFirst(start, at + n, RisesAt(gaps[1..], n, at + gaps[0], false), f.unit);
    }
  }

  // ---- The two together ----

  lemma {:induction false} LateIsSame(gaps: seq<nat>, n: nat, at: nat, high: bool)
    requires n !in gaps
    ensures FallsAt(gaps, n, at, high, true) == FallsAt(gaps, n, at, high, false)
    ensures RisesAt(gaps, n, at, true) == RisesAt(gaps, n, at, false)
    ensures LevelAfter(gaps, n, high, true) == LevelAfter(gaps, n, high, false)
    decreases |gaps|
  {
    if gaps != [] { LateIsSame(gaps[1..], n, at + gaps[0], PulseOver(n, gaps[0], false)); }
  }

  lemma {:induction false} LateIsFewer(gaps: seq<nat>, n: nat, at: nat, other: nat)
    ensures |RisesAt(gaps, n, at, true)| <= |RisesAt(gaps, n, other, false)|
    ensures n in gaps ==> |RisesAt(gaps, n, at, true)| < |RisesAt(gaps, n, other, false)|
    decreases |gaps|
  {
    if gaps != [] { LateIsFewer(gaps[1..], n, at + gaps[0], other + gaps[0]); }
  }

  lemma SameEdgesFirst(mark: nat, edges: seq<nat>, origin: nat, times: seq<nat>, start: nat, unit: nat)
    requires SameEdges(edges, origin, times, start, unit)
    ensures SameEdges([origin + mark] + edges, origin, [F.After(start, mark, unit)] + times, start, unit)
    ensures SameEdges([] + edges, origin, times, start, unit)
  {
    hide F.After;
    assert [] + edges == edges;
  }

  lemma {:induction false} SameSchedule(gaps: seq<nat>, n: nat, origin: nat, at: nat, high: bool, late: bool,
      start: nat, unit: nat)
    ensures SameEdges(FallsAt(gaps, n, origin + at, high, late), origin,
                      TimesOf(start, FallsAt(gaps, n, at, high, late), unit), start, unit)
    ensures SameEdges(RisesAt(gaps, n, origin + at, late), origin,
                      TimesOf(start, RisesAt(gaps, n, at, late), unit), start, unit)
    decreases |gaps|
  {
    hide SameEdges, PulseOver, F.After, TimesOf;
    if gaps == [] {
      NoEdges(origin, start, unit);
    } else {
      var ends := PulseOver(n, gaps[0], late);
      SameSchedule(gaps[1..], n, origin, at + gaps[0], ends, late, start, unit);
      var falls, rises := FallsAt(gaps[1..], n, at + gaps[0], ends, late), RisesAt(gaps[1..], n, at + gaps[0], late);
      SameEdgesFirst(at, FallsAt(gaps[1..], n, origin + at + gaps[0], ends, late), origin, TimesOf(start, falls, unit),
                     start, unit);
      SameEdgesFirst(at + n, RisesAt(gaps[1..], n, origin + at + gaps[0], late), origin, TimesOf(start, rises, unit),
                     start, unit);
      TimesOfFirst(start, at, falls, unit);
      TimesOfFirst(start, at + n, rises, unit);
    }
  }

  lemma NoEdges(origin: nat, start: nat, unit: nat)
    ensures SameEdges([], origin, TimesOf(start, [], unit), start, unit)
  {
  }

  /** One-shots under any schedule of triggers: both counters make the same edges, the
      ticking one a tick later, if and only if no trigger, and not the end, comes exactly N
      ticks after the trigger before it. There the deadline counter raises OUT and drops it
      again at once, and the ticking one holds it low. */
  lemma TriggeredShotsAgree(c: T.Ctr, f: F.Fast, l: nat, start: nat, gaps: seq<nat>)
    requires Shot(c, l) && FastShot(f, l) && c.out == f.out && forall k :: 0 <= k < |gaps| ==> gaps[k] > 0
    ensures var n := Initial(l); var d := Ticking(c, gaps); var g := Deadlines(f, start, 0, gaps);
      && c.falls <= d.falls && f.falls <= g.falls && c.rises <= d.rises && f.rises <= g.rises
      && (SameEdges(d.falls[|c.falls|..], c.ticks + 1, g.falls[|f.falls|..], start, f.unit)
          && SameEdges(d.rises[|c.rises|..], c.ticks + 1, g.rises[|f.rises|..], start, f.unit)
          <==> n !in gaps)
      && (gaps != [] ==> (d.out == g.out <==> gaps[|gaps| - 1] != n))
  {
    hide Shot, FastShot, Ticking, Deadlines, FallsAt, RisesAt, TimesOf, F.After;
    var n, origin := Initial(l), c.ticks + 1;
    TickingShots(c, l, gaps);
    DeadlineShots(f, l, start, 0, gaps);
    TailOf(c.falls, FallsAt(gaps, n, origin, c.out, true));
    TailOf(c.rises, RisesAt(gaps, n, origin, true));
    TailOf(f.falls, TimesOf(start, FallsAt(gaps, n, 0, c.out, false), f.unit));
    TailOf(f.rises, TimesOf(start, RisesAt(gaps, n, 0, false), f.unit));
    LateIsFewer(gaps, n, origin, 0);
    if n !in gaps {
      LateIsSame(gaps, n, origin, c.out);
      SameSchedule(gaps, n, origin, 0, c.out, false, start, f.unit);
    }
  }
}
