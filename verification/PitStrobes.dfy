/** Strobes (modes 4 and 5): both counters in closed form, and the exact times at which
    their OUT and their reads agree. */
module PitStrobes {
  import opened PitCount
  import T = PitTicking
  import F = PitFast
  import opened PitRates
  import opened Division
  import opened PitShots
  import opened PitPrograms

  // ---- Ticking ----

  /** The count n has just been loaded; OUT is still high. */
  predicate StrobeLoaded(c: T.Ctr, n: nat) {
    && 1 <= n <= FULL && n == Initial(c.l)
    && c.state == 2 && c.count == n && c.out && !c.latch
    && (c.m == 5 || (c.m == 4 && c.gate))
  }

  /** The counter t ticks after that: OUT is low during tick n alone. */
  function StrobeAt(c: T.Ctr, n: nat, t: nat): T.Ctr {
    c.(ticks := c.ticks + t, count := if t <= n then n - t else (n + 1 - t) % 0x10000,
       state := if t < n then 2 else if t == n then 3 else 0, out := t != n,
       falls := if t < n then c.falls else c.falls + [c.ticks + n],
       rises := if t <= n then c.rises else c.rises + [c.ticks + n + 1])
  }

  lemma StrobeStep(c: T.Ctr, n: nat, t: nat)
    requires StrobeLoaded(c, n)
    ensures T.Step45(StrobeAt(c, n, t).(ticks := c.ticks + t + 1)) == StrobeAt(c, n, t + 1)
  {
    hide T.Step45, StrobeAt;
    if t + 1 < n { StrobeCounts(c, n, t); } else if t + 1 == n { StrobeFalls(c, n, t); }
    else if t == n { StrobeRises(c, n); } else { StrobeRunsOn(c, n, t); }
  }

  lemma StrobeCounts(c: T.Ctr, n: nat, t: nat)
    requires StrobeLoaded(c, n) && t + 1 < n
    ensures T.Step45(StrobeAt(c, n, t).(ticks := c.ticks + t + 1)) == StrobeAt(c, n, t + 1)
  {
    hide T.Decrease;
    CountDown(n, t);
  }

  lemma StrobeFalls(c: T.Ctr, n: nat, t: nat)
    requires StrobeLoaded(c, n) && t + 1 == n
    ensures T.Step45(StrobeAt(c, n, t).(ticks := c.ticks + t + 1)) == StrobeAt(c, n, t + 1)
  {
    hide T.Decrease;
    CountDown(n, t);
  }

  lemma StrobeRises(c: T.Ctr, n: nat)
    requires StrobeLoaded(c, n)
    ensures T.Step45(StrobeAt(c, n, n).(ticks := c.ticks + n + 1)) == StrobeAt(c, n, n + 1)
  {
    hide T.Decrease;
  }

  lemma StrobeRunsOn(c: T.Ctr, n: nat, t: nat)
    requires StrobeLoaded(c, n) && t > n
    ensures T.Step45(StrobeAt(c, n, t).(ticks := c.ticks + t + 1)) == StrobeAt(c, n, t + 1)
  {
    hide T.Decrease;
    CountDown(n, t - 1);
  }

  lemma StrobeTick(c: T.Ctr, n: nat, t: nat)
    requires StrobeLoaded(c, n)
    ensures T.Tick(StrobeAt(c, n, t)) == StrobeAt(c, n, t + 1)
  {
    hide T.Step0, T.Step1, T.Step2, T.Step3, T.Step45, T.Reload;
    StrobeStep(c, n, t);
  }

  /** Modes 4 and 5, tick by tick, in closed form: OUT is low from tick N to tick N + 1. */
  lemma {:induction false} StrobeTicks(c: T.Ctr, n: nat, t: nat)
    requires StrobeLoaded(c, n)
    ensures T.Ticks(c, t) == StrobeAt(c, n, t)
  {
    hide T.Tick;
    if t > 0 {
      hide StrobeAt;
      StrobeTicks(c, n, t - 1);
      StrobeTick(c, n, t - 1);
    }
  }

  // ---- Deadlines ----

  /** The timer runs towards the strobe, with OUT low already. */
  predicate StrobeArmed(f: F.Fast, n: nat, start: nat) {
    Running(f, n, start) && f.m >= 4
  }

  // ---- The two together ----

  /** From the moment the count N is in place: the ticking counter holds OUT high and
      drops it for the tick N, the deadline-driven one drops it at once and raises it at
      tick N. So their levels agree if and only if more than N ticks have gone by. */
  lemma StrobesAgreeAfterwards(c: T.Ctr, f: F.Fast, n: nat, start: nat, t: nat, phi: nat)
    requires StrobeLoaded(c, n) && StrobeArmed(f, n, start) && phi < f.unit
    ensures var d := T.Ticks(c, t); var g := RunUntil(f, F.After(start, t, f.unit) + phi);
      && d.out == (t != n) && g.out == (t >= n) && (d.out == g.out <==> t > n)
      && d.falls == (if t < n then c.falls else c.falls + [c.ticks + n])
      && d.rises == (if t <= n then c.rises else c.rises + [c.ticks + n + 1])
      && g.falls == f.falls && g.rises == (if t < n then f.rises else f.rises + [F.After(start, n, f.unit)])
  {
    hide T.Ticks, RunUntil, F.After, Mark;
    StrobeTicks(c, n, t);
    SpentUntil(f, n, start, t, phi);
  }

  lemma TickingStrobeReads(c: T.Ctr, n: nat, t: nat)
    requires StrobeLoaded(c, n)
    ensures T.Readable(T.Ticks(c, t)) == if t <= n then (n - t) % 0x10000 else (n + 1 - t) % 0x10000
  {
    hide T.Ticks;
    StrobeTicks(c, n, t);
  }

  lemma DeadlineStrobeReads(f: F.Fast, n: nat, start: nat, t: nat)
    requires StrobeArmed(f, n, start)
    ensures var now := F.After(start, t, f.unit); var ahead := if t < n then n - t else 0xffff - (t - n) % 0xffff;
      F.Read(RunUntil(f, now), now) == ahead
  {
    hide RunUntil, F.After, Mark, F.Read;
    SpentUntil(f, n, start, t, 0);
    StrobeDue(n, t);
    LeftToDeadline(start, t, if t < n then n - t else 0xffff - (t - n) % 0xffff, f.unit, 0);
    ReadLeft(SpentAt(f, n, start, MarksBy(n, 0xffff, t)), F.After(start, t, f.unit));
  }

  /** Their counts read alike until the strobe and then no more, but in every 65536th of
      the deadline counter's rounds of 65535. */
  lemma StrobeReads(c: T.Ctr, f: F.Fast, n: nat, start: nat, t: nat)
    requires StrobeLoaded(c, n) && StrobeArmed(f, n, start)
    ensures var now := F.After(start, t, f.unit);
      (F.Read(RunUntil(f, now), now) % 0x10000 == T.Readable(T.Ticks(c, t))
       <==> t < n || Periods(t - n, 0xffff) % 0x10000 == 0xfffe)
  {
    hide T.Ticks, RunUntil, F.After, F.Read, T.Readable, Periods, Running;
    TickingStrobeReads(c, n, t);
    DeadlineStrobeReads(f, n, start, t);
    if t >= n { StrobeRounds(t - n); }
  }

  lemma StrobeDue(n: nat, t: nat)
    ensures var ahead := if t < n then n - t else 0xffff - (t - n) % 0xffff;
      ahead > 0 && Mark(n, 0xffff, MarksBy(n, 0xffff, t)) == t + ahead
  {
    if t >= n { RoundsAfter(n, t - n); }
  }

  lemma StrobeRounds(s: nat)
    ensures (0xffff - s % 0xffff) % 0x10000 == (if s == 0 then 0 else (1 - s) % 0x10000)
      <==> Periods(s, 0xffff) % 0x10000 == 0xfffe
  {
    var q, r := s / 0xffff, s % 0xffff;
    var u, v := q / 0x10000, q % 0x10000;
    assert 1 - s == (v + 1 - r) + (u - q) * 0x10000;
    ModShift(v + 1 - r, u - q, 0x10000);
    SmallMod(v + 1 - r);
    SmallMod(0xffff - r);
  }

  // ---- From programs ----

  /** Two clock cycles after it is programmed in mode 4 with its gate high. */
  lemma StrobeIsLoaded(c: T.Ctr, l: nat)
    requires c.usingTimer && c.s1Det == 0 && c.gate && l < FULL
    ensures StrobeLoaded(Cycle(Cycle(Programmed(c, 4, l))), Initial(l))
  {
    hide Cycle, T.Step0, T.Step1, T.Step2, T.Step3, T.Step45;
    Reloads(c, 4, l);
    CycleIsTick(Cycle(Programmed(c, 4, l)));
  }

  lemma StrobeIsArmed(f: F.Fast, l: nat, now: nat)
    requires f.usingTimer && f.gate && l < FULL
    ensures StrobeArmed(Written(f, 4, l, now), Initial(l), now) && Written(f, 4, l, now).unit == f.unit
  {
  }

  /** In mode 5 the rising gate makes the ticking counter load at the next tick, and starts
      the deadline-driven one at once. */
  lemma StrobeTriggerLoads(c: T.Ctr, l: nat)
    requires Steady(c) && c.m == 5 && c.l == l < FULL && !c.gate && c.out
    ensures var d := Cycle(T.SetGate(c, true));
      && StrobeLoaded(d, Initial(l)) && d.ticks == c.ticks + 1 && d.falls == c.falls && d.rises == c.rises
  {
    hide Cycle, T.Step0, T.Step1, T.Step2, T.Step3, T.Step45;
    CycleIsTick(T.SetGate(c, true));
  }

  lemma StrobeTriggerArms(f: F.Fast, l: nat, now: nat)
    requires f.usingTimer && !f.disabled && f.m == 5 && f.l == l < FULL && !f.gate
    ensures var g := F.SetGate(f, true, now);
      && StrobeArmed(g, Initial(l), now) && g.unit == f.unit
      && g.falls == (if f.out then f.falls + [now] else f.falls) && g.rises == f.rises
  {
  }

  /** The hardware strobe from its trigger on: the ticking counter's OUT falls N + 1 ticks
      later for one tick; the deadline-driven one's falls at once and rises N ticks later. */
  lemma TriggeredStrobes(c: T.Ctr, f: F.Fast, l: nat, now: nat, t: nat, phi: nat)
    requires Steady(c) && c.m == 5 && c.l == l < FULL && !c.gate && c.out
    requires f.usingTimer && !f.disabled && f.m == 5 && f.l == l && !f.gate && f.out && phi < f.unit
    ensures var n := Initial(l); var g := F.SetGate(f, true, now);
      var d := Cycles(T.SetGate(c, true), t + 1); var h := RunUntil(g, F.After(now, t, f.unit) + phi);
      && d.out == (t != n) && h.out == (t >= n)
      && d.falls == (if t < n then c.falls else c.falls + [c.ticks + 1 + n])
      && d.rises == (if t <= n then c.rises else c.rises + [c.ticks + n + 2])
      && h.falls == f.falls + [now] && h.rises == (if t < n then f.rises else f.rises + [F.After(now, n, f.unit)])
  {
    hide Cycles, Cycle, T.SetGate, T.Tick, F.SetGate, RunUntil, T.Ticks, F.After;
    StrobeTriggerLoads(c, l);
    StrobeTriggerArms(f, l, now);
    GatedCycles(c, t);
    StrobesAgreeAfterwards(Cycle(T.SetGate(c, true)), F.SetGate(f, true, now), Initial(l), now, t, phi);
  }
}
