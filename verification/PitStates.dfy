/** Counters that are not counting: held by a control word, waiting for a trigger, stopped;
    the clock edges that count; and what reads find. */
module PitStates {
  import opened Options
  import opened PitCount
  import T = PitTicking
  import F = PitFast
  import opened PitRates
  import opened PitPrograms
  import opened Division

  // ---- Clock edges ----

  /** A clocked counter with no written value waiting ticks at every falling edge, unless it
      is about to load a count: then only at a falling edge that comes after another edge. */
  lemma EdgesThatTick(c: T.Ctr, level: bool)
    requires c.usingTimer && !c.latch && c.s1Det <= 1
    ensures T.Clock(c, level) ==
      if c.clock && !level && (c.state != 1 || c.s1Det == 1)
      then T.Tick(c.(clock := false, s1Det := if c.state == 1 then 0 else c.s1Det))
      else c.(clock := level, s1Det := if c.state == 1 && c.clock != level then 1 else c.s1Det)
  {
    hide T.Tick;
    if c.state == 1 && !c.clock && level { assert c.(clock := level).(s1Det := 1) == c.(clock := level, s1Det := 1); }
  }

  /** A count that is written while the clock is high is loaded a cycle later than one that
      is written while it is low: the falling edge that takes it is not followed by a tick
      before the next one. */
  lemma TakenAtTheEdge(c: T.Ctr, l: nat)
    requires c.usingTimer && !c.latch && c.s1Det == 0 && (c.m == 0 || c.m == 4) && l < FULL
    ensures var d := T.Clock(T.Load(c, l), false);
      && (c.clock ==> d.state == 1 && !d.latch && d.ticks == c.ticks && d.s1Det == 0)
      && (!c.clock ==> d == T.Load(c, l))
  {
    hide T.Tick;
  }

  /** A counter that is not clocked by the timer does not react to the clock. */
  lemma NotClocked(c: T.Ctr, level: bool)
    requires !c.usingTimer
    ensures T.Clock(c, level) == c.(clock := level)
  {
  }

  /** A gate that is set to the level it has does nothing, on a deadline counter that is
      settled either. */
  lemma SameGate(c: T.Ctr, f: F.Fast, now: nat)
    ensures T.SetGate(c, c.gate) == c
    ensures f.usingTimer && f.enabled && f.running && !f.disabled && f.m <= 5 && (f.gate || f.m == 1 || f.m == 5) ==>
      F.SetGate(f, f.gate, now) == f
  {
    hide T.SetOut, F.Start, F.Read;
  }

  // ---- Reads of the ticking counter ----

  /** A latch reads the written count from the write until it is in place, but while a
      triggered counter is loading it the old one; then it reads the count. */
  lemma WrittenReads(c: T.Ctr, m: nat, l: nat)
    requires c.usingTimer && c.s1Det == 0 && m <= 5 && l < FULL
    ensures var b := Programmed(c, m, l); var d := Cycle(b);
      var taken := if l != 1 then l else if m == 2 then 2 else if m == 3 then 0 else 1;
      && T.Readable(b) == taken
      && T.Readable(d) == (if m == 1 || m == 5 then c.count % 0x10000 else taken)
      && T.Readable(Cycle(d)) == taken
  {
    hide Cycle, T.Tick;
    Reloads(c, m, l);
    ProgrammedWaits(c, m, l);
    ProgrammedCount(c, m, l);
    CycleIsTick(Cycle(Programmed(c, m, l)));
    LoadedReads(Cycle(Programmed(c, m, l)));
  }

  lemma ProgrammedCount(c: T.Ctr, m: nat, l: nat)
    requires c.usingTimer && m <= 5 && l < FULL
    ensures var b := Programmed(c, m, l);
      && b.count == c.count && b.s1Det == c.s1Det
      && b.l == if l != 1 then l else if m == 2 then 2 else if m == 3 then 0 else 1
  {
  }

  lemma LoadedReads(c: T.Ctr)
    requires c.state % 4 == 1 && !c.latch && c.l < FULL
    ensures var d := T.Tick(c); T.Readable(d) == c.l
  {
    hide T.Step0, T.Step1, T.Step2, T.Step3, T.Step45;
    var d := T.Tick(c);
    assert d.count == Initial(c.l) && !d.latch && d.state == c.state + 1;
    ReadsInitial(c.l);
  }

  lemma ReadsInitial(l: nat)
    requires l < FULL
    ensures Initial(l) % 0x10000 == l
  {
  }

  // ---- Reads of the deadline counter ----

  /** The ticks left until a deadline, rounded down. */
  lemma TicksLeft(q: nat, rest: nat, unit: nat)
    requires rest < unit
    ensures (q * unit + rest) / unit == q
  {
    ModUnique(q * unit + rest, q, rest, unit);
  }

  /** With q whole ticks and a fraction to go a running counter reads q, 65536 at most; one
      more in mode 2, and twice as much in mode 3. Past the deadline nothing is left. */
  lemma RunningReads(f: F.Fast, now: nat, q: nat, rest: nat)
    requires f.usingTimer && (f.m != 3 || f.gate) && rest < f.unit
    requires f.deadline == Some(now + q * f.unit + rest)
      || (q == rest == 0 && f.deadline.Some? && f.deadline.value < now)
    ensures F.Read(f, now) ==
      if f.m == 2 then (if q < FULL then q + 1 else FULL)
      else if f.m == 3 then (if q <= FULL then 2 * q else 2 * FULL)
      else if q <= FULL then q else FULL
  {
    TicksLeft(q, rest, f.unit);
  }

  /** A stopped counter reads the count it was stopped with; in mode 3 any counter whose
      gate is low does. */
  lemma StoppedReads(f: F.Fast, now: nat)
    requires f.deadline.None? || !f.usingTimer || (f.m == 3 && !f.gate)
    ensures F.Read(f, now) == if f.m == 2 then f.count + 1 else f.count
  {
  }

  /** What a falling gate leaves to be read, at any later time: in modes 0, 2 and 4 what was
      to be read when it fell. */
  lemma GateKeepsRead(f: F.Fast, now: nat, later: nat)
    requires f.usingTimer && !f.disabled && f.gate && f.running && f.deadline.Some?
    requires f.m == 0 || f.m == 2 || f.m == 4
    ensures F.Read(F.SetGate(f, false, now), later) == F.Read(f, now)
  {
    var g := f.(enabled := false).(gate := false).(running := false);
    assert F.SetGate(f, false, now) == F.Dump(g, now) by { hide F.Read; }
    ReadsAlike(f, g, now);
    hide F.Read;
    StoppedReads(F.Dump(g, now), later);
  }

  lemma ReadsAlike(f: F.Fast, g: F.Fast, now: nat)
    requires f.m == g.m != 3 && f.usingTimer == g.usingTimer && f.deadline == g.deadline && f.unit == g.unit
    requires f.count == g.count
    ensures F.Read(f, now) == F.Read(g, now)
  {
  }

  /** In mode 3 it leaves the count from the last load or expiry instead. */
  lemma SquareKeepsCount(f: F.Fast, now: nat, later: nat)
    requires f.usingTimer && !f.disabled && f.m == 3 && f.deadline.Some?
    ensures F.Read(F.SetGate(f, false, now), later) == f.count
  {
  }

  // ---- Running ----

  /** Everything but the count, the deadline, OUT and whether the counter is enabled, running
      or has expired. */
  predicate SameSetting(f: F.Fast, g: F.Fast) {
    && g.m == f.m && g.l == f.l && g.gate == f.gate && g.disabled == f.disabled && g.initial == f.initial
    && g.newcount == f.newcount && g.usingTimer == f.usingTimer && g.unit == f.unit
  }

  lemma StartKeeps(f: F.Fast, n: int, ticks: nat, out: bool, now: nat)
    ensures var g := F.Start(f, n, ticks, out, now); SameSetting(f, g) && !g.thit && g.enabled == f.enabled
  {
    hide F.Due, F.Falls, F.Rises;
  }

  /** The starts that a write and a gate change can make. */
  lemma StartsKeep(f: F.Fast, now: nat)
    ensures var n := Initial(f.l);
      && SameSetting(f, F.Start(f, n, n, false, now)) && !F.Start(f, n, n, false, now).thit
      && SameSetting(f, F.Start(f, n - 1, n - 1, true, now)) && !F.Start(f, n - 1, n - 1, true, now).thit
      && SameSetting(f, F.Start(f, n - 1, n, true, now)) && !F.Start(f, n - 1, n, true, now).thit
      && SameSetting(f, F.Start(f, n, (n + 1) / 2, true, now)) && !F.Start(f, n, (n + 1) / 2, true, now).thit
  {
    hide F.Start, SameSetting;
    var n := Initial(f.l);
    StartKeeps(f, n, n, false, now);
    StartKeeps(f, n - 1, n - 1, true, now);
    StartKeeps(f, n - 1, n, true, now);
    StartKeeps(f, n, (n + 1) / 2, true, now);
  }

  lemma LoadedKeeps(f: F.Fast, now: nat)
    requires f.usingTimer && f.m <= 5
    ensures var g := F.Loaded(f, now);
      && g.usingTimer && g.disabled == f.disabled && g.l == f.l && g.m == f.m
      && g.enabled == (f.m == 1 || f.m == 5 || f.gate)
      && (f.initial && !f.thit && !f.newcount ==> !g.thit && !g.newcount)
  {
    hide F.Start;
    StartsKeep(f, now);
    if f.m == 0 {} else if f.m == 1 {} else if f.m == 2 {} else if f.m == 3 {} else if f.m == 4 {} else {}
  }

  lemma GatedKeeps(f: F.Fast, gate: bool, now: nat)
    ensures var g := F.Gated(f, gate, now); g.usingTimer == f.usingTimer && g.disabled == f.disabled
  {
    hide F.Start, F.Due;
    StartsKeep(f, now);
    if f.m == 0 {} else if f.m == 1 {} else if f.m == 2 {} else if f.m == 3 {} else if f.m == 4 {} else if f.m == 5 {}
  }

  lemma SettleKeeps(f: F.Fast, now: nat)
    requires f.usingTimer
    ensures var g := F.Settle(f, now);
      && SameSetting(f, g) && g.enabled == f.enabled && g.thit == f.thit
      && g.running == (f.enabled && !f.disabled) && (!g.running ==> g.deadline.None?)
  {
    hide F.Read;
  }

  /** After a count or a gate change a counter on the timer is running if and only if it is
      enabled, and has no deadline if it is not. */
  lemma Settled(f: F.Fast, gate: bool, l: nat, now: nat)
    requires f.usingTimer && f.m <= 5
    ensures var g := F.Load(f, l, now); g.running == g.enabled && (!g.running ==> g.deadline.None?) && !g.disabled
    ensures !f.disabled ==>
      var g := F.SetGate(f, gate, now); g.running == g.enabled && (!g.running ==> g.deadline.None?)
    ensures f.disabled ==> F.SetGate(f, gate, now) == f.(gate := gate)
  {
    hide F.Loaded, F.Gated, F.Settle;
    var e := f.(l := l, newcount := false, disabled := false);
    LoadedKeeps(e, now);
    SettleKeeps(F.Loaded(e, now).(initial := false), now);
    GatedKeeps(f, gate, now);
    SettleKeeps(F.Gated(f, gate, now).(gate := gate), now);
  }

  /** Which counters a write enables: the triggered ones always, the others by their gate. */
  lemma WriteEnables(f: F.Fast, m: nat, l: nat, now: nat)
    requires f.usingTimer && m <= 5
    ensures var g := Written(f, m, l, now);
      && g.enabled == (m == 1 || m == 5 || f.gate) && g.l == l && g.m == m
      && !g.initial && !g.newcount && !g.disabled && !g.thit
  {
    hide F.Loaded, F.Settle;
    var e := F.Control(f, m, now).(l := l, newcount := false, disabled := false);
    LoadedKeeps(e, now);
    SettleKeeps(F.Loaded(e, now).(initial := false), now);
  }

  // ---- Held by a control word ----

  /** From a control word on, OUT is low in mode 0 and high in the others, and both counters
      make no edge until a count is written. */
  lemma {:induction false} HeldUntil(f: F.Fast, until: nat)
    requires f.disabled
    ensures var g := RunUntil(f, until); g.disabled && g.out == f.out && g.falls == f.falls && g.rises == f.rises
    decreases Ahead(f, until), f.out
  {
    if f.deadline.Some? && f.deadline.value <= until {
      OverMovesOn(f);
      HeldOver(f);
      hide F.Over;
      HeldUntil(F.Over(f), until);
    }
  }

  lemma HeldOver(f: F.Fast)
    requires f.disabled && f.deadline.Some?
    ensures var g := F.Over(f);
      && g.disabled && g.out == f.out && g.falls == f.falls && g.rises == f.rises && g.count == f.count + 0xffff
  {
    hide F.Expiring;
  }

  lemma ControlHoldsDeadline(f: F.Fast, m: nat, now: nat, until: nat)
    ensures var g := RunUntil(F.Control(f, m, now), until);
      && g.out == (m != 0)
      && g.falls == (if f.out && m == 0 then f.falls + [now] else f.falls)
      && g.rises == (if !f.out && m != 0 then f.rises + [now] else f.rises)
  {
    hide RunUntil;
    HeldUntil(F.Control(f, m, now), until);
  }

  lemma {:induction false} IdleHolds(c: T.Ctr, n: nat)
    requires c.state == 0 && c.m <= 5
    ensures var d := T.Ticks(c, n); d == c.(ticks := c.ticks + n, count := d.count)
  {
    hide T.Tick;
    if n > 0 {
      IdleHolds(c, n - 1);
      IdleTick(T.Ticks(c, n - 1));
    }
  }

  lemma IdleTick(c: T.Ctr)
    requires c.state == 0 && c.m <= 5
    ensures T.Tick(c) == c.(ticks := c.ticks + 1, count := T.Tick(c).count)
  {
    hide T.Step, T.RunOn;
    var d := c.(ticks := c.ticks + 1);
    if c.m <= 3 {
      IdleStays(d);
    } else {
      IdleRuns(d);
      CountsOn(d);
    }
  }

  lemma IdleStays(c: T.Ctr)
    requires c.state == 0 && c.m <= 3
    ensures T.Step(c) == c
  {
    hide T.Reload, T.CountDown, T.RunOn, T.Restarted, T.HalfStep, T.Step45;
    if c.m == 0 {} else if c.m == 1 {} else if c.m == 2 {} else {}
  }

  lemma IdleRuns(c: T.Ctr)
    requires c.state == 0 && (c.m == 4 || c.m == 5)
    ensures T.Step(c) == if c.m == 5 || c.gate then T.RunOn(c) else c
  {
    hide T.Reload, T.CountDown, T.RunOn, T.Restarted, T.HalfStep, T.Step0, T.Step1, T.Step2, T.Step3;
    assert c.m == 4 && !c.gate ==> T.Step(c) == c;
    assert c.m == 5 || c.gate ==> T.Step(c) == T.Step45(c);
  }

  lemma CountsOn(c: T.Ctr)
    ensures T.RunOn(c) == c.(count := T.RunOn(c).count)
  {
    hide T.Decrease;
  }

  lemma ControlHoldsTicking(c: T.Ctr, m: nat, n: nat)
    requires m <= 5
    ensures var d := T.Ticks(T.Control(c, m), n);
      && d.out == (m != 0) && d.state == 0
      && d.falls == (if c.out && m == 0 then c.falls + [c.ticks] else c.falls)
      && d.rises == (if !c.out && m != 0 then c.rises + [c.ticks] else c.rises)
  {
    hide T.Ticks;
    IdleHolds(T.Control(c, m), n);
  }

  // ---- Waiting for a trigger ----

  /** A programmed one-shot waits for its trigger with OUT high and makes no edge, even if a
      deadline of what the counter did before is still to come. */
  lemma {:induction false} ShotWaits(f: F.Fast, until: nat)
    requires f.m == 1 && f.out && f.usingTimer && !f.disabled && f.enabled
    ensures var g := RunUntil(f, until); g.out && g.falls == f.falls && g.rises == f.rises
    decreases Ahead(f, until), f.out
  {
    if f.deadline.Some? && f.deadline.value <= until {
      OverMovesOn(f);
      ShotOver(f);
      hide F.Over;
      ShotWaits(F.Over(f), until);
    }
  }

  lemma ShotOver(f: F.Fast)
    requires f.m == 1 && f.out && f.usingTimer && !f.disabled && f.enabled && f.deadline.Some?
    ensures var g := F.Over(f);
      && g.m == 1 && g.out && g.usingTimer && !g.disabled && g.enabled
      && g.falls == f.falls && g.rises == f.rises
  {
    hide F.Read, F.After;
  }

  lemma ProgrammedShotWaits(f: F.Fast, l: nat, now: nat, until: nat)
    requires f.usingTimer
    ensures var g := Written(f, 1, l, now); var h := RunUntil(g, until);
      h.out && h.falls == f.falls && h.rises == if f.out then f.rises else f.rises + [now]
  {
    hide RunUntil;
    ShotOfControl(f, l, now);
    ShotWaits(Written(f, 1, l, now), until);
  }

  lemma ShotOfControl(f: F.Fast, l: nat, now: nat)
    requires f.usingTimer
    ensures var g := Written(f, 1, l, now);
      && g.m == 1 && g.out && g.usingTimer && !g.disabled && g.enabled
      && g.falls == f.falls && g.rises == if f.out then f.rises else f.rises + [now]
  {
    hide F.Read;
  }

  /** A programmed hardware strobe does not wait if there is such a deadline: OUT then pulses
      at it, once, without a trigger. */
  lemma StaleStrobe(f: F.Fast, l: nat, now: nat, until: nat)
    requires f.usingTimer
    ensures var g := Written(f, 5, l, now); var h := RunUntil(g, until);
      && h.out && g.deadline == f.deadline
      && h.falls == (if f.deadline.Some? && f.deadline.value <= until then f.falls + [f.deadline.value] else f.falls)
  {
    hide RunUntil;
    StrobeOfControl(f, l, now);
    var g := Written(f, 5, l, now);
    FirstOver(g, until);
    if g.deadline.Some? && g.deadline.value <= until {
      StrobeOver(g);
      HitStrobe(F.Over(g), until);
    }
  }

  lemma StrobeOfControl(f: F.Fast, l: nat, now: nat)
    requires f.usingTimer
    ensures var g := Written(f, 5, l, now);
      && g.m == 5 && g.out && g.usingTimer && !g.disabled && g.enabled && !g.thit
      && g.falls == f.falls && g.deadline == f.deadline
  {
    hide F.Read;
  }

  lemma FirstOver(f: F.Fast, until: nat)
    requires f.m == 5
    ensures RunUntil(f, until) ==
      if f.deadline.Some? && f.deadline.value <= until then RunUntil(F.Over(f), until) else f
  {
    hide F.Over;
    if f.deadline.Some? { OverMovesOn(f); }
  }

  lemma StrobeOver(f: F.Fast)
    requires f.m == 5 && f.out && f.usingTimer && !f.disabled && f.enabled && f.deadline.Some?
    ensures var g := F.Over(f);
      && g.m == 5 && g.out && g.usingTimer && !g.disabled && g.enabled && g.thit
      && g.falls == if f.thit then f.falls else f.falls + [f.deadline.value]
  {
    hide F.Read, F.After;
  }

  lemma {:induction false} HitStrobe(f: F.Fast, until: nat)
    requires f.m == 5 && f.out && f.usingTimer && !f.disabled && f.enabled && f.thit
    ensures var g := RunUntil(f, until); g.out && g.falls == f.falls
    decreases Ahead(f, until), f.out
  {
    hide F.Over;
    FirstOver(f, until);
    if f.deadline.Some? && f.deadline.value <= until {
      OverMovesOn(f);
      StrobeOver(f);
      HitStrobe(F.Over(f), until);
    }
  }
}
