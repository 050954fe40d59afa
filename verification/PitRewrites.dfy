/** A count written to a counter that is already running, and a counter that waits. */
module PitRewrites {
  import opened Options
  import opened PitCount
  import T = PitTicking
  import F = PitFast
  import opened PitRates
  import opened PitShots
  import opened PitPrograms
  import opened Division

  // ---- What a write does at once ----

  /** In every mode but 0 and 4 a counter that is not idle goes on with the count it has. The
      cycle that takes the written value is not counted: it costs the counter a tick. */
  lemma RewriteWaits(c: T.Ctr, l: nat)
    requires Steady(c) && !c.incomplete && c.m % 4 != 0 && c.state != 0 && l < FULL
    ensures Cycle(T.Load(c, l)) == c.(l := if l == 1 && c.m == 2 then 2 else if l == 1 && c.m == 3 then 0 else l)
  {
    hide Cycle;
    TakingCycle(T.Load(c, l));
  }

  /** In modes 0 and 4, from idle, or after a load in the middle of a two-byte write, the
      written value is loaded by the next tick instead. */
  lemma RewriteReloads(c: T.Ctr, l: nat)
    requires Steady(c) && (c.incomplete || c.m == 0 || c.m == 4 || c.state == 0) && c.m <= 5 && l < FULL
    ensures var d := Cycle(T.Load(c, l)); var e := Cycle(d);
      && d.state == (if c.m == 1 || c.m == 5 then 5 else 1) && d.ticks == c.ticks && d.count == c.count
      && e.count == Initial(d.l) && e.state == d.state + 1 && e.ticks == c.ticks + 1
      && (l != 1 ==> d.l == l) && e.incomplete == c.highNext
  {
    hide Cycle, T.Tick;
    TakingCycle(T.Load(c, l));
    CycleIsTick(Cycle(T.Load(c, l)));
    LoadingTick(Cycle(T.Load(c, l)));
  }

  lemma LoadingTick(c: T.Ctr)
    requires c.state % 4 == 1
    ensures var d := T.Tick(c);
      && d.count == Initial(c.l) && d.state == c.state + 1 && d.ticks == c.ticks + 1
      && d.incomplete == c.highNext && !d.nullCount
  {
    hide T.Step0, T.Step1, T.Step2, T.Step3, T.Step45;
  }

  /** The null count flag is set from the control word until the count is in place. */
  lemma NullUntilLoaded(c: T.Ctr, m: nat, l: nat)
    requires c.usingTimer && c.s1Det == 0 && m <= 5 && l < FULL
    ensures var b := Programmed(c, m, l); b.nullCount && Cycle(b).nullCount && !Cycle(Cycle(b)).nullCount
  {
    hide Cycle, T.Tick, Programmed;
    Reloads(c, m, l);
    ProgrammedWaits(c, m, l);
    ProgrammedNull(c, m, l);
    CycleIsTick(Cycle(Programmed(c, m, l)));
    LoadingTick(Cycle(Programmed(c, m, l)));
  }

  lemma ProgrammedNull(c: T.Ctr, m: nat, l: nat)
    requires c.usingTimer
    ensures Programmed(c, m, l).nullCount && Programmed(c, m, l).s1Det == c.s1Det
  {
  }

  /** The deadline counter too keeps its deadline, and loses nothing. */
  lemma RewriteKeepsDeadline(f: F.Fast, l: nat, now: nat)
    requires f.usingTimer && f.running && f.enabled && !f.disabled && !f.initial && !f.newcount && l < FULL
    requires f.m == 1 || f.m == 5 || ((f.m == 2 || f.m == 3) && f.gate)
    ensures F.Load(f, l, now) == f.(l := l)
  {
    hide F.Read;
  }

  /** In mode 0 both start over with the new count, and OUT goes low at once. */
  lemma RewriteRestartsCount(c: T.Ctr, f: F.Fast, l: nat, now: nat)
    requires Steady(c) && c.m == 0 && c.gate && l < FULL
    requires f.usingTimer && !f.disabled && f.m == 0 && f.gate
    ensures var d := Cycle(Cycle(T.Load(c, l)));
      && Counting(d, Initial(l)) && d.ticks == c.ticks + 1 && d.rises == c.rises
      && d.falls == if c.out then c.falls + [c.ticks] else c.falls
    ensures var g := F.Load(f, l, now);
      && Armed(g, Initial(l), now) && g.unit == f.unit && g.rises == f.rises
      && g.falls == if f.out then f.falls + [now] else f.falls
  {
    hide Cycle, T.Step0, T.Step1, T.Step2, T.Step3, T.Step45, F.Read;
    TakingCycle(T.Load(c, l));
    CycleIsTick(Cycle(T.Load(c, l)));
  }

  /** A count M written to a strobe that is still to come: the deadline counter strobes at
      its time all the same, and again M ticks later; the ticking one only M ticks after it
      has loaded the new count (RewriteReloads). */
  lemma RewrittenStrobe(f: F.Fast, l: nat, now: nat)
    requires f.usingTimer && f.running && f.enabled && f.gate && !f.disabled && !f.initial && !f.thit && f.m == 4
    requires f.deadline.Some? && l < FULL
    ensures var g := F.Load(f, l, now); g == f.(l := l, newcount := true)
    ensures var g := F.Over(F.Load(f, l, now)); var first := f.deadline.value;
      && g.deadline == Some(F.After(first, Initial(l), f.unit)) && g.out
      && g.falls == (if f.out then f.falls + [first] else f.falls) && g.rises == f.rises + [first]
      && var h := F.Over(g); var second := g.deadline.value;
         h.thit && h.out && h.falls == g.falls + [second] && h.rises == g.rises + [second]
  {
    hide F.Read, F.After;
    var e := f.(l := l, newcount := true);
    assert F.Load(f, l, now) == e;
    StrobeAgain(e);
    StrobeLast(F.Over(e));
  }

  lemma StrobeAgain(f: F.Fast)
    requires f.usingTimer && f.running && f.enabled && !f.disabled && !f.thit && f.m == 4 && f.newcount
    requires f.deadline.Some?
    ensures var g := F.Over(f); var at := f.deadline.value;
      && g.deadline == Some(F.After(at, Initial(f.l), f.unit)) && g.out && !g.thit && !g.newcount && g.m == 4
      && g.usingTimer && g.enabled && !g.disabled && g.falls == (if f.out then f.falls + [at] else f.falls)
      && g.rises == f.rises + [at] && g.count == f.count + Initial(f.l)
  {
    hide F.Read, F.After;
  }

  lemma StrobeLast(f: F.Fast)
    requires f.usingTimer && f.enabled && !f.disabled && !f.thit && f.m == 4 && !f.newcount && f.out
    requires f.deadline.Some?
    ensures var g := F.Over(f); var at := f.deadline.value;
      g.thit && g.out && g.falls == f.falls + [at] && g.rises == f.rises + [at]
  {
    hide F.Read, F.After;
  }

  /** One written after the strobe starts a new one at once. */
  lemma StrobeStartsAgain(f: F.Fast, l: nat, now: nat)
    requires f.usingTimer && !f.disabled && f.gate && f.m == 4 && f.thit && l < FULL
    ensures var g := F.Load(f, l, now);
      && g.deadline == Some(F.After(now, Initial(l), f.unit)) && !g.out && !g.thit && !g.newcount && g.running
      && g.falls == if f.out then f.falls + [now] else f.falls
  {
    hide F.Read, F.After;
  }

  // ---- Waiting for a trigger ----

  /** A one-shot or a hardware strobe that has been given a count and waits counts on from
      it, below zero to 65535, with OUT high and without an edge, until its gate rises. */
  lemma {:induction false} WaitingRunsOn(c: T.Ctr, n: nat)
    requires (c.m == 1 || c.m == 5) && c.state == 6 && 0 <= c.count <= FULL
    ensures T.Ticks(c, n) == c.(ticks := c.ticks + n, count := if n == 0 then c.count else (c.count - n) % FULL)
  {
    hide T.Tick;
    if n > 0 {
      WaitingRunsOn(c, n - 1);
      WaitingTick(T.Ticks(c, n - 1));
      OneDown(c.count, n);
    }
  }

  lemma WaitingTick(c: T.Ctr)
    requires (c.m == 1 || c.m == 5) && c.state == 6
    ensures T.Tick(c) == c.(ticks := c.ticks + 1, count := (c.count - 1) % 0x10000)
  {
    hide T.Step0, T.Step2, T.Step3, T.Reload, T.CountDown, T.RunOn, T.SetOut;
    var d := c.(ticks := c.ticks + 1);
    assert d.state == 6 && d.m == c.m;
    assert T.Step(d) == if d.m == 1 then T.Step1(d) else T.Step45(d);
    assert T.Tick(c) == T.RunOn(d);
    RunsOn(d);
  }

  lemma RunsOn(c: T.Ctr)
    ensures T.RunOn(c) == c.(count := (c.count - 1) % 0x10000)
  {
  }

  lemma OneDown(count: int, n: nat)
    requires n > 0
    ensures ((count - (n - 1)) % 0x10000 - 1) % 0x10000 == (count - n) % 0x10000
  {
  }

  // ---- Rate generators ----

  /** The counter is counting in mode 2 with q to go. */
  predicate Running(c: T.Ctr, q: nat) {
    c.m == 2 && c.gate && c.out && c.state == 2 && !c.latch && 2 <= q <= FULL && c.count == q
  }

  lemma RunsOneDown(c: T.Ctr, q: nat)
    requires Running(c, q) && q > 2
    ensures T.Tick(c) == c.(ticks := c.ticks + 1, count := q - 1)
  {
    hide T.Restarted, T.Step0, T.Step1, T.Step3, T.Step45;
  }

  lemma {:induction false} RunsDown(c: T.Ctr, q: nat, s: nat)
    requires Running(c, q) && s + 2 <= q
    ensures T.Ticks(c, s) == c.(ticks := c.ticks + s, count := q - s)
  {
    hide T.Tick;
    if s > 0 {
      RunsDown(c, q, s - 1);
      RunsOneDown(T.Ticks(c, s - 1), q - s + 1);
    }
  }

  /** One period after the other in the end: OUT falls, and the new count is loaded. */
  lemma PeriodEnds(c: T.Ctr)
    requires Running(c, 2)
    ensures T.Tick(c)
      == c.(ticks := c.ticks + 1, count := 1, state := 3, out := false, falls := c.falls + [c.ticks + 1])
  {
    hide T.Restarted, T.Step0, T.Step1, T.Step3, T.Step45;
  }

  lemma PeriodReloads(c: T.Ctr)
    requires c.m == 2 && c.gate && !c.out && c.state == 3 && !c.latch && 2 <= Initial(c.l) <= FULL
    ensures var d := T.Tick(c); JustLoaded(d, Initial(c.l)) && d.ticks == c.ticks + 1 && d.falls == c.falls
  {
    hide T.Step0, T.Step1, T.Step3, T.Step45, T.Decrease;
  }

  lemma {:induction false} TicksAfter(c: T.Ctr, a: nat, b: nat)
    ensures T.Ticks(T.Ticks(c, a), b) == T.Ticks(c, a + b)
  {
    hide T.Tick;
    if b > 0 { TicksAfter(c, a, b - 1); }
  }

  /** The falling edges from the middle of a period on. */
  lemma RunningFalls(c: T.Ctr, q: nat, u: nat)
    requires Running(c, q) && 2 <= Initial(c.l) <= FULL
    ensures var m := Initial(c.l);
      T.Ticks(c, u).falls == c.falls + Progression(c.ticks + q - 1, m, MarksBy(q - 1, m, u))
  {
    hide T.Tick, T.Ticks, Progression, MarksBy;
    var m := Initial(c.l);
    MarksAfter(q, m, u);
    if u + 2 <= q {
      RunsDown(c, q, u);
      ProgressionNone(c.ticks + q - 1, m);
      assert c.falls + [] == c.falls;
    } else {
      RunsOut(c, q);
      ProgressionOne(c.ticks + q - 1, m);
      if u >= q {
        OneTick(c, q - 1);
        LastTickFalls(T.Ticks(c, q - 1), u - q + 1);
        TicksAfter(c, q - 1, u - q + 1);
        MarksLater(m - 1, m, u - q, 1);
        ProgressionCons(c.ticks + q - 1, m, MarksBy(m - 1, m, u - q));
        Regroup(c.falls, c.ticks + q - 1, Progression(c.ticks + q - 1 + m, m, MarksBy(m - 1, m, u - q)));
      }
    }
  }

  /** The last tick of the period. */
  lemma RunsOut(c: T.Ctr, q: nat)
    requires Running(c, q)
    ensures T.Ticks(c, q - 1)
      == c.(ticks := c.ticks + q - 1, count := 1, state := 3, out := false, falls := c.falls + [c.ticks + q - 1])
  {
    hide T.Tick, T.Ticks;
    RunsDown(c, q, q - 2);
    PeriodEnds(T.Ticks(c, q - 2));
    OneTick(c, q - 2);
  }

  lemma Regroup(a: seq<nat>, x: nat, b: seq<nat>)
    ensures a + [x] + b == a + ([x] + b)
  {
  }

  lemma OneTick(c: T.Ctr, n: nat)
    ensures T.Ticks(c, n + 1) == T.Tick(T.Ticks(c, n))
  {
    hide T.Tick;
  }

  lemma ProgressionNone(first: nat, n: nat)
    ensures Progression(first, n, 0) == []
  {
  }

  lemma ProgressionOne(first: nat, n: nat)
    ensures Progression(first, n, 1) == [first]
  {
    MarkNext(first, n, 0);
    ProgressionNone(first, n);
  }

  lemma {:induction false} ProgressionCons(first: nat, n: nat, k: nat)
    ensures Progression(first, n, k + 1) == [first] + Progression(first + n, n, k)
  {
    if k == 0 {
      ProgressionOne(first, n);
    } else {
      ProgressionCons(first, n, k - 1);
      assert Mark(first, n, k) == Mark(first + n, n, k - 1) by { assert n * k == n * (k - 1) + n; }
      hide Mark;
    }
  }

  lemma MarksAfter(q: nat, m: nat, u: nat)
    requires q > 0 && m > 0
    ensures u + 1 < q ==> MarksBy(q - 1, m, u) == 0
    ensures u + 1 == q ==> MarksBy(q - 1, m, u) == 1
    ensures u >= q ==> MarksBy(q - 1, m, u) == 1 + MarksBy(m - 1, m, u - q)
  {
    if u + 1 == q { ModUnique(0, 0, 0, m); }
    if u >= q {
      var x := u - (q - 1);
      if x < m { ModUnique(x, 0, x, m); } else { ModUnique(x, (x - m) / m + 1, (x - m) % m, m); }
    }
  }

  lemma {:induction false} TicksCount(c: T.Ctr, n: nat)
    ensures T.Ticks(c, n).ticks == c.ticks + n
  {
    hide T.Tick;
    if n > 0 {
      TicksCount(c, n - 1);
      OneMoreTick(T.Ticks(c, n - 1));
    }
  }

  lemma OneMoreTick(c: T.Ctr)
    ensures T.Tick(c).ticks == c.ticks + 1
  {
    hide T.Step;
    T.StepKeepsInputs(c.(ticks := c.ticks + 1));
  }

  lemma MarksLater(a: nat, m: nat, u: nat, t: nat)
    requires m > 0
    ensures MarksBy(a + t, m, u + t) == MarksBy(a, m, u)
  {
  }

  /** The first falling edge after a count m is written t ticks into a period of n, if the
      counter is in its last tick then, and if not. */
  function Coming(t: nat, n: nat, low: nat): nat
    requires n > 0
  {
    if Phase(t, n) == n - 1 then t + low else t + n - 1 - Phase(t, n)
  }

  lemma ComingIsLater(t: nat, n: nat, low: nat)
    requires n > 0
    ensures Phase(t, n) < n && Coming(t, n, low) >= t
  {
  }

  lemma RewrittenCycles(c: T.Ctr, l: nat, u: nat)
    requires Steady(c) && !c.incomplete && c.m == 2 && c.state != 0 && l < FULL && l != 1
    ensures Cycles(T.Load(c, l), u + 1) == T.Ticks(c.(l := l), u)
  {
    hide T.Load, T.Ticks, Cycle, Cycles;
    RewriteWaits(c, l);
    CyclesFrom(T.Load(c, l), u);
    CyclesAreTicks(c.(l := l), u);
  }

  lemma RewrittenTicking(c: T.Ctr, n: nat, l: nat, t: nat, u: nat)
    requires JustLoaded(c, n) && Steady(c) && !c.incomplete && l < FULL && l != 1
    ensures var m, d := Initial(l), T.Ticks(c, t); var w := Cycles(T.Load(d, l), u + 1); var first := Coming(t, n, m);
      && w.ticks == c.ticks + t + u
      && w.falls == d.falls + Progression(c.ticks + first, m, MarksBy(first, m, t + u))
  {
    hide T.Tick, T.Ticks, T.Load, Cycles, Progression, MarksBy, Phase, Periods, Mark;
    var m, d := Initial(l), T.Ticks(c, t);
    RateTicks(c, n, t);
    CyclesAreTicks(c, t);
    TicksCount(c, t);
    RewrittenCycles(d, l, u);
    var e := d.(l := l);
    TicksCount(e, u);
    var r := Phase(t, n);
    if r != n - 1 {
      RunningFalls(e, n - r, u);
      MarksLater(n - r - 1, m, u, t);
    } else {
      LastTickFalls(e, u);
      MarksLater(m, m, u, t);
    }
  }

  /** The falling edges from the last tick of a period on. */
  lemma LastTickFalls(c: T.Ctr, u: nat)
    requires c.m == 2 && c.gate && !c.out && c.state == 3 && !c.latch && 2 <= Initial(c.l) <= FULL
    ensures var m := Initial(c.l); T.Ticks(c, u).falls == c.falls + Progression(c.ticks + m, m, MarksBy(m, m, u))
  {
    hide T.Tick, T.Ticks, Progression, MarksBy;
    var m := Initial(c.l);
    if u == 0 {
      NoTicks(c);
      MarksAfter(m + 1, m, 0);
      ProgressionNone(c.ticks + m, m);
      assert c.falls + [] == c.falls;
    } else {
      PeriodReloads(c);
      NoTicks(c);
      OneTick(c, 0);
      TicksAfter(c, 1, u - 1);
      TickingFalls(T.Tick(c), m, u - 1);
      MarksLater(m - 1, m, u - 1, 1);
    }
  }

  lemma NoTicks(c: T.Ctr)
    ensures T.Ticks(c, 0) == c
  {
  }

  lemma RewrittenDeadline(f: F.Fast, n: nat, l: nat, start: nat, t: nat, u: nat)
    requires n >= 2 && JustStarted(f, n, start, n - 1) && !f.initial && !f.newcount && l < FULL
    ensures var m := Initial(l); var now := F.After(start, t, f.unit); var e := RunUntil(f, now);
      var due := Coming(t, n, n);
      RunUntil(F.Load(e, l, now), F.After(start, t + u, f.unit)).falls
        == e.falls + Times(start, due, m, f.unit, MarksBy(due, m, t + u))
  {
    hide F.Load, RunUntil, F.After, Times, MarksBy, Phase, Periods, Mark;
    var now := F.After(start, t, f.unit);
    DueUntil(f, n, start, n - 1, t, 0);
    DueMark(n, t);
    var e := RunUntil(f, now);
    RewriteKeepsDeadline(e, l, now);
    DeadlineFalls(e.(l := l), Initial(l), start, Coming(t, n, n), t + u, 0);
  }

  lemma DueMark(n: nat, t: nat)
    requires n >= 2
    ensures Mark(n - 1, n, MarksBy(n - 1, n, t)) == Coming(t, n, n)
  {
    hide MarksBy;
    MarksByPeriods(n, t);
    var k, r := t / n, t % n;
    assert t == n * k + r;
    assert n * (k + 1) == n * k + n;
  }

  lemma OtherMarks(origin: nat, first: nat, due: nat, start: nat, m: nat, unit: nat, at: nat)
    requires first != due && unit > 0 && m > 0
    ensures var edges := Progression(origin + first, m, MarksBy(first, m, at));
      var times := Times(start, due, m, unit, MarksBy(due, m, at));
      SameEdges(edges, origin, times, start, unit) <==> at < first && at < due
  {
    hide Progression, Times, F.After, Mark;
    var a, b := MarksBy(first, m, at), MarksBy(due, m, at);
    if a > 0 && b > 0 {
      ProgressionAt(origin + first, m, a, 0);
      TimesAt(start, due, m, unit, b, 0);
      MarkNext(origin + first, m, 0);
      MarkNext(due, m, 0);
      AfterDiffers(start, first, due, unit);
    } else if at >= first {
      assert a > 0 && |Progression(origin + first, m, a)| == a;
    }
  }

  lemma AfterDiffers(start: nat, a: nat, b: nat, unit: nat)
    requires a != b && unit > 0
    ensures F.After(start, a, unit) != F.After(start, b, unit)
  {
    AfterCompares(start, a, b, unit, 0);
    AfterCompares(start, b, a, unit, 0);
  }

  /** A count M written t ticks into a rate generator of N. Both finish the period and go on
      with M; in the last tick of a period, while OUT is low, the ticking counter still takes
      M for the next period and the other has already begun another N. So their further
      falling edges, counted in ticks, are the same if and only if it was not then, or M is
      N, or none of them has come. The ticking counter spends a clock cycle more on it. */
  lemma RewrittenRates(c: T.Ctr, f: F.Fast, n: nat, l: nat, start: nat, t: nat, u: nat)
    requires JustLoaded(c, n) && Steady(c) && !c.incomplete && JustStarted(f, n, start, n - 1)
    requires !f.initial && !f.newcount && l < FULL && l != 1
    ensures var m := Initial(l); var now := F.After(start, t, f.unit);
      var d := T.Ticks(c, t); var e := RunUntil(f, now);
      var edges := Cycles(T.Load(d, l), u + 1); var times := RunUntil(F.Load(e, l, now), F.After(start, t + u, f.unit));
      && edges.ticks == c.ticks + t + u
      && |d.falls| <= |edges.falls| && |e.falls| <= |times.falls|
      && (SameEdges(edges.falls[|d.falls|..], c.ticks, times.falls[|e.falls|..], start, f.unit)
          <==> Phase(t, n) != n - 1 || m == n || (u < n && u < m))
  {
    hide T.Ticks, T.Load, F.Load, RunUntil, F.After, Cycles, Progression, Times, SameEdges, Periods, MarksBy, Mark;
    var m, d := Initial(l), T.Ticks(c, t);
    var e := RunUntil(f, F.After(start, t, f.unit));
    RewrittenTicking(c, n, l, t, u);
    RewrittenDeadline(f, n, l, start, t, u);
    var first, due := Coming(t, n, m), Coming(t, n, n);
    TailOf(d.falls, Progression(c.ticks + first, m, MarksBy(first, m, t + u)));
    TailOf(e.falls, Times(start, due, m, f.unit, MarksBy(due, m, t + u)));
    if first == due {
      SameMarks(c.ticks, c.ticks + first, start, first, m, f.unit, MarksBy(first, m, t + u));
    } else {
      OtherMarks(c.ticks, first, due, start, m, f.unit, t + u);
    }
  }
}
