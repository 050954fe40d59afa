/** The deadline-driven counter refines the ticking one: interrupt on terminal count
    (mode 0) and the one-shot (mode 1). */
module PitShots {
  import opened Options
  import opened PitCount
  import T = PitTicking
  import F = PitFast
  import opened PitRates
  import opened Division

  // ---- Ticking ----

  /** The count n has just been loaded and OUT is low. */
  predicate Counting(c: T.Ctr, n: nat) {
    && 1 <= n <= FULL && n == Initial(c.l)
    && c.state == 2 && c.count == n && !c.out && !c.latch
    && (c.m == 1 || (c.m == 0 && c.gate))
  }

  /** The counter t ticks after that. */
  function ShotAt(c: T.Ctr, n: nat, t: nat): T.Ctr {
    c.(ticks := c.ticks + t, count := if t < n then n - t else (n - t) % 0x10000,
       state := if t < n then 2 else 3, out := t >= n,
       rises := if t < n then c.rises else c.rises + [c.ticks + n])
  }

  /** With the gate high the two modes count alike. */
  lemma ModesAlike(c: T.Ctr)
    requires c.state == 2 || c.state == 3
    requires c.state == 2 ==> c.gate
    ensures T.Step0(c) == T.Step1(c)
  {
    hide T.CountDown, T.RunOn;
  }

  lemma ShotTick(c: T.Ctr, n: nat, t: nat)
    requires Counting(c, n)
    ensures T.Tick(ShotAt(c, n, t)) == ShotAt(c, n, t + 1)
  {
    hide T.Step0, T.Step1, T.Step2, T.Step3, T.Step45, T.Reload;
    var d := ShotAt(c, n, t).(ticks := c.ticks + t + 1);
    ShotStep(c, n, t);
    if c.m == 0 { ModesAlike(d); }
    assert T.Tick(ShotAt(c, n, t)) == if c.m == 0 then T.Step0(d) else T.Step1(d);
  }

  lemma ShotStep(c: T.Ctr, n: nat, t: nat)
    requires Counting(c, n)
    ensures T.Step1(ShotAt(c, n, t).(ticks := c.ticks + t + 1)) == ShotAt(c, n, t + 1)
  {
    hide T.Step1, ShotAt;
    if t + 1 < n { ShotCounts(c, n, t); } else if t + 1 == n { ShotEnds(c, n, t); } else { ShotRunsOn(c, n, t); }
  }

  lemma ShotCounts(c: T.Ctr, n: nat, t: nat)
    requires Counting(c, n) && t + 1 < n
    ensures T.Step1(ShotAt(c, n, t).(ticks := c.ticks + t + 1)) == ShotAt(c, n, t + 1)
  {
    hide T.Decrease;
    CountDown(n, t);
  }

  lemma ShotEnds(c: T.Ctr, n: nat, t: nat)
    requires Counting(c, n) && t + 1 == n
    ensures T.Step1(ShotAt(c, n, t).(ticks := c.ticks + t + 1)) == ShotAt(c, n, t + 1)
  {
    hide T.Decrease;
    CountDown(n, t);
  }

  lemma ShotRunsOn(c: T.Ctr, n: nat, t: nat)
    requires Counting(c, n) && t >= n
    ensures T.Step1(ShotAt(c, n, t).(ticks := c.ticks + t + 1)) == ShotAt(c, n, t + 1)
  {
    hide T.Decrease;
    CountDown(n, t);
  }

  lemma CountDown(n: nat, t: nat)
    requires 1 <= n <= FULL
    ensures t < n ==> T.Decrease(n - t) == n - t - 1
    ensures t >= n ==> T.Decrease((n - t) % 0x10000) == (n - t - 1) % 0x10000
  {
  }

  /** Modes 0 and 1, tick by tick, in closed form: OUT rises once, at tick N. */
  lemma {:induction false} ShotTicks(c: T.Ctr, n: nat, t: nat)
    requires Counting(c, n)
    ensures T.Ticks(c, t) == ShotAt(c, n, t)
  {
    hide T.Tick;
    if t > 0 {
      hide ShotAt;
      ShotTicks(c, n, t - 1);
      ShotTick(c, n, t - 1);
    }
  }

  // ---- Deadlines ----

  /** The timer runs towards its first expiry, with OUT low: a count in modes 0, 1, 4 and 5. */
  predicate Running(f: F.Fast, n: nat, start: nat) {
    && 1 <= n <= FULL && n == Initial(f.l)
    && f.m <= 5 && f.m != 2 && f.m != 3 && (f.m == 4 ==> !f.newcount)
    && f.usingTimer && f.enabled && f.running && !f.disabled && !f.thit && !f.out
    && f.deadline == Some(F.After(start, n, f.unit))
  }

  /** The timer runs towards the terminal count. */
  predicate Armed(f: F.Fast, n: nat, start: nat) {
    Running(f, n, start) && f.m <= 1
  }

  /** The counter after k expiries: the first ends the count, and one more follows
      every 65535 ticks. */
  function SpentAt(f: F.Fast, n: nat, start: nat, k: nat): F.Fast {
    if k == 0 then f else
      f.(deadline := Some(F.After(start, Mark(n, 0xffff, k), f.unit)), count := f.count + 0xffff * k,
         thit := true, out := true, rises := f.rises + [F.After(start, n, f.unit)])
  }

  /** What the expiry of a running timer makes of it. */
  function Spent(f: F.Fast, at: nat): F.Fast {
    f.(deadline := Some(F.After(at, 0xffff, f.unit)), count := f.count + 0xffff, thit := true, out := true,
       rises := if f.thit then f.rises else f.rises + [at])
  }

  lemma OverIsSpent(f: F.Fast)
    requires f.m <= 5 && f.m != 2 && f.m != 3 && (f.m == 4 ==> !f.newcount)
    requires f.usingTimer && f.enabled && f.running && !f.disabled && f.out == f.thit && f.deadline.Some?
    ensures F.Over(f) == Spent(f, f.deadline.value)
  {
    hide F.After, F.Half, F.Read;
    var at := f.deadline.value;
    var g := f.(deadline := None);
    if f.m <= 1 {
      assert F.Expiring(g, at) == F.Expired(g, at);
    } else {
      assert F.Expiring(g, at) == F.Strobed(g, at);
    }
  }

  lemma SpentOver(f: F.Fast, n: nat, start: nat, k: nat)
    requires Running(f, n, start)
    ensures F.Over(SpentAt(f, n, start, k)) == SpentAt(f, n, start, k + 1)
  {
    hide F.After, Mark, F.Over;
    MarkNext(n, 0xffff, k);
    AfterAfter(start, Mark(n, 0xffff, k), 0xffff, f.unit);
    OverIsSpent(SpentAt(f, n, start, k));
  }

  lemma {:induction false} SpentRuns(f: F.Fast, n: nat, start: nat, k: nat, j: nat, t: nat, phi: nat)
    requires Running(f, n, start) && phi < f.unit && k <= j
    requires (j == 0 || Mark(n, 0xffff, j - 1) <= t) && t < Mark(n, 0xffff, j)
    ensures RunUntil(SpentAt(f, n, start, k), F.After(start, t, f.unit) + phi) == SpentAt(f, n, start, j)
    decreases j - k
  {
    hide F.Over, F.After, Mark;
    MarkNext(n, 0xffff, 0);
    AfterCompares(start, Mark(n, 0xffff, k), t, f.unit, phi);
    if k < j {
      MarksOrdered(n, 0xffff, k, j - 1);
      SpentOver(f, n, start, k);
      SpentRuns(f, n, start, k + 1, j, t, phi);
    }
  }

  lemma MarksOrdered(first: nat, n: nat, i: nat, j: nat)
    requires i <= j
    ensures Mark(first, n, i) <= Mark(first, n, j)
  {
    MulLe(i, j, n);
  }

  /** Deadline by deadline, at any time: OUT rises once, at the first expiry. */
  lemma SpentUntil(f: F.Fast, n: nat, start: nat, t: nat, phi: nat)
    requires Running(f, n, start) && phi < f.unit
    ensures RunUntil(f, F.After(start, t, f.unit) + phi) == SpentAt(f, n, start, MarksBy(n, 0xffff, t))
  {
    hide MarksBy, Mark, F.After, RunUntil;
    MarksByIsExact(n, 0xffff, t);
    SpentRuns(f, n, start, 0, MarksBy(n, 0xffff, t), t, phi);
  }

  // ---- The two together ----

  /** From the moment the count N is in place, OUT rises after N ticks in both counters
      and at no other time, however long they run on. */
  lemma TerminalCountAgrees(c: T.Ctr, f: F.Fast, n: nat, start: nat, t: nat, phi: nat)
    requires Counting(c, n) && Armed(f, n, start) && phi < f.unit
    ensures var d := T.Ticks(c, t); var g := RunUntil(f, F.After(start, t, f.unit) + phi);
      && d.out == g.out == (t >= n) && d.falls == c.falls && g.falls == f.falls
      && d.rises == (if t < n then c.rises else c.rises + [c.ticks + n])
      && g.rises == (if t < n then f.rises else f.rises + [F.After(start, n, f.unit)])
  {
    hide T.Ticks, RunUntil, F.After, Mark;
    ShotTicks(c, n, t);
    SpentUntil(f, n, start, t, phi);
  }

  /** Up to the terminal count both read the same; between ticks the deadline-driven
      counter shows what the ticking one will show at the next tick. */
  lemma ReadsAgreeBeforeTerminal(c: T.Ctr, f: F.Fast, n: nat, start: nat, t: nat, phi: nat)
    requires Counting(c, n) && Armed(f, n, start) && phi < f.unit && t < n
    ensures var now := F.After(start, t, f.unit) + phi;
      F.Read(RunUntil(f, now), now) % 0x10000 == T.Readable(T.Ticks(c, if phi == 0 then t else t + 1))
  {
    hide T.Ticks, RunUntil, F.After, Mark;
    ShotTicks(c, n, if phi == 0 then t else t + 1);
    SpentUntil(f, n, start, t, phi);
    LeftToDeadline(start, t, n - t, f.unit, phi);
    ReadLeft(f, F.After(start, t, f.unit) + phi);
    hide F.Read;
  }

  lemma ReadLeft(f: F.Fast, now: nat)
    requires f.usingTimer && f.m != 2 && f.m != 3 && f.deadline.Some? && now <= f.deadline.value
    ensures var left := (f.deadline.value - now) / f.unit; F.Read(f, now) == if left <= FULL then left else FULL
  {
  }

  /** Past the terminal count the ticking counter runs through 65536 values and the
      deadline-driven one through 65535: s ticks later the two agree only in every
      65536th of its rounds, the first of which starts after more than four billion ticks. */
  lemma ReadsAfterTerminal(c: T.Ctr, f: F.Fast, n: nat, start: nat, s: nat)
    requires Counting(c, n) && Armed(f, n, start)
    ensures var now := F.After(start, n + s, f.unit);
      (F.Read(RunUntil(f, now), now) % 0x10000 == T.Readable(T.Ticks(c, n + s))
       <==> Periods(s, 0xffff) % 0x10000 == 0xffff)
  {
    hide T.Ticks, RunUntil, F.After, Mark, F.Read, Periods;
    ShotTicks(c, n, n + s);
    SpentReads(f, n, start, s);
    RoundsDiffer(s);
    assert T.Readable(T.Ticks(c, n + s)) == -(s as int) % 0x10000;
  }

  lemma SpentReads(f: F.Fast, n: nat, start: nat, s: nat)
    requires Armed(f, n, start)
    ensures var now := F.After(start, n + s, f.unit); F.Read(RunUntil(f, now), now) == 0xffff - s % 0xffff
  {
    hide RunUntil, F.After, Mark, F.Read;
    SpentUntil(f, n, start, n + s, 0);
    RoundsAfter(n, s);
    LeftToDeadline(start, n + s, 0xffff - s % 0xffff, f.unit, 0);
    ReadLeft(SpentAt(f, n, start, MarksBy(n, 0xffff, n + s)), F.After(start, n + s, f.unit));
  }

  lemma RoundsAfter(n: nat, s: nat)
    ensures MarksBy(n, 0xffff, n + s) > 0
    ensures Mark(n, 0xffff, MarksBy(n, 0xffff, n + s)) == n + s + (0xffff - s % 0xffff)
  {
  }

  lemma RoundsDiffer(s: nat)
    ensures (0xffff - s % 0xffff) % 0x10000 == -(s as int) % 0x10000 <==> Periods(s, 0xffff) % 0x10000 == 0xffff
  {
    var q, r := s / 0xffff, s % 0xffff;
    var u, v := q / 0x10000, q % 0x10000;
    assert -(s as int) == (v - r) + (u - q) * 0x10000;
    ModShift(v - r, u - q, 0x10000);
    SmallMod(v - r);
    SmallMod(0xffff - r);
  }

  lemma SmallMod(x: int)
    requires -0x10000 < x < 0x20000
    ensures x % 0x10000 == if x < 0 then x + 0x10000 else if x < 0x10000 then x else x - 0x10000
  {
  }
}
