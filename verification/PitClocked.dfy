/** The two counters off their timer, clocked from outside. */
module PitClocked {
  import opened Options
  import opened PitCount
  import T = PitTicking
  import F = PitFast
  import opened PitRates
  import opened PitPrograms
  import opened PitShots
  import opened PitSquare
  import opened PitStrobes
  import opened Division

  /** The counter after n clocks; its edges are numbered by the clock. */
  function Clocks(f: F.Fast, start: nat, n: nat): F.Fast {
    if n == 0 then f else F.Clocked(Clocks(f, start, n - 1), start + n)
  }

  /** Off the timer and counting. */
  predicate Counts(f: F.Fast) {
    !f.usingTimer && f.enabled && !f.disabled && !f.thit && !f.running && f.deadline.None?
  }

  lemma SettledAlready(f: F.Fast, at: nat)
    requires !f.usingTimer && !f.running
    ensures F.Settle(f, at) == f
  {
  }

  /** A clock that does not run the count out. */
  lemma ClockCounts(f: F.Fast, at: nat)
    requires Counts(f) && f.m != 3 && f.count != 1
    ensures F.Clocked(f, at) == f.(count := f.count - 1)
  {
    hide F.Lapsed;
  }

  lemma ClockLapses(f: F.Fast, at: nat)
    requires Counts(f) && f.m != 3 && f.count == 1 && f.m <= 5
    ensures F.Clocked(f, at) == F.Expiring(f.(count := 0), at)
  {
    hide F.Expiring, F.Settle;
    assert F.Stepped(f) == f.(count := 0);
    ExpiringStaysOff(f.(count := 0), at);
    SettledAlready(F.Expiring(f.(count := 0), at), at);
  }

  lemma ExpiringStaysOff(f: F.Fast, at: nat)
    requires !f.usingTimer && !f.running && f.m <= 5 && f.m != 3
    ensures !F.Expiring(f, at).usingTimer && !F.Expiring(f, at).running
  {
    hide F.Expired, F.Strobed, F.SoftStrobed;
    if f.m <= 1 {
      ExpiredStaysOff(f, at);
    } else if f.m >= 4 {
      StrobedStaysOff(f, at);
    }
  }

  lemma ExpiredStaysOff(f: F.Fast, at: nat)
    requires !f.usingTimer && !f.running
    ensures !F.Expired(f, at).usingTimer && !F.Expired(f, at).running
  {
  }

  lemma StrobedStaysOff(f: F.Fast, at: nat)
    requires !f.usingTimer && !f.running
    ensures !F.Strobed(f, at).usingTimer && !F.Strobed(f, at).running
    ensures !F.SoftStrobed(f, at).usingTimer && !F.SoftStrobed(f, at).running
  {
  }

  /** Between a control word and the count the clocks are counted without an edge; the count
      goes on from 65535 when it runs out. */
  lemma ClockedWhileHeld(f: F.Fast, at: nat)
    requires f.disabled && !f.usingTimer && f.enabled && !f.thit && f.m != 3
    ensures F.Clocked(f, at) == f.(count := if f.count == 1 then 0xffff else f.count - 1)
  {
    hide F.Expiring, F.Settle;
  }

  // ---- Rate generators ----

  /** The counter t clocks after a count of N was written in mode 2. */
  function ClockedRateAt(f: F.Fast, n: nat, start: nat, t: nat): F.Fast
    requires n > 0
  {
    f.(count := n - Phase(t + 1, n), falls := f.falls + Progression(start + n - 1, n, Periods(t + 1, n)),
       rises := f.rises + Progression(start + n - 1, n, Periods(t + 1, n)))
  }

  predicate RateHeld(f: F.Fast, n: nat) {
    Counts(f) && f.m == 2 && f.out && n == Initial(f.l) && f.count == n - 1
  }

  lemma RateClock(f: F.Fast, n: nat, start: nat, t: nat)
    requires RateHeld(f, n) && n >= 2
    ensures F.Clocked(ClockedRateAt(f, n, start, t), start + t + 1) == ClockedRateAt(f, n, start, t + 1)
  {
    hide Phase, Periods, F.Clocked;
    PhaseNext(t + 1, n);
    var g := ClockedRateAt(f, n, start, t);
    if Phase(t + 1, n) == n - 1 {
      ClockLapses(g, start + t + 1);
      var k := Periods(t + 1, n);
      LapseMark(n, start, t);
      RateLapse(g, start + t + 1);
      var p, m := Progression(start + n - 1, n, k), [start + t + 1];
      assert f.falls + (p + m) == f.falls + p + m && f.rises + (p + m) == f.rises + p + m;
    } else {
      ClockCounts(g, start + t + 1);
    }
  }

  lemma LapseMark(n: nat, start: nat, t: nat)
    requires n > 0 && Phase(t + 1, n) == n - 1
    ensures Mark(start + n - 1, n, Periods(t + 1, n)) == start + t + 1
  {
    var k := (t + 1) / n;
    assert t + 1 == n * k + (n - 1);
  }

  lemma RateLapse(f: F.Fast, at: nat)
    requires f.m == 2 && f.out && !f.usingTimer
    ensures F.Expiring(f.(count := 0), at)
      == f.(count := Initial(f.l), falls := f.falls + [at], rises := f.rises + [at])
  {
  }

  lemma {:induction false} RateClocks(f: F.Fast, n: nat, start: nat, t: nat)
    requires RateHeld(f, n) && n >= 2
    ensures Clocks(f, start, t) == ClockedRateAt(f, n, start, t)
  {
    hide F.Clocked, Phase, Periods;
    if t == 0 {
      FirstPhase(n);
      assert f.falls + [] == f.falls && f.rises + [] == f.rises;
    } else {
      RateClocks(f, n, start, t - 1);
      RateClock(f, n, start, t - 1);
    }
  }

  lemma FirstPhase(n: nat)
    requires n >= 2
    ensures Phase(1, n) == 1 && Periods(1, n) == 0
  {
    ModUnique(1, 0, 1, n);
  }

  /** A count of 1 is already out, so it never runs out. */
  lemma {:induction false} RateOfOne(f: F.Fast, start: nat, t: nat)
    requires RateHeld(f, 1)
    ensures Clocks(f, start, t) == f.(count := 0 - t)
  {
    hide F.Clocked;
    if t > 0 {
      RateOfOne(f, start, t - 1);
      ClockCounts(f.(count := 1 - t), start + t);
    }
  }

  /** A rate generator that is clocked from outside has the falling edges of one on the
      timer, clock for tick, if and only if its count is not 1, for which it has none, or no
      tick has gone by. */
  lemma ClockedRatesAgree(f: F.Fast, g: F.Fast, l: nat, start: nat, now: nat, t: nat)
    requires !f.usingTimer && f.gate && f.deadline.None? && g.usingTimer && g.gate && l < FULL
    ensures var clocked := Written(f, 2, l, start); var timed := Written(g, 2, l, now);
      var edges := Clocks(clocked, start, t).falls; var times := RunUntil(timed, F.After(now, t, g.unit)).falls;
      && |clocked.falls| <= |edges| && |timed.falls| <= |times|
      && (SameEdges(edges[|clocked.falls|..], start, times[|timed.falls|..], now, g.unit) <==> l != 1)
  {
    hide Written, Clocks, RunUntil, F.After, MarksBy, Phase, Periods, Mark, Progression, Times, SameEdges;
    var clocked, timed := Written(f, 2, l, start), Written(g, 2, l, now);
    var n := Initial(l);
    RateWritten(f, l, start);
    RateIsStarted(g, l, now);
    DeadlineFalls(timed, n, now, n - 1, t, 0);
    var k := MarksBy(n - 1, n, t);
    TailOf(timed.falls, Times(now, n - 1, n, g.unit, k));
    if l != 1 {
      RateClocks(clocked, n, start, t);
      MarksAreRounds(n, t);
      TailOf(clocked.falls, Progression(start + n - 1, n, k));
      SameMarks(start, start + n - 1, now, n - 1, n, g.unit, k);
    } else {
      RateOfOne(clocked, start, t);
      OneFallsAtOnce(t);
      assert clocked.falls[|clocked.falls|..] == [];
      DifferentLengths([], start, Times(now, 0, 1, g.unit, k), now, g.unit);
    }
  }

  lemma OneFallsAtOnce(t: nat)
    ensures MarksBy(0, 1, t) > 0
  {
  }

  lemma MarksAreRounds(n: nat, t: nat)
    requires n >= 2
    ensures MarksBy(n - 1, n, t) == Periods(t + 1, n)
  {
    hide MarksBy;
    MarksByPeriods(n, t);
    PhaseNext(t, n);
  }

  lemma RateWritten(f: F.Fast, l: nat, start: nat)
    requires !f.usingTimer && f.gate && f.deadline.None?
    ensures RateHeld(Written(f, 2, l, start), Initial(l))
  {
    hide F.Read;
  }

  // ---- Terminal counts and strobes ----

  predicate ShotHeld(f: F.Fast, n: nat) {
    Counts(f) && (f.m == 0 || f.m == 1 || f.m == 4 || f.m == 5) && !f.out && !f.newcount && n > 0 && f.count == n
  }

  /** In the other modes but 3 OUT rises N clocks after the count is in place, and the
      counter stops for good. */
  lemma {:induction false} ClockedShots(f: F.Fast, n: nat, start: nat, t: nat)
    requires ShotHeld(f, n)
    ensures Clocks(f, start, t) ==
      if t < n then f.(count := n - t)
      else f.(count := 0xffff, thit := true, out := true, rises := f.rises + [start + n])
  {
    hide F.Clocked;
    if t > 0 {
      ClockedShots(f, n, start, t - 1);
      if t < n {
        ClockCounts(f.(count := n - t + 1), start + t);
      } else if t == n {
        ClockLapses(f.(count := 1), start + n);
        ShotLapse(f.(count := 0), start + n);
      } else {
        StoppedClock(Clocks(f, start, t - 1), start + t);
      }
    }
  }

  lemma StoppedClock(f: F.Fast, at: nat)
    requires f.thit
    ensures F.Clocked(f, at) == f
  {
  }

  lemma ShotLapse(f: F.Fast, at: nat)
    requires Counts(f) && (f.m == 0 || f.m == 1 || f.m == 4 || f.m == 5) && !f.out && !f.newcount && f.count == 0
    ensures F.Expiring(f, at) == f.(count := 0xffff, thit := true, out := true, rises := f.rises + [at])
  {
    if f.m <= 1 {} else if f.m == 4 {} else {}
  }

  /** The writes and gates that put a count in place. */
  lemma ShotsWritten(f: F.Fast, m: nat, l: nat, now: nat)
    requires !f.usingTimer && f.deadline.None?
    ensures (m == 0 || m == 4) && f.gate ==> ShotHeld(Written(f, m, l, now), Initial(l))
    ensures (f.m == 1 || f.m == 5) && !f.gate && !f.disabled && !f.newcount ==>
      ShotHeld(F.SetGate(f, true, now), Initial(f.l))
  {
    hide F.Read;
  }

  // ---- Square waves ----

  /** OUT is at a level with a count to go, which is odd or even. */
  predicate HalfHeld(f: F.Fast, n: nat, count: nat, odd: bool) {
    Counts(f) && f.m == 3 && n == Initial(f.l) && f.count == count && f.newcount == odd
  }

  /** The counter j clocks into a half. */
  function InHalf(f: F.Fast, j: nat): F.Fast {
    if j == 0 then f
    else f.(newcount := false, count := f.count - 2 * j + if !f.newcount then 0 else if f.out then 1 else -1)
  }

  lemma HalfClock(f: F.Fast, j: nat, at: nat)
    requires Counts(f) && f.m == 3 && InHalf(f, j + 1).count != 0
    ensures F.Clocked(InHalf(f, j), at) == InHalf(f, j + 1)
  {
    hide F.Lapsed;
  }

  lemma {:induction false} HalfClocks(f: F.Fast, start: nat, j: nat)
    requires Counts(f) && f.m == 3 && forall i :: 0 < i <= j ==> InHalf(f, i).count != 0
    ensures Clocks(f, start, j) == InHalf(f, j)
  {
    hide F.Clocked, InHalf;
    if j == 0 {
      NoClocks(f);
    } else {
      HalfClocks(f, start, j - 1);
      HalfClock(f, j - 1, start + j);
    }
  }

  lemma NoClocks(f: F.Fast)
    ensures InHalf(f, 0) == f
  {
  }

  /** The clock that ends a half. */
  lemma HalfEnds(f: F.Fast, j: nat, at: nat)
    requires Counts(f) && f.m == 3 && InHalf(f, j + 1).count == 0
    ensures var n := Initial(f.l);
      F.Clocked(InHalf(f, j), at) ==
        f.(out := !f.out, count := if f.out then n else Upper(n) + n, newcount := n % 2 == 1,
           falls := if f.out then f.falls + [at] else f.falls, rises := if f.out then f.rises else f.rises + [at])
  {
    hide F.Settle;
    var g := InHalf(f, j + 1);
    assert F.Stepped(InHalf(f, j)) == g;
    SettledAlready(F.Half(g, at), at);
  }

  /** How many clocks a half takes, if its count ever runs out exactly. */
  lemma HalfLasts(f: F.Fast, start: nat, j: nat)
    requires Counts(f) && f.m == 3 && j > 0 && InHalf(f, j).count == 0
    ensures var n := Initial(f.l);
      Clocks(f, start, j) == f.(out := !f.out, count := if f.out then n else Upper(n) + n, newcount := n % 2 == 1,
                                falls := if f.out then f.falls + [start + j] else f.falls,
                                rises := if f.out then f.rises else f.rises + [start + j])
  {
    hide F.Clocked;
    HalfClocks(f, start, j - 1);
    HalfEnds(f, j - 1, start + j);
  }

  lemma {:induction false} ClocksAfter(f: F.Fast, start: nat, a: nat, b: nat)
    ensures Clocks(Clocks(f, start, a), start + a, b) == Clocks(f, start, a + b)
  {
    hide F.Clocked;
    if b > 0 {
      ClocksAfter(f, start, a, b - 1);
      assert start + a + b == start + (a + b);
    }
  }

  predicate SquareHeld(f: F.Fast, n: nat) {
    HalfHeld(f, n, n, n % 2 == 1) && f.out && n >= 2
  }

  lemma SquareWritten(f: F.Fast, l: nat, start: nat)
    requires !f.usingTimer && f.gate && f.deadline.None? && l != 1
    ensures SquareHeld(Written(f, 3, l, start), Initial(l))
  {
    hide F.Read;
  }

  /** The counter after its first whole period. */
  function PeriodOver(f: F.Fast, n: nat, start: nat): F.Fast {
    f.(count := Upper(n) + n, falls := f.falls + [start + Upper(n)], rises := f.rises + [start + n])
  }

  lemma FirstPeriod(f: F.Fast, n: nat, start: nat)
    requires SquareHeld(f, n)
    ensures Clocks(f, start, n) == PeriodOver(f, n, start)
  {
    hide Clocks;
    HalfLasts(f, start, Upper(n));
    var g := Clocks(f, start, Upper(n));
    HalfLasts(g, start + Upper(n), Lower(n));
    ClocksAfter(f, start, Upper(n), Lower(n));
  }

  /** A square wave of N that is clocked from outside: its first period is right, high for
      (N + 1) / 2 clocks and low for N / 2. The next high half begins with a count of
      (N + 1) / 2 + N, which runs out, if it ever does, after about three quarters of N
      clocks; with N of the form 4k + 1 or 4k + 2 it does not, and OUT stays high. */
  lemma ClockedSquare(f: F.Fast, n: nat, start: nat, t: nat)
    requires SquareHeld(f, n)
    ensures var g := Clocks(f, start, t); var next := n + (Upper(n) + n + n % 2) / 2;
      && (t < Upper(n) ==> g.out && g.falls == f.falls && g.rises == f.rises)
      && (Upper(n) <= t < n ==> !g.out && g.falls == f.falls + [start + Upper(n)] && g.rises == f.rises)
      && (t >= n && (t < next || n % 4 == 1 || n % 4 == 2) ==>
            g.out && g.falls == f.falls + [start + Upper(n)] && g.rises == f.rises + [start + n])
      && (t == next && (n % 4 == 0 || n % 4 == 3) ==>
            !g.out && g.falls == f.falls + [start + Upper(n)] + [start + next])
  {
    hide Clocks;
    var next := n + (Upper(n) + n + n % 2) / 2;
    if t < Upper(n) {
      HalfClocks(f, start, t);
    } else if t < n {
      HalfLasts(f, start, Upper(n));
      HalfClocks(Clocks(f, start, Upper(n)), start + Upper(n), t - Upper(n));
      ClocksAfter(f, start, Upper(n), t - Upper(n));
    } else {
      FirstPeriod(f, n, start);
      ClocksAfter(f, start, n, t - n);
      SecondHigh(PeriodOver(f, n, start), n, start + n, t - n);
    }
  }

  lemma SecondHigh(f: F.Fast, n: nat, start: nat, t: nat)
    requires HalfHeld(f, n, Upper(n) + n, n % 2 == 1) && f.out && n >= 2
    ensures var g := Clocks(f, start, t); var next := (Upper(n) + n + n % 2) / 2;
      && (t < next || n % 4 == 1 || n % 4 == 2 ==> g.out && g.falls == f.falls && g.rises == f.rises)
      && (t == next && (n % 4 == 0 || n % 4 == 3) ==> !g.out && g.falls == f.falls + [start + next])
  {
    hide Clocks;
    var next := (Upper(n) + n + n % 2) / 2;
    if n % 4 == 1 || n % 4 == 2 {
      NeverEven(n);
      HalfClocks(f, start, t);
    } else if t < next {
      HalfClocks(f, start, t);
    } else if t == next {
      IsEven(n);
      HalfLasts(f, start, next);
    }
  }

  lemma NeverEven(n: nat)
    requires n % 4 == 1 || n % 4 == 2
    ensures (Upper(n) + n + n % 2) % 2 == 1
  {
    var q := n / 4;
    if n % 4 == 1 {
      ModUnique(n + 1, 2 * q + 1, 0, 2);
      ModUnique(n, 2 * q, 1, 2);
    } else {
      ModUnique(n + 1, 2 * q + 1, 1, 2);
      ModUnique(n, 2 * q + 1, 0, 2);
    }
    ModUnique(6 * q + 3, 3 * q + 1, 1, 2);
  }

  lemma IsEven(n: nat)
    requires n % 4 == 0 || n % 4 == 3
    ensures (Upper(n) + n + n % 2) % 2 == 0
  {
    var q := n / 4;
    if n % 4 == 0 {
      ModUnique(n + 1, 2 * q, 1, 2);
      ModUnique(n, 2 * q, 0, 2);
      ModUnique(6 * q, 3 * q, 0, 2);
    } else {
      ModUnique(n + 1, 2 * q + 2, 0, 2);
      ModUnique(n, 2 * q + 1, 1, 2);
      ModUnique(6 * q + 6, 3 * q + 3, 0, 2);
    }
  }

  /** A square wave of 1 falls at its first clock and never rises. */
  lemma ClockedSquareOfOne(f: F.Fast, start: nat, t: nat)
    requires HalfHeld(f, 1, 1, true) && f.out && t > 0
    ensures var g := Clocks(f, start, t); !g.out && g.falls == f.falls + [start + 1] && g.rises == f.rises
  {
    hide Clocks;
    HalfLasts(f, start, 1);
    HalfClocks(Clocks(f, start, 1), start + 1, t - 1);
    ClocksAfter(f, start, 1, t - 1);
  }

  // ---- The ticking counter ----

  function TickingClocks(c: T.Ctr, n: nat): T.Ctr {
    if n == 0 then c else T.Clocked(TickingClocks(c, n - 1))
  }

  /** In modes 2 and 3 an outside clock is a tick. */
  lemma {:induction false} ClocksAreTicks(c: T.Ctr, n: nat)
    requires !c.usingTimer && (c.m == 2 || c.m == 3)
    ensures TickingClocks(c, n) == T.Ticks(c, n) && !T.Ticks(c, n).usingTimer && T.Ticks(c, n).m == c.m
  {
    hide T.Tick;
    if n > 0 {
      ClocksAreTicks(c, n - 1);
      TickKeepsMode(T.Ticks(c, n - 1));
    }
  }

  lemma TickKeepsMode(c: T.Ctr)
    ensures T.Tick(c).usingTimer == c.usingTimer && T.Tick(c).m == c.m
  {
    hide T.Step;
    T.StepKeepsInputs(c.(ticks := c.ticks + 1));
  }

  /** In modes 0, 1, 4 and 5 it is one up to the terminal count, and then the counter stops. */
  lemma {:induction false} ClockedTo(c: T.Ctr, n: nat, t: nat)
    requires !c.usingTimer && c.m != 2 && c.m != 3
    requires forall k :: 0 <= k < n ==> T.Ticks(c, k).state == 2
    requires T.Ticks(c, n).state == 3
    ensures TickingClocks(c, t) == T.Ticks(c, if t <= n then t else n)
    ensures T.Ticks(c, if t <= n then t else n).m == c.m && !T.Ticks(c, if t <= n then t else n).usingTimer
  {
    hide T.Tick;
    if t > 0 {
      ClockedTo(c, n, t - 1);
      if t <= n {
        assert T.Ticks(c, t - 1).state == 2;
        TickKeepsMode(T.Ticks(c, t - 1));
      }
    }
  }

  lemma ClockedShotTicks(c: T.Ctr, n: nat, t: nat)
    requires Counting(c, n) && !c.usingTimer
    ensures TickingClocks(c, t) == ShotAt(c, n, if t <= n then t else n)
  {
    hide T.Ticks, TickingClocks, ShotAt;
    forall k | 0 <= k < n
      ensures T.Ticks(c, k).state == 2
    {
      ShotTicks(c, n, k);
      ShotState(c, n, k);
    }
    ShotTicks(c, n, n);
    ShotState(c, n, n);
    ShotTicks(c, n, if t <= n then t else n);
    ClockedTo(c, n, t);
  }

  lemma ShotState(c: T.Ctr, n: nat, k: nat)
    ensures ShotAt(c, n, k).state == if k < n then 2 else 3
  {
  }

  lemma ClockedStrobeTicks(c: T.Ctr, n: nat, t: nat)
    requires StrobeLoaded(c, n) && !c.usingTimer
    ensures TickingClocks(c, t) == StrobeAt(c, n, if t <= n then t else n)
  {
    hide T.Ticks, TickingClocks, StrobeAt;
    forall k | 0 <= k < n
      ensures T.Ticks(c, k).state == 2
    {
      StrobeTicks(c, n, k);
      StrobeState(c, n, k);
    }
    StrobeTicks(c, n, n);
    StrobeState(c, n, n);
    StrobeTicks(c, n, if t <= n then t else n);
    ClockedTo(c, n, t);
  }

  lemma StrobeState(c: T.Ctr, n: nat, k: nat)
    requires k <= n
    ensures StrobeAt(c, n, k).state == if k < n then 2 else 3
  {
  }

  /** Clocked from outside the two terminal counts are at the same level at every clock. */
  lemma ClockedCountsAgree(c: T.Ctr, f: F.Fast, n: nat, start: nat, t: nat)
    requires Counting(c, n) && !c.usingTimer && ShotHeld(f, n)
    ensures var d, g := TickingClocks(c, t), Clocks(f, start, t);
      && d.out == g.out == (t >= n)
      && d.rises == (if t < n then c.rises else c.rises + [c.ticks + n])
      && g.rises == (if t < n then f.rises else f.rises + [start + n])
  {
    hide TickingClocks, Clocks;
    ClockedShotTicks(c, n, t);
    ClockedShots(f, n, start, t);
  }

  /** And the two strobes at none: the ticking counter drops OUT at clock N and never raises
      it, the other one holds it low until then. */
  lemma ClockedStrobesOppose(c: T.Ctr, f: F.Fast, n: nat, start: nat, t: nat)
    requires StrobeLoaded(c, n) && !c.usingTimer && ShotHeld(f, n)
    ensures TickingClocks(c, t).out == (t < n) && Clocks(f, start, t).out == (t >= n)
  {
    hide TickingClocks, Clocks;
    ClockedStrobeTicks(c, n, t);
    ClockedShots(f, n, start, t);
  }

  /** Off the timer a written count is in place at the next clock. */
  lemma WrittenOffTimer(c: T.Ctr, m: nat, l: nat)
    requires !c.usingTimer && c.gate && l < FULL && (m == 0 || (m == 2 && l != 1) || (m == 3 && l != 1) || m == 4)
    requires !c.latch
    ensures var d := T.Clocked(Programmed(c, m, l)); var n := Initial(l);
      && (m == 0 ==> Counting(d, n)) && (m == 2 ==> JustLoaded(d, n))
      && (m == 3 ==> SquareLoaded(d, n)) && (m == 4 ==> StrobeLoaded(d, n))
  {
    hide T.Step0, T.Step1, T.Step2, T.Step3, T.Step45;
    var b := Programmed(c, m, l);
    assert b.state == 1 && b.m == m && !b.usingTimer && b.l == l && b.out == (m != 0);
    if m == 0 {} else if m == 2 {} else if m == 3 {} else {}
  }
}
