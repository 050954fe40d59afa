/** Square waves (mode 3): both counters in closed form, and how far they drift apart. */
module PitSquare {
  import opened Options
  import opened PitCount
  import T = PitTicking
  import F = PitFast
  import opened PitRates
  import opened Division

  /** Ticks OUT stays high, of n. */
  function Upper(n: nat): nat {
    (n + 1) / 2
  }

  function Lower(n: nat): nat {
    n / 2
  }

  // ---- Ticking ----

  /** The count n has just been loaded in mode 3, with the gate high. */
  predicate SquareLoaded(c: T.Ctr, n: nat) {
    && 2 <= n <= FULL && n == Initial(c.l)
    && c.m == 3 && c.gate && c.out && !c.latch && c == T.LoadCount(c).(state := 2)
  }

  /** The counter k whole periods of n + 2 ticks and r ticks after that. */
  function SquareAt(c: T.Ctr, n: nat, k: nat, r: nat): T.Ctr
    requires r < n + 2
  {
    if r <= Upper(n) then
      c.(ticks := c.ticks + Mark(r, n + 2, k), state := 2, out := true,
         count := if r == 0 then n else 2 * (Upper(n) - r), newcount := r == 0 && n % 2 == 1,
         falls := c.falls + Progression(c.ticks + Upper(n) + 1, n + 2, k),
         rises := c.rises + Progression(c.ticks + n + 2, n + 2, k))
    else
      var s := r - Upper(n) - 1;
      c.(ticks := c.ticks + Mark(r, n + 2, k), state := 3, out := false,
         count := if s == 0 then n else 2 * (Lower(n) - s), newcount := s == 0 && n % 2 == 1,
         falls := c.falls + Progression(c.ticks + Upper(n) + 1, n + 2, k + 1),
         rises := c.rises + Progression(c.ticks + n + 2, n + 2, k))
  }

  lemma SquareFall(c: T.Ctr, n: nat, k: nat)
    requires SquareLoaded(c, n)
    ensures T.Tick(SquareAt(c, n, k, Upper(n))) == SquareAt(c, n, k, Upper(n) + 1)
  {
    hide Mark, T.Step0, T.Step1, T.Step2, T.Step45;
    MarkFrom(Upper(n), 0, n + 2, k);
    MarkFrom(Upper(n) + 1, 0, n + 2, k);
    MarkFrom(c.ticks + Upper(n) + 1, 0, n + 2, k);
    var p := Progression(c.ticks + Upper(n) + 1, n + 2, k);
    var m := [Mark(c.ticks + Upper(n) + 1, n + 2, k)];
    assert c.falls + (p + m) == c.falls + p + m;
  }

  lemma SquareRise(c: T.Ctr, n: nat, k: nat)
    requires SquareLoaded(c, n)
    ensures T.Tick(SquareAt(c, n, k, n + 1)) == SquareAt(c, n, k + 1, 0)
  {
    hide Mark, T.Step0, T.Step1, T.Step2, T.Step45;
    MarkNext(0, n + 2, k);
    MarkFrom(n + 1, 0, n + 2, k);
    MarkFrom(0, 0, n + 2, k + 1);
    MarkFrom(c.ticks + n + 2, 0, n + 2, k);
    var p := Progression(c.ticks + n + 2, n + 2, k);
    var m := [Mark(c.ticks + n + 2, n + 2, k)];
    assert c.rises + (p + m) == c.rises + p + m;
  }

  lemma SquareStay(c: T.Ctr, n: nat, k: nat, r: nat)
    requires SquareLoaded(c, n) && r < n + 1 && r != Upper(n)
    ensures T.Tick(SquareAt(c, n, k, r)) == SquareAt(c, n, k, r + 1)
  {
    if r < Upper(n) { StayHigh(c, n, k, r); } else { StayLow(c, n, k, r); }
  }

  lemma StayHigh(c: T.Ctr, n: nat, k: nat, r: nat)
    requires SquareLoaded(c, n) && r < Upper(n)
    ensures T.Tick(SquareAt(c, n, k, r)) == SquareAt(c, n, k, r + 1)
  {
    hide Mark, Progression, T.Restarted, T.Step0, T.Step1, T.Step2, T.Step45;
    MarkFrom(r, 0, n + 2, k);
    MarkFrom(r + 1, 0, n + 2, k);
    if r == 0 {} else {}
  }

  lemma StayLow(c: T.Ctr, n: nat, k: nat, r: nat)
    requires SquareLoaded(c, n) && Upper(n) < r < n + 1
    ensures T.Tick(SquareAt(c, n, k, r)) == SquareAt(c, n, k, r + 1)
  {
    hide Mark, Progression, T.Restarted, T.Step0, T.Step1, T.Step2, T.Step45;
    MarkFrom(r, 0, n + 2, k);
    MarkFrom(r + 1, 0, n + 2, k);
    if r == Upper(n) + 1 {} else {}
  }

  lemma SquareAtStart(c: T.Ctr, n: nat)
    requires SquareLoaded(c, n)
    ensures SquareAt(c, n, 0, 0) == c
  {
    assert c.falls + [] == c.falls && c.rises + [] == c.rises;
  }

  /** Mode 3, tick by tick, in closed form: OUT is high for (N + 1) / 2 + 1 ticks and
      low for N / 2 + 1. */
  lemma {:induction false} SquareTicks(c: T.Ctr, n: nat, t: nat)
    requires SquareLoaded(c, n)
    ensures Phase(t, n + 2) < n + 2 && T.Ticks(c, t) == SquareAt(c, n, Periods(t, n + 2), Phase(t, n + 2))
  {
    hide Periods, Phase, T.Tick, SquareAt;
    if t == 0 {
      PhaseAtStart(n + 2);
      SquareAtStart(c, n);
    } else {
      SquareTicks(c, n, t - 1);
      PhaseNext(t - 1, n + 2);
      var k, r := Periods(t - 1, n + 2), Phase(t - 1, n + 2);
      if r == Upper(n) {
        SquareFall(c, n, k);
      } else if r == n + 1 {
        SquareRise(c, n, k);
      } else {
        SquareStay(c, n, k, r);
      }
    }
  }

  // ---- Deadlines ----

  predicate SquareStarted(f: F.Fast, n: nat, start: nat) {
    && 1 <= n <= FULL && n == Initial(f.l)
    && f.m == 3 && f.usingTimer && f.gate && f.enabled && f.running && !f.disabled && f.out
    && f.deadline == Some(F.After(start, Upper(n), f.unit))
  }

  /** The counter after k whole periods, and in the low half of the next if `low`. */
  function HalfAt(f: F.Fast, n: nat, start: nat, k: nat, low: bool): F.Fast {
    f.(deadline := Some(F.After(start, Mark(if low then n else Upper(n), n, k), f.unit)), out := !low,
       count := f.count + (n + Lower(n)) * k + if low then Lower(n) else 0,
       falls := f.falls + Times(start, Upper(n), n, f.unit, if low then k + 1 else k),
       rises := f.rises + Times(start, n, n, f.unit, k))
  }

  lemma HalfFall(f: F.Fast, n: nat, start: nat, k: nat)
    requires SquareStarted(f, n, start)
    ensures F.Over(HalfAt(f, n, start, k, false)) == HalfAt(f, n, start, k, true)
  {
    hide F.After, Mark, F.Expired, F.Strobed, F.SoftStrobed;
    MarkFrom(Upper(n), 0, n, k);
    MarkFrom(n, 0, n, k);
    AfterAfter(start, Mark(Upper(n), n, k), Lower(n), f.unit);
    var at := F.After(start, Mark(Upper(n), n, k), f.unit);
    var ts := Times(start, Upper(n), n, f.unit, k);
    assert f.falls + (ts + [at]) == f.falls + ts + [at];
  }

  lemma HalfRise(f: F.Fast, n: nat, start: nat, k: nat)
    requires SquareStarted(f, n, start)
    ensures F.Over(HalfAt(f, n, start, k, true)) == HalfAt(f, n, start, k + 1, false)
  {
    hide F.After, Mark, F.Expired, F.Strobed, F.SoftStrobed;
    MarkNext(0, n, k);
    MarkFrom(Upper(n), 0, n, k + 1);
    MarkFrom(n, 0, n, k);
    AfterAfter(start, Mark(n, n, k), Upper(n), f.unit);
    var at := F.After(start, Mark(n, n, k), f.unit);
    var ts := Times(start, n, n, f.unit, k);
    assert f.rises + (ts + [at]) == f.rises + ts + [at];
    assert (n + Lower(n)) * (k + 1) == (n + Lower(n)) * k + n + Lower(n);
  }

  /** Where the wave is after t ticks: its period and whether it is in the low half. */
  predicate InLow(n: nat, t: nat)
    requires n > 0
  {
    Phase(t, n) >= Upper(n)
  }

  lemma {:induction false} HalfRuns(f: F.Fast, n: nat, start: nat, k: nat, low: bool, t: nat, phi: nat)
    requires SquareStarted(f, n, start) && phi < f.unit
    requires k < Periods(t, n) || (k == Periods(t, n) && (low ==> InLow(n, t)))
    ensures RunUntil(HalfAt(f, n, start, k, low), F.After(start, t, f.unit) + phi)
         == HalfAt(f, n, start, Periods(t, n), InLow(n, t))
    decreases Periods(t, n) - k, !low
  {
    hide F.Over, F.After, Mark;
    HalfDue(n, k, low, t);
    AfterCompares(start, Mark(if low then n else Upper(n), n, k), t, f.unit, phi);
    if k < Periods(t, n) || low != InLow(n, t) {
      if low {
        HalfRise(f, n, start, k);
        HalfRuns(f, n, start, k + 1, false, t, phi);
      } else {
        HalfFall(f, n, start, k);
        HalfRuns(f, n, start, k, true, t, phi);
      }
    }
  }

  lemma HalfDue(n: nat, k: nat, low: bool, t: nat)
    requires n >= 1 && (k < Periods(t, n) || (k == Periods(t, n) && (low ==> InLow(n, t))))
    ensures Mark(if low then n else Upper(n), n, k) <= t <==> k < Periods(t, n) || low != InLow(n, t)
  {
    var q, r := t / n, t % n;
    assert t == n * q + r;
    if k < q {
      MulLe(k + 1, q, n);
      assert n * (k + 1) == n * k + n;
    }
  }

  lemma HalfFromStart(f: F.Fast, n: nat, start: nat)
    requires SquareStarted(f, n, start)
    ensures HalfAt(f, n, start, 0, false) == f
  {
    assert f.falls + [] == f.falls && f.rises + [] == f.rises;
    assert Mark(Upper(n), n, 0) == Upper(n);
  }

  /** Mode 3, deadline by deadline, in closed form: OUT is high for (N + 1) / 2 ticks
      and low for N / 2. */
  lemma HalfUntil(f: F.Fast, n: nat, start: nat, t: nat, phi: nat)
    requires SquareStarted(f, n, start) && phi < f.unit
    ensures RunUntil(f, F.After(start, t, f.unit) + phi) == HalfAt(f, n, start, Periods(t, n), InLow(n, t))
  {
    hide HalfAt, F.After, RunUntil, InLow;
    HalfFromStart(f, n, start);
    HalfRuns(f, n, start, 0, false, t, phi);
  }

  // ---- The two together ----

  /** The i-th falling edge of the ticking counter comes 2i + 1 ticks late, its i-th
      rising edge 2i + 2: its waves are two ticks longer than the count says. */
  lemma EdgesDrift(c: T.Ctr, f: F.Fast, n: nat, start: nat, t: nat, u: nat, phi: nat, i: nat)
    requires SquareLoaded(c, n) && SquareStarted(f, n, start) && phi < f.unit
    ensures var d := T.Ticks(c, t); var g := RunUntil(f, F.After(start, u, f.unit) + phi);
      && (i < |d.falls| - |c.falls| && i < |g.falls| - |f.falls| ==>
            && d.falls[|c.falls| + i] == c.ticks + Mark(Upper(n), n, i) + 2 * i + 1
            && g.falls[|f.falls| + i] == F.After(start, Mark(Upper(n), n, i), f.unit))
      && (i < |d.rises| - |c.rises| && i < |g.rises| - |f.rises| ==>
            && d.rises[|c.rises| + i] == c.ticks + Mark(n, n, i) + 2 * i + 2
            && g.rises[|f.rises| + i] == F.After(start, Mark(n, n, i), f.unit))
  {
    hide T.Ticks, RunUntil, F.After, Mark, Progression, Times, Periods, Phase, InLow;
    SquareTicks(c, n, t);
    HalfUntil(f, n, start, u, phi);
    DriftOf(c.ticks, Upper(n), 1, n, i);
    DriftOf(c.ticks, n, 2, n, i);
    var d, g := T.Ticks(c, t), RunUntil(f, F.After(start, u, f.unit) + phi);
    if i < |d.falls| - |c.falls| { ProgressionAt(c.ticks + Upper(n) + 1, n + 2, |d.falls| - |c.falls|, i); }
    if i < |g.falls| - |f.falls| { TimesAt(start, Upper(n), n, f.unit, |g.falls| - |f.falls|, i); }
    if i < |d.rises| - |c.rises| { ProgressionAt(c.ticks + n + 2, n + 2, |d.rises| - |c.rises|, i); }
    if i < |g.rises| - |f.rises| { TimesAt(start, n, n, f.unit, |g.rises| - |f.rises|, i); }
  }

  lemma DriftOf(ticks: nat, first: nat, late: nat, n: nat, i: nat)
    ensures Mark(ticks + first + late, n + 2, i) == ticks + Mark(first, n, i) + 2 * i + late
  {
    assert (n + 2) * i == n * i + 2 * i;
  }

  /** So the two waves have the same falling edges only until the first one is due. */
  lemma SquareWavesPart(c: T.Ctr, f: F.Fast, n: nat, start: nat, t: nat, phi: nat)
    requires SquareLoaded(c, n) && SquareStarted(f, n, start) && phi < f.unit
    ensures var edges := T.Ticks(c, t).falls; var times := RunUntil(f, F.After(start, t, f.unit) + phi).falls;
      && |edges| >= |c.falls| && |times| >= |f.falls|
      && (SameEdges(edges[|c.falls|..], c.ticks, times[|f.falls|..], start, f.unit) <==> t < Upper(n))
  {
    hide T.Ticks, RunUntil, F.After, Mark, Progression, Times, Periods, Phase;
    SquareTicks(c, n, t);
    HalfUntil(f, n, start, t, phi);
    EdgesDrift(c, f, n, start, t, t, phi, 0);
    MarkNext(Upper(n), n, 0);
    FirstFall(n, t);
    AfterGrows(start, Upper(n), f.unit);
  }

  lemma FirstFall(n: nat, t: nat)
    requires n >= 2
    ensures t < Upper(n) ==> Periods(t, n) == 0 && Phase(t, n) == t && Periods(t, n + 2) == 0 && Phase(t, n + 2) == t
    ensures t >= Upper(n) ==> Periods(t, n) > 0 || InLow(n, t)
  {
    if t < n {
      ModUnique(t, 0, t, n);
      ModUnique(t, 0, t, n + 2);
    } else {
      var q := t / n;
      assert t == n * q + t % n;
    }
  }

  lemma AfterGrows(at: nat, ticks: nat, unit: nat)
    requires unit > 0
    ensures F.After(at, ticks + 1, unit) != F.After(at, ticks, unit)
  {
    assert (ticks + 1) * unit == ticks * unit + unit;
  }
}
