/** The deadline-driven counter refines the ticking one: rate generation (mode 2). */
module PitRates {
  import opened Options
  import opened PitCount
  import T = PitTicking
  import F = PitFast
  import opened Division

  /** The i-th of the times first, first + n, first + 2n, ... */
  function Mark(first: nat, n: nat, i: nat): nat {
    first + n * i
  }

  lemma MarkNext(first: nat, n: nat, i: nat)
    ensures Mark(first, n, i) + n == Mark(first, n, i + 1) && Mark(first, n, 0) == first
  {
    assert n * (i + 1) == n * i + n;
  }

  lemma MarkFrom(start: nat, first: nat, n: nat, i: nat)
    ensures Mark(start + first, n, i) == start + Mark(first, n, i)
  {
  }

  /** The first k of those times. */
  function Progression(first: nat, n: nat, k: nat): (r: seq<nat>)
    ensures |r| == k
  {
    if k == 0 then [] else Progression(first, n, k - 1) + [Mark(first, n, k - 1)]
  }

  lemma {:induction false} ProgressionAt(first: nat, n: nat, k: nat, i: nat)
    requires i < k
    ensures Progression(first, n, k)[i] == Mark(first, n, i)
  {
    if i < k - 1 { ProgressionAt(first, n, k - 1, i); }
  }

  // ---- Ticking ----

  /** The count n has just been loaded in mode 2, with the gate high. */
  predicate JustLoaded(c: T.Ctr, n: nat) {
    && 2 <= n <= FULL && n == Initial(c.l)
    && c.m == 2 && c.gate && c.out && !c.latch && c == T.LoadCount(c).(state := 2)
  }

  /** The counter k whole periods and r ticks after that. */
  function RateAt(c: T.Ctr, n: nat, k: nat, r: nat): T.Ctr
    requires r < n
  {
    c.(ticks := c.ticks + Mark(r, n, k), count := n - r,
       state := if r == n - 1 then 3 else 2, out := r != n - 1,
       falls := c.falls + Progression(c.ticks + n - 1, n, if r == n - 1 then k + 1 else k),
       rises := c.rises + Progression(c.ticks + n, n, k))
  }

  lemma RateTick(c: T.Ctr, n: nat, k: nat, r: nat)
    requires JustLoaded(c, n) && r < n
    ensures T.Tick(RateAt(c, n, k, r)) == if r == n - 1 then RateAt(c, n, k + 1, 0) else RateAt(c, n, k, r + 1)
  {
    hide T.Tick, RateAt;
    if r == n - 1 { RateReload(c, n, k); } else if r + 1 == n - 1 { RateFall(c, n, k); } else { RateStay(c, n, k, r); }
  }

  lemma RateStay(c: T.Ctr, n: nat, k: nat, r: nat)
    requires JustLoaded(c, n) && r + 1 < n - 1
    ensures T.Tick(RateAt(c, n, k, r)) == RateAt(c, n, k, r + 1)
  {
    hide Mark, Progression, T.Restarted, T.Step0, T.Step1, T.Step3, T.Step45;
    MarkFrom(r, 0, n, k);
    MarkFrom(r + 1, 0, n, k);
  }

  lemma RateReload(c: T.Ctr, n: nat, k: nat)
    requires JustLoaded(c, n)
    ensures T.Tick(RateAt(c, n, k, n - 1)) == RateAt(c, n, k + 1, 0)
  {
    hide Mark, T.Step0, T.Step1, T.Step3, T.Step45, T.Decrease;
    MarkNext(0, n, k);
    MarkFrom(n - 1, 0, n, k);
    MarkFrom(0, 0, n, k + 1);
    MarkFrom(c.ticks + n, 0, n, k);
    var p := Progression(c.ticks + n, n, k);
    var m := [Mark(c.ticks + n, n, k)];
    assert c.rises + (p + m) == c.rises + p + m;
  }

  lemma RateFall(c: T.Ctr, n: nat, k: nat)
    requires JustLoaded(c, n)
    ensures T.Tick(RateAt(c, n, k, n - 2)) == RateAt(c, n, k, n - 1)
  {
    hide Mark, T.Step0, T.Step1, T.Step3, T.Step45;
    MarkFrom(n - 2, 0, n, k);
    MarkFrom(n - 1, 0, n, k);
    MarkFrom(c.ticks + n - 1, 0, n, k);
    var p := Progression(c.ticks + n - 1, n, k);
    var m := [Mark(c.ticks + n - 1, n, k)];
    assert c.falls + (p + m) == c.falls + p + m;
  }

  /** Mode 2, tick by tick, in closed form. */
  lemma {:induction false} RateTicks(c: T.Ctr, n: nat, t: nat)
    requires JustLoaded(c, n)
    ensures Phase(t, n) < n && T.Ticks(c, t) == RateAt(c, n, Periods(t, n), Phase(t, n))
  {
    hide Periods, Phase, T.Tick;
    if t == 0 {
      PhaseAtStart(n);
      assert c.falls + [] == c.falls && c.rises + [] == c.rises;
    } else {
      hide RateAt;
      RateTicks(c, n, t - 1);
      PhaseNext(t - 1, n);
      RateTick(c, n, Periods(t - 1, n), Phase(t - 1, n));
    }
  }

  // ---- Deadlines ----

  /** The timer runs in mode 2 and is due `first` ticks after `start`. */
  predicate JustStarted(f: F.Fast, n: nat, start: nat, first: nat) {
    && 1 <= n <= FULL && n == Initial(f.l)
    && f.m == 2 && f.usingTimer && f.gate && f.enabled && f.running && !f.disabled && f.out
    && f.deadline == Some(F.After(start, first, f.unit))
  }

  /** The times, in fractions of a tick, of the first k of a series of marks. */
  function Times(start: nat, first: nat, n: nat, unit: nat, k: nat): (r: seq<nat>)
    ensures |r| == k
  {
    if k == 0 then [] else Times(start, first, n, unit, k - 1) + [F.After(start, Mark(first, n, k - 1), unit)]
  }

  lemma {:induction false} TimesAt(start: nat, first: nat, n: nat, unit: nat, k: nat, i: nat)
    requires i < k
    ensures Times(start, first, n, unit, k)[i] == F.After(start, Mark(first, n, i), unit)
  {
    if i < k - 1 { TimesAt(start, first, n, unit, k - 1, i); }
  }

  /** The counter after k expiries. */
  function DueAt(f: F.Fast, n: nat, start: nat, first: nat, k: nat): F.Fast {
    f.(deadline := Some(F.After(start, Mark(first, n, k), f.unit)), count := f.count + n * k,
       falls := f.falls + Times(start, first, n, f.unit, k), rises := f.rises + Times(start, first, n, f.unit, k))
  }

  lemma DueOver(f: F.Fast, n: nat, start: nat, first: nat, k: nat)
    requires JustStarted(f, n, start, first)
    ensures F.Over(DueAt(f, n, start, first, k)) == DueAt(f, n, start, first, k + 1)
  {
    MarkNext(first, n, k);
    MarkNext(0, n, k);
    AfterAfter(start, Mark(first, n, k), n, f.unit);
    var at := F.After(start, Mark(first, n, k), f.unit);
    var ts := Times(start, first, n, f.unit, k);
    assert n * (k + 1) == n * k + n;
    hide F.After, Mark;
    assert f.falls + (ts + [at]) == f.falls + ts + [at];
    assert f.rises + (ts + [at]) == f.rises + ts + [at];
  }

  lemma AfterAfter(start: nat, a: nat, b: nat, unit: nat)
    ensures F.After(F.After(start, a, unit), b, unit) == F.After(start, a + b, unit)
  {
    assert (a + b) * unit == a * unit + b * unit;
  }

  /** All expiries up to and including time `until`. */
  function RunUntil(f: F.Fast, until: nat): F.Fast
    decreases Ahead(f, until), f.out
  {
    if f.deadline.Some? && f.deadline.value <= until then
      OverMovesOn(f);
      RunUntil(F.Over(f), until)
    else f
  }

  /** How far ahead of the deadline a time lies. */
  function Ahead(f: F.Fast, until: nat): nat {
    if f.deadline.Some? && f.deadline.value <= until then 1 + until - f.deadline.value else 0
  }

  /** A square wave of one tick is about to fall: its lower half takes no time at all. */
  predicate Stalls(f: F.Fast) {
    f.m == 3 && Initial(f.l) == 1 && f.out && f.usingTimer && f.enabled && !f.disabled
  }

  /** An expiry sets the next deadline later, unless that is so; then it comes again at
      once, with OUT low. */
  lemma OverMovesOn(f: F.Fast)
    requires f.deadline.Some?
    ensures var g := F.Over(f);
      && (g.deadline.Some? && g.deadline.value <= f.deadline.value <==> Stalls(f))
      && (Stalls(f) ==> g.deadline == f.deadline && !g.out)
  {
    hide F.Expiring, F.After, F.Read;
    var at := f.deadline.value;
    AfterLater(at, 0xffff, f.unit);
    if !f.disabled { ExpiringMovesOn(f.(deadline := None), at); }
  }

  /** What Over needs of the expiry of f at a time. */
  predicate Later(f: F.Fast, g: F.Fast, at: nat) {
    && g.m == f.m && g.usingTimer == f.usingTimer && g.enabled == f.enabled && g.disabled == f.disabled
    && (g.deadline.Some? <==> f.m <= 5 && f.usingTimer)
    && (g.deadline.Some? ==> if f.m == 3 && Initial(f.l) == 1 && f.out then g.deadline.value == at && !g.out
                             else g.deadline.value > at)
  }

  lemma ExpiringMovesOn(f: F.Fast, at: nat)
    requires f.deadline.None?
    ensures Later(f, F.Expiring(f, at), at)
  {
    hide F.Half, F.Expired, F.Pulse, F.Delay, F.Strobed, F.SoftStrobed;
    if f.m <= 1 {
      ExpiredMovesOn(f, at);
    } else if f.m == 2 {
      PulseMovesOn(f, at);
    } else if f.m == 3 {
      HalfMovesOn(f, at);
    } else if f.m == 4 || f.m == 5 {
      StrobeMovesOn(f, at);
    }
  }

  lemma ExpiredMovesOn(f: F.Fast, at: nat)
    requires f.deadline.None? && f.m <= 1
    ensures Later(f, F.Expired(f, at), at)
  {
    hide F.After;
    AfterLater(at, 0xffff, f.unit);
  }

  lemma StrobeMovesOn(f: F.Fast, at: nat)
    requires f.deadline.None? && (f.m == 4 || f.m == 5)
    ensures Later(f, F.Strobed(f, at), at) && Later(f, F.SoftStrobed(f, at), at)
  {
    hide F.After;
    AfterLater(at, 0xffff, f.unit);
    AfterLater(at, Initial(f.l), f.unit);
  }

  lemma PulseMovesOn(f: F.Fast, at: nat)
    requires f.deadline.None? && f.m == 2
    ensures Later(f, F.Pulse(F.Delay(f.(count := f.count + Initial(f.l)), Initial(f.l), at), at), at)
  {
    hide F.After;
    AfterLater(at, Initial(f.l), f.unit);
  }

  lemma HalfMovesOn(f: F.Fast, at: nat)
    requires f.deadline.None? && f.m == 3
    ensures Later(f, F.Half(f, at), at)
  {
    var n := Initial(f.l);
    AfterNow(at, f.unit);
    hide F.After;
    if n > 1 { AfterLater(at, n / 2, f.unit); }
    AfterLater(at, (n + 1) / 2, f.unit);
  }

  lemma AfterNow(at: nat, unit: nat)
    ensures F.After(at, 0, unit) == at
  {
  }

  lemma AfterLater(at: nat, ticks: nat, unit: nat)
    requires ticks > 0 && unit > 0
    ensures F.After(at, ticks, unit) > at
  {
    MulLe(1, ticks, unit);
  }

  /** A mark lies at or before t ticks and a fraction phi exactly when it is at most t. */
  lemma AfterCompares(start: nat, a: nat, t: nat, unit: nat, phi: nat)
    requires phi < unit
    ensures F.After(start, a, unit) <= F.After(start, t, unit) + phi <==> a <= t
  {
    if a <= t {
      MulLe(a, t, unit);
    } else {
      MulLe(t + 1, a, unit);
      assert (t + 1) * unit == t * unit + unit;
    }
  }

  /** After t ticks and a fraction phi of one, exactly the expiries due by tick t have
      happened. */
  lemma {:induction false} DueRuns(f: F.Fast, n: nat, start: nat, first: nat, k: nat, j: nat, t: nat, phi: nat)
    requires JustStarted(f, n, start, first) && phi < f.unit && k <= j
    requires (j == 0 || Mark(first, n, j - 1) <= t) && t < Mark(first, n, j)
    ensures RunUntil(DueAt(f, n, start, first, k), F.After(start, t, f.unit) + phi) == DueAt(f, n, start, first, j)
    decreases j - k
  {
    AfterCompares(start, Mark(first, n, k), t, f.unit, phi);
    if k < j {
      MulLe(k, j - 1, n);
      assert Mark(first, n, k) <= t;
      DueOver(f, n, start, first, k);
      hide F.Over, F.After, Mark;
      DueRuns(f, n, start, first, k + 1, j, t, phi);
    }
  }

  lemma DueFromStart(f: F.Fast, n: nat, start: nat, first: nat)
    requires JustStarted(f, n, start, first)
    ensures DueAt(f, n, start, first, 0) == f
  {
    assert f.falls + [] == f.falls && f.rises + [] == f.rises;
    assert Mark(first, n, 0) == first;
  }

  // ---- The two together ----

  /** The number of marks first, first + n, ... that are at most t. */
  function MarksBy(first: nat, n: nat, t: nat): nat
    requires n > 0
  {
    if t < first then 0 else (t - first) / n + 1
  }

  lemma MarksByIsExact(first: nat, n: nat, t: nat)
    requires n > 0
    ensures var j := MarksBy(first, n, t); (j == 0 || Mark(first, n, j - 1) <= t) && t < Mark(first, n, j)
  {
    if t >= first {
      var q, r := (t - first) / n, (t - first) % n;
      assert t - first == q * n + r;
      assert n * (q + 1) == q * n + n;
    }
  }

  lemma MarksByPeriods(n: nat, t: nat)
    requires n >= 2
    ensures MarksBy(n - 1, n, t) == if Phase(t, n) == n - 1 then Periods(t, n) + 1 else Periods(t, n)
  {
    var q, r := t / n, t % n;
    assert t == q * n + r;
    if r == n - 1 {
      ModUnique(t - (n - 1), q, 0, n);
    } else if q > 0 {
      assert t - (n - 1) == (q - 1) * n + r + 1 by { assert (q - 1) * n == q * n - n; }
      ModUnique(t - (n - 1), q - 1, r + 1, n);
    }
  }

  /** The deadline-driven counter at any time after it was started. */
  lemma DueUntil(f: F.Fast, n: nat, start: nat, first: nat, t: nat, phi: nat)
    requires JustStarted(f, n, start, first) && phi < f.unit
    ensures RunUntil(f, F.After(start, t, f.unit) + phi) == DueAt(f, n, start, first, MarksBy(first, n, t))
  {
    MarksByIsExact(first, n, t);
    DueFromStart(f, n, start, first);
    hide MarksBy, Mark, F.After, RunUntil, DueAt;
    DueRuns(f, n, start, first, 0, MarksBy(first, n, t), t, phi);
  }

  lemma TickingFalls(c: T.Ctr, n: nat, t: nat)
    requires JustLoaded(c, n)
    ensures T.Ticks(c, t).falls == c.falls + Progression(c.ticks + n - 1, n, MarksBy(n - 1, n, t))
  {
    hide Mark, MarksBy, Periods, Phase, T.Ticks, Progression;
    MarksByPeriods(n, t);
    RateTicks(c, n, t);
  }

  lemma DeadlineFalls(f: F.Fast, n: nat, start: nat, first: nat, t: nat, phi: nat)
    requires JustStarted(f, n, start, first) && phi < f.unit
    ensures RunUntil(f, F.After(start, t, f.unit) + phi).falls
         == f.falls + Times(start, first, n, f.unit, MarksBy(first, n, t))
  {
    hide Mark, MarksBy, RunUntil, F.After, Times;
    DueUntil(f, n, start, first, t, phi);
  }

  /** The same edges, once in ticks counted from an origin and once as times from a start. */
  predicate SameEdges(edges: seq<nat>, origin: nat, times: seq<nat>, start: nat, unit: nat) {
    && |edges| == |times|
    && forall i :: 0 <= i < |edges| ==> edges[i] >= origin && times[i] == F.After(start, edges[i] - origin, unit)
  }

  lemma SameMarks(origin: nat, ticks: nat, start: nat, first: nat, n: nat, unit: nat, k: nat)
    requires origin + first == ticks
    ensures SameEdges(Progression(ticks, n, k), origin, Times(start, first, n, unit, k), start, unit)
  {
    hide Progression, Times, F.After, Mark;
    forall i | 0 <= i < k
      ensures Progression(ticks, n, k)[i] == origin + Mark(first, n, i)
      ensures Times(start, first, n, unit, k)[i] == F.After(start, Mark(first, n, i), unit)
    {
      ProgressionAt(ticks, n, k, i);
      TimesAt(start, first, n, unit, k, i);
      MarkFrom(origin, first, n, i);
    }
  }

  lemma TailOf(a: seq<nat>, b: seq<nat>)
    ensures a <= a + b && (a + b)[|a|..] == b
  {
  }

  /** Mode 2: whenever the two counters are compared, t whole ticks and a fraction of
      one after a load, they have made the same falling edges at the same times: at
      N - 1 + kN ticks, for every k and any N of at least 2. */
  lemma FallingEdgesAgree(c: T.Ctr, f: F.Fast, n: nat, start: nat, t: nat, phi: nat)
    requires JustLoaded(c, n) && JustStarted(f, n, start, n - 1) && phi < f.unit
    ensures var edges := T.Ticks(c, t).falls; var times := RunUntil(f, F.After(start, t, f.unit) + phi).falls;
      && edges == c.falls + Progression(c.ticks + n - 1, n, MarksBy(n - 1, n, t))
      && f.falls <= times && SameEdges(edges[|c.falls|..], c.ticks, times[|f.falls|..], start, f.unit)
  {
    hide MarksBy, RunUntil, T.Ticks, Mark, Progression, Times, F.After, SameEdges;
    TickingFalls(c, n, t);
    DeadlineFalls(f, n, start, n - 1, t, phi);
    var k := MarksBy(n - 1, n, t);
    SameMarks(c.ticks, c.ticks + n - 1, start, n - 1, n, f.unit, k);
    TailOf(c.falls, Progression(c.ticks + n - 1, n, k));
    TailOf(f.falls, Times(start, n - 1, n, f.unit, k));
  }

  lemma QuotientOf(a: nat, phi: nat, u: nat)
    requires phi < u
    ensures (a * u + phi) / u == a
  {
    ModUnique(a * u + phi, a, phi, u);
  }

  /** The next deadline after tick t, in ticks from the load. */
  lemma NextDue(n: nat, t: nat)
    requires n >= 2
    ensures Mark(n - 1, n, MarksBy(n - 1, n, t)) == t + (if Phase(t, n) == n - 1 then n else n - 1 - Phase(t, n))
  {
    MarksByPeriods(n, t);
    var q, r := t / n, t % n;
    assert t == q * n + r;
    assert n * (q + 1) == q * n + n;
  }

  lemma TickingReads(c: T.Ctr, n: nat, t: nat)
    requires JustLoaded(c, n)
    ensures Phase(t, n) < n
    ensures T.Readable(T.Ticks(c, t)) == (n - Phase(t, n)) % 0x10000
  {
    hide T.Ticks, Periods, Phase, Mark, Progression;
    RateTicks(c, n, t);
  }

  lemma DeadlineReads(f: F.Fast, n: nat, start: nat, t: nat, phi: nat)
    requires n >= 2 && JustStarted(f, n, start, n - 1) && phi < f.unit
    ensures var now := F.After(start, t, f.unit) + phi;
      var ahead := if Phase(t, n) == n - 1 then n else n - 1 - Phase(t, n);
      Phase(t, n) < n
      && F.Read(RunUntil(f, now), now) == if phi > 0 then ahead else if ahead < FULL then ahead + 1 else FULL
  {
    hide Periods, Phase, MarksBy, RunUntil, Mark, Times, F.After;
    PhaseNext(t, n);
    NextDue(n, t);
    DueUntil(f, n, start, n - 1, t, phi);
    var ahead := if Phase(t, n) == n - 1 then n else n - 1 - Phase(t, n);
    LeftToDeadline(start, t, ahead, f.unit, phi);
    ReadBefore(DueAt(f, n, start, n - 1, MarksBy(n - 1, n, t)), F.After(start, t, f.unit) + phi);
    hide F.Read;
  }

  lemma ReadBefore(f: F.Fast, now: nat)
    requires f.usingTimer && f.m == 2 && f.deadline.Some? && now <= f.deadline.value
    ensures var left := (f.deadline.value - now) / f.unit; F.Read(f, now) == if left < FULL then left + 1 else FULL
  {
  }

  /** Mode 2 counts, read as 16 bits. On a whole tick the two agree unless it is the
      tick of an expiry, when the deadline-driven one already shows the next period;
      between ticks it shows what the ticking one will show at the next tick. */
  lemma ReadableCountsAgree(c: T.Ctr, f: F.Fast, n: nat, start: nat, t: nat, phi: nat)
    requires JustLoaded(c, n) && JustStarted(f, n, start, n - 1) && phi < f.unit
    ensures var now := F.After(start, t, f.unit) + phi;
      var read := F.Read(RunUntil(f, now), now) % 0x10000;
      && (phi == 0 ==> (read == T.Readable(T.Ticks(c, t)) <==> Phase(t, n) != n - 1))
      && (phi > 0 ==> read == T.Readable(T.Ticks(c, t + 1)))
  {
    hide RunUntil, T.Ticks, T.Readable, F.Read, F.After, Periods, Phase;
    TickingReads(c, n, t);
    TickingReads(c, n, t + 1);
    DeadlineReads(f, n, start, t, phi);
    PhaseNext(t, n);
    CompareReads(n, Phase(t, n), Phase(t + 1, n));
  }

  lemma CompareReads(n: nat, r: nat, next: nat)
    requires 2 <= n <= FULL && r < n && next == if r == n - 1 then 0 else r + 1
    ensures var ahead := if r == n - 1 then n else n - 1 - r;
      && ahead % 0x10000 == (n - next) % 0x10000
      && ((if ahead < FULL then ahead + 1 else FULL) % 0x10000 == (n - r) % 0x10000 <==> r != n - 1)
  {
  }

  lemma LeftToDeadline(start: nat, t: nat, ahead: nat, unit: nat, phi: nat)
    requires phi < unit && ahead > 0
    ensures var now := F.After(start, t, unit) + phi; var due := F.After(start, t + ahead, unit);
      due >= now && (due - now) / unit == if phi == 0 then ahead else ahead - 1
  {
    assert (t + ahead) * unit == t * unit + ahead * unit;
    MulLe(1, ahead, unit);
    if phi == 0 {
      QuotientOf(ahead, 0, unit);
    } else {
      assert ahead * unit - phi == (ahead - 1) * unit + (unit - phi);
      QuotientOf(ahead - 1, unit - phi, unit);
    }
  }
}
