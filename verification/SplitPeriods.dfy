/** Periods longer than a second are armed in stretches of a second each. Over any run of
    the scheduler the stretches add up to the period: its callback runs once, at the last. */
module SplitPeriods {
  import opened Timestamps
  import opened Scheduling
  import opened SchedulingLaws
  import opened SchedulerDrain
  import opened SchedulerRuns

  /** A period begun for a timer, with its number of seconds rounded up, and how often the
      timer had run out and been called before. */
  datatype Plan = Plan(id: nat, period: real, usec: nat, stretches: nat, callback: bool, fired: nat, calls: nat)

  predicate Sound(p: Plan) {
    && 0 < p.usec && MAX_USEC * p.usec <= HALF - TICK && 0.0 < p.period
    && ((p.stretches - 1) * MAX_USEC) as real < p.period <= (p.stretches * MAX_USEC) as real
  }

  /** The end of stretch k after the start: whole seconds, and the period itself at last. */
  function Ends(p: Plan, k: nat): int {
    if k + 1 < p.stretches then (k + 1) * (MAX_USEC * p.usec) else Ticks(p.period, p.usec)
  }

  function Rest(p: Plan, k: nat): real {
    if k + 1 < p.stretches then p.period - ((k + 1) * MAX_USEC) as real else 0.0
  }

  // ---- Arithmetic ----

  lemma FloorShift(x: real, k: int)
    ensures (x - k as real).Floor == x.Floor - k
  {
  }

  lemma MulReal(a: int, b: int)
    ensures (a * b) as real == a as real * b as real
  {
  }

  /** Seconds taken off a period are seconds' worth of clock taken off the delay. */
  lemma SecondsLess(period: real, k: nat, usec: nat)
    ensures Ticks(period - (k * MAX_USEC) as real, usec) == Ticks(period, usec) - k * (MAX_USEC * usec)
  {
    var less := k * MAX_USEC;
    MulReal(less, usec);
    assert (period - less as real) * usec as real == period * usec as real - (less * usec) as real;
    assert less * usec == k * (MAX_USEC * usec);
    FloorShift(period * usec as real, less * usec);
  }

  lemma TicksSign(period: real, usec: nat)
    requires 0.0 <= period
    ensures 0 <= Ticks(period, usec)
  {
    assert 0.0 <= period * usec as real;
  }

  lemma StretchNext(p: Plan, k: nat)
    requires Sound(p) && k + 1 < p.stretches
    ensures Rest(p, k) > 0.0 && (Rest(p, k) > MAX_USEC as real <==> k + 2 < p.stretches)
    ensures Rest(p, k + 1) == if Rest(p, k) > MAX_USEC as real then Rest(p, k) - MAX_USEC as real else 0.0
    ensures Ends(p, k + 1) == Ends(p, k) + Chunk(Rest(p, k), p.usec)
  {
    hide Ticks;
    Seconds(k + 1, p.stretches - 1);
    if k + 2 < p.stretches { Seconds(k + 2, p.stretches - 1); }
    SecondsLess(p.period, k + 1, p.usec);
    assert (k + 2) * (MAX_USEC * p.usec) == (k + 1) * (MAX_USEC * p.usec) + MAX_USEC * p.usec;
  }

  lemma Seconds(a: int, b: int)
    requires a <= b
    ensures (a * MAX_USEC) as real <= (b * MAX_USEC) as real
  {
  }

  lemma StretchFirst(p: Plan)
    requires Sound(p)
    ensures p.stretches > 0 && (p.period > MAX_USEC as real <==> 1 < p.stretches)
    ensures Rest(p, 0) == if p.period > MAX_USEC as real then p.period - MAX_USEC as real else 0.0
    ensures Ends(p, 0) == Chunk(p.period, p.usec)
  {
    hide Ticks;
  }

  /** No stretch ends after the period. */
  lemma EndsInPeriod(p: Plan, k: nat)
    requires Sound(p) && k < p.stretches
    ensures 0 <= Ends(p, k) <= Ticks(p.period, p.usec)
  {
    hide Ticks;
    TicksSign(p.period, p.usec);
    if k + 1 < p.stretches {
      Seconds(k + 1, p.stretches - 1);
      SecondsLess(p.period, k + 1, p.usec);
      TicksSign(p.period - ((k + 1) * MAX_USEC) as real, p.usec);
      assert 0 <= (k + 1) * (MAX_USEC * p.usec);
    }
  }

  // ---- Counting expiries and callbacks ----

  function Fired(trace: seq<Event>, i: nat): nat {
    if trace == [] then 0 else
      var e := trace[|trace| - 1];
      Fired(trace[..|trace| - 1], i) + if e.Expired? && e.id == i then 1 else 0
  }

  function Calls(trace: seq<Event>, i: nat): nat {
    if trace == [] then 0 else
      var e := trace[|trace| - 1];
      Calls(trace[..|trace| - 1], i) + if e.Expired? && e.id == i && e.called then 1 else 0
  }

  lemma {:induction false} QuietSuffix(a: seq<Event>, b: seq<Event>, i: nat)
    requires |a| <= |b| && b[..|a|] == a && forall k :: |a| <= k < |b| ==> !b[k].Expired?
    ensures Fired(b, i) == Fired(a, i) && Calls(b, i) == Calls(a, i)
    decreases |b|
  {
    if |a| == |b| {
      assert a == b;
    } else {
      assert b[..|b| - 1][..|a|] == a;
      QuietSuffix(a, b[..|b| - 1], i);
    }
  }

  lemma CountsAfterRound(s: Scheduler, t: Scheduler, i: nat)
    requires Structured(s) && s.queue != [] && ExpiresHeadOnce(s, t)
    ensures Fired(t.trace, i) == Fired(s.trace, i) + if s.queue[0] == i then 1 else 0
    ensures Calls(t.trace, i) == Calls(s.trace, i) + if s.queue[0] == i && RunsCallback(s) then 1 else 0
  {
    hide HeadTick, RunsCallback, Structured;
    var n := |s.trace|;
    var mid := t.trace[..n + 1];
    assert mid[..n] == s.trace;
    QuietSuffix(mid, t.trace, i);
  }

  // ---- One timer under its plan ----

  /** The plan's timer after its k-th expiry, k as the history counts them: the deadline is
      the end of stretch k, `from` being when the period began; every earlier stretch has
      really ended; only the last expiry runs the callback and leaves the timer out. */
  ghost predicate Under(s: Scheduler, p: Plan, from: int) {
    && Sound(p) && p.id < |s.recs| && s.usec == p.usec && s.recs[p.id].callback == p.callback
    && p.fired <= Fired(s.trace, p.id)
    && Stage(s.recs[p.id], p, Fired(s.trace, p.id) - p.fired)
    && Calls(s.trace, p.id) == p.calls + (if Fired(s.trace, p.id) - p.fired == p.stretches && p.callback then 1 else 0)
    && Timed(s, p, Fired(s.trace, p.id) - p.fired, from)
  }

  ghost predicate Stage(r: Record, p: Plan, k: nat) {
    && k <= p.stretches && (r.enabled <==> k < p.stretches) && (r.split <==> k + 1 < p.stretches)
    && (k < p.stretches ==> r.period == Rest(p, k))
  }

  ghost predicate Timed(s: Scheduler, p: Plan, k: nat, from: int)
    requires p.id < |s.recs|
  {
    && (k < p.stretches ==> s.Left(p.id) == from + Ends(p, k))
    && (k > 0 ==> from + Ends(p, k - 1) < TICK)
  }

  /** Anything that leaves the timer's record and the clock alone, and expires nothing of it. */
  lemma UnderIsKept(s: Scheduler, t: Scheduler, p: Plan, from: int)
    requires Under(s, p, from) && |t.recs| == |s.recs| && t.recs[p.id] == s.recs[p.id]
    requires t.tsc == s.tsc && t.usec == s.usec
    requires Fired(t.trace, p.id) == Fired(s.trace, p.id) && Calls(t.trace, p.id) == Calls(s.trace, p.id)
    ensures Under(t, p, from)
  {
  }

  lemma ContinuesCounts(s: Scheduler, t: Scheduler, i: nat)
    requires Continues(s, t)
    ensures Fired(t.trace, i) == Fired(s.trace, i) && Calls(t.trace, i) == Calls(s.trace, i)
  {
    QuietSuffix(s.trace, t.trace, i);
  }

  predicate NotNamed(acts: seq<Action>, i: nat) {
    forall k :: 0 <= k < |acts| ==> acts[k].id != i
  }

  lemma {:induction false} PerformAllLeaves(s: Scheduler, acts: seq<Action>, tick: int, i: nat)
    requires Valid(s) && WellBehaved(s, acts, tick) && NotNamed(acts, i) && i < |s.recs|
    ensures var t := PerformAll(s, acts, tick);
      |t.recs| == |s.recs| && t.recs[i] == s.recs[i] && t.tsc == s.tsc && t.usec == s.usec
    decreases |acts|
  {
    hide Perform, Arming, Forward;
    if acts != [] {
      PerformKeepsValid(s, acts[0]);
      assert acts[0].id != i;
      hide Valid;
      PerformAllLeaves(Perform(s, acts[0]), acts[1..], tick, i);
    }
  }

  // ---- Rounds of the drain ----

  lemma AdvanceExConsumes(s: Scheduler, i: nat, start: bool)
    requires Structured(s) && i < |s.recs| && MAX_USEC * s.usec < WRAP
    ensures var r := AdvanceEx(s, i, start); var p := s.recs[i].period;
      && i < |r.recs|
      && (r.recs[i].split <==> p > MAX_USEC as real)
      && r.recs[i].period == if p > MAX_USEC as real then p - MAX_USEC as real else 0.0
  {
    hide IndexOf, Without, Splice, Slot, Remaining;
    if s.recs[i].period > 0.0 { ArmIsStructured(s, i, ChunkStamp(s, i, s.recs[i].period, start)); }
    else { DisabledIsStructured(s, i); }
    hide Arm, Disabled;
  }

  /** The head is another timer. */
  lemma OtherRound(s: Scheduler, acts: seq<Action>, i: nat)
    requires Valid(s) && Due(s) && StepOk(s, acts) && NotNamed(acts, i) && i < |s.recs| && s.queue[0] != i
    ensures var t := Step(s, acts);
      |t.recs| == |s.recs| && t.recs[i] == s.recs[i] && t.tsc == s.tsc && t.usec == s.usec
  {
    hide Remaining, Perform, HeadTick;
    var h := s.queue[0];
    PoppedKeepsValid(s, true);
    PoppedKeepsValid(s, false);
    if s.recs[h].split {
      NextStretchFits(s, h);
      AdvanceExKeeps(Popped(s), h, false);
    } else if s.recs[h].callback {
      PerformAllLeaves(WithFlag(Popped(s), h, true), acts, HeadTick(s), i);
    }
  }

  /** The head is the timer itself, with a stretch to go. */
  lemma StretchRound(s: Scheduler, acts: seq<Action>, i: nat)
    requires Valid(s) && Due(s) && StepOk(s, acts) && s.queue[0] == i && s.recs[i].split
    ensures |Step(s, acts).recs| == |s.recs|
    ensures var t := Step(s, acts); var r := s.recs[i]; var d := t.recs[i];
      && t.tsc == s.tsc && t.usec == s.usec && d.callback == r.callback && d.enabled
      && t.Left(i) == s.Left(i) + Chunk(r.period, s.usec)
      && (d.split <==> r.period > MAX_USEC as real)
      && d.period == (if r.period > MAX_USEC as real then r.period - MAX_USEC as real else 0.0)
      && !RunsCallback(s)
  {
    hide Remaining, Chunk;
    PoppedKeepsValid(s, false);
    NextStretchFits(s, i);
    AdvanceExKeeps(Popped(s), i, false);
    AdvanceExConsumes(Popped(s), i, false);
  }

  /** The head is the timer itself, at its last stretch. */
  lemma LastRound(s: Scheduler, acts: seq<Action>, i: nat)
    requires Valid(s) && Due(s) && StepOk(s, acts) && NotNamed(acts, i) && s.queue[0] == i && !s.recs[i].split
    ensures |Step(s, acts).recs| == |s.recs|
    ensures var t := Step(s, acts); var d := t.recs[i];
      && t.tsc == s.tsc && t.usec == s.usec
      && d.callback == s.recs[i].callback && !d.enabled && !d.split
      && (RunsCallback(s) <==> s.recs[i].callback)
  {
    hide Remaining, Perform, HeadTick;
    PoppedKeepsValid(s, true);
    if s.recs[i].callback {
      PerformAllLeaves(WithFlag(Popped(s), i, true), acts, HeadTick(s), i);
    }
  }

  lemma HeadIsDue(s: Scheduler)
    requires Valid(s) && Due(s)
    ensures var h := s.queue[0]; h < |s.recs| && s.Left(h) < TICK && s.recs[h].enabled
  {
    WholeTicksLeft(s.recs[s.queue[0]].ts, s.tsc);
    assert s.queue[0] in s.queue;
  }

  /** One expiry on, the next stretch begun. */
  lemma StretchUnder(s: Scheduler, t: Scheduler, p: Plan, from: int)
    requires Under(s, p, from) && |t.recs| == |s.recs| && t.tsc == s.tsc && t.usec == s.usec
    requires s.recs[p.id].split && s.Left(p.id) < TICK
    requires Fired(t.trace, p.id) == Fired(s.trace, p.id) + 1 && Calls(t.trace, p.id) == Calls(s.trace, p.id)
    requires var r := s.recs[p.id]; var d := t.recs[p.id];
      && d.callback == r.callback && d.enabled && t.Left(p.id) == s.Left(p.id) + Chunk(r.period, s.usec)
      && (d.split <==> r.period > MAX_USEC as real)
      && d.period == if r.period > MAX_USEC as real then r.period - MAX_USEC as real else 0.0
    ensures Under(t, p, from)
  {
    hide Remaining, Rest, Ends, Chunk, Sound;
    StretchNext(p, Fired(s.trace, p.id) - p.fired);
  }

  /** The last expiry. */
  lemma LastUnder(s: Scheduler, t: Scheduler, p: Plan, from: int)
    requires Under(s, p, from) && |t.recs| == |s.recs| && t.tsc == s.tsc && t.usec == s.usec
    requires s.recs[p.id].enabled && !s.recs[p.id].split && s.Left(p.id) < TICK
    requires Fired(t.trace, p.id) == Fired(s.trace, p.id) + 1
    requires Calls(t.trace, p.id) == Calls(s.trace, p.id) + if s.recs[p.id].callback then 1 else 0
    requires var d := t.recs[p.id]; d.callback == s.recs[p.id].callback && !d.enabled && !d.split
    ensures Under(t, p, from)
  {
    hide Remaining, Rest, Ends, Sound;
  }

  /** Every round of the drain keeps the plan. */
  lemma RoundKeepsPlan(s: Scheduler, acts: seq<Action>, p: Plan, from: int)
    requires Valid(s) && Due(s) && StepOk(s, acts) && NotNamed(acts, p.id) && Under(s, p, from)
    ensures Under(Step(s, acts), p, from)
  {
    var t := Step(s, acts);
    StepProgresses(s, acts);
    CountsAfterRound(s, t, p.id);
    HeadIsDue(s);
    assert p.id < |s.recs|;
    hide Valid, Step, StepOk, Due, Remaining, NotNamed, Under, RunsCallback, ExpiresHeadOnce, Fired, Calls;
    if s.queue[0] != p.id {
      OtherRound(s, acts, p.id);
      UnderIsKept(s, t, p, from);
    } else if s.recs[p.id].split {
      StretchRound(s, acts, p.id);
      StretchUnder(s, t, p, from);
    } else {
      LastRound(s, acts, p.id);
      LastUnder(s, t, p, from);
    }
  }

  ghost predicate Leaves(script: Script, i: nat) {
    forall n: nat :: NotNamed(script(n), i)
  }

  /** So does a whole drain, and afterwards nothing of the plan is overdue. */
  lemma {:induction false} DrainKeepsPlan(s: Scheduler, script: Script, n: nat, p: Plan, from: int)
    requires Valid(s) && Behaves(s, script, n) && Leaves(script, p.id) && Under(s, p, from)
    ensures Under(Drain(s, script, n).s, p, from)
    decreases Weight(s.recs, s.tsc)
  {
    hide Under, Ordered, InWindow, TargetSound, Matched, Tuned, Step, Leaves;
    if Due(s) {
      StepProgresses(s, script(n));
      LeavesCall(script, n, p.id);
      RoundKeepsPlan(s, script(n), p, from);
      DrainKeepsPlan(Step(s, script(n)), script, if RunsCallback(s) then n + 1 else n, p, from);
    } else if s.queue != [] {
      TargetIsNoMatter(s, s.recs[s.queue[0]].ts / TICK, p, from);
    }
  }

  lemma LeavesCall(script: Script, n: nat, i: nat)
    requires Leaves(script, i)
    ensures NotNamed(script(n), i)
  {
  }

  lemma TargetIsNoMatter(s: Scheduler, target: Word32, p: Plan, from: int)
    requires Under(s, p, from)
    ensures Under(s.(target := target), p, from)
  {
    hide Remaining;
    assert s.(target := target).Left(p.id) == s.Left(p.id);
  }

  // ---- Runs ----

  ghost predicate LeavesAlone(op: Op, i: nat) {
    match op
    case Do(a) => a.id != i
    case Reenable(j) => j != i
    case Process(script) => Leaves(script, i)
    case RebaseTo(_) => true
    case TickTo(_) => true
  }

  /** The ticks an operation lets go by; a rebase lets none go by. */
  function Elapsed(s: Scheduler, op: Op): int {
    if op.TickTo? then op.later - s.tsc else 0
  }

  ghost function ElapsedIn(s: Scheduler, ops: seq<Op>): int
    requires Valid(s) && RunAllowed(s, ops)
    decreases |ops|
  {
    if ops == [] then 0 else
      ApplyKeepsValid(s, ops[0]);
      Elapsed(s, ops[0]) + ElapsedIn(Apply(s, ops[0]), ops[1..])
  }

  lemma EnabledContinues(s: Scheduler, i: nat)
    requires Structured(s) && i < |s.recs|
    ensures Continues(s, Enabled(s, i)) && Enabled(s, i).usec == s.usec
  {
    hide IndexOf, Without, Splice, Slot, Remaining, Structured;
  }

  lemma ClockKeepsPlan(s: Scheduler, t: Scheduler, p: Plan, from: int, gone: nat)
    requires Under(s, p, from) && |t.recs| == |s.recs| && t.usec == s.usec && t.trace == s.trace
    requires t.recs[p.id] == s.recs[p.id].(ts := t.recs[p.id].ts)
    requires s.recs[p.id].enabled ==> t.Left(p.id) == s.Left(p.id) - gone * TICK
    ensures Under(t, p, from - gone * TICK)
  {
    hide Remaining, Rest, Ends, Sound;
  }

  lemma QueuedIfEnabled(s: Scheduler, i: nat)
    requires Valid(s) && i < |s.recs|
    ensures s.recs[i].enabled <==> i in s.queue
  {
  }

  lemma RebaseKeepsHistory(s: Scheduler, clock: Word64)
    requires Structured(s)
    ensures Rebase(s, clock).trace == s.trace && Rebase(s, clock).usec == s.usec
  {
  }

  lemma ApplyKeepsPlan(s: Scheduler, op: Op, p: Plan, from: int)
    requires Valid(s) && Allowed(s, op) && LeavesAlone(op, p.id) && Under(s, p, from)
    ensures Under(Apply(s, op), p, from - Elapsed(s, op) * TICK)
  {
    hide Remaining, Perform, Enabled, Rebase, Arming, Drain, Ordered, InWindow, TargetSound, Matched, Stage, Timed,
      Sound;
    match op
    case Do(a) =>
      PerformKeepsValid(s, a);
      PerformContinues(s, a);
      ContinuesCounts(s, Perform(s, a), p.id);
      UnderIsKept(s, Perform(s, a), p, from);
    case Reenable(j) =>
      EnabledKeepsValid(s, j);
      EnabledContinues(s, j);
      ContinuesCounts(s, Enabled(s, j), p.id);
      UnderIsKept(s, Enabled(s, j), p, from);
    case Process(script) => if s.queue != [] { DrainKeepsPlan(s, script, 0, p, from); }
    case RebaseTo(clock) =>
      RebaseLeavesTimeLeft(s, clock);
      RebaseKeepsHistory(s, clock);
      QueuedIfEnabled(s, p.id);
      ClockKeepsPlan(s, Rebase(s, clock), p, from, 0);
    case TickTo(clock) =>
      TickKeepsValid(s, clock);
      QueuedIfEnabled(s, p.id);
      ClockKeepsPlan(s, s.(tsc := clock), p, from, clock - s.tsc);
  }

  lemma {:induction false} RunKeepsPlan(s: Scheduler, ops: seq<Op>, p: Plan, from: int)
    requires Valid(s) && RunAllowed(s, ops) && Under(s, p, from)
    requires forall k :: 0 <= k < |ops| ==> LeavesAlone(ops[k], p.id)
    ensures Under(Run(s, ops), p, from - ElapsedIn(s, ops) * TICK)
    decreases |ops|
  {
    hide Under, Valid, Apply, Allowed, LeavesAlone, Elapsed;
    if ops != [] {
      ApplyKeepsValid(s, ops[0]);
      ApplyKeepsPlan(s, ops[0], p, from);
      RunKeepsPlan(Apply(s, ops[0]), ops[1..], p, from - Elapsed(s, ops[0]) * TICK);
    }
  }

  // ---- From the start of a period ----

  ghost function PlanFor(s: Scheduler, i: nat, period: real, stretches: nat): Plan
    requires i < |s.recs|
  {
    Plan(i, period, s.usec, stretches, s.recs[i].callback, Fired(s.trace, i), Calls(s.trace, i))
  }

  /** When a period begins: now, or for a timer in the middle of one, or inside its own
      callback, at the deadline it had. */
  function Start(s: Scheduler, i: nat): int
    requires i < |s.recs|
  {
    if StartsAfresh(s.recs[i]) then 0 else s.Left(i)
  }

  /** Starting a period puts the timer under its plan. */
  lemma StartMakesPlan(s: Scheduler, i: nat, period: real, stretches: nat)
    requires Valid(s) && Admissible(s, Auto(i, period))
    requires var p := PlanFor(s, i, period, stretches); Sound(p) && Start(s, i) + Ends(p, 0) < HALF
    ensures Under(Perform(s, Auto(i, period)), PlanFor(s, i, period, stretches), Start(s, i))
  {
    hide Perform, Remaining, Rest, Ends, Ticks, Chunk, Ordered, InWindow, TargetSound, Matched, StampAfter, Advanced,
      Fired, Calls, Fits;
    var p := PlanFor(s, i, period, stretches);
    var a := Auto(i, period);
    var t := Perform(s, a);
    PerformKeepsValid(s, a);
    PerformContinues(s, a);
    ContinuesCounts(s, t, i);
    StartRecord(s, i, period);
    StretchFirst(p);
    ChunkIsShort(period, s.usec);
    QueuedIfEnabled(t, i);
    if StartsAfresh(s.recs[i]) {
      DelayIsRemaining(s.tsc, Chunk(period, s.usec));
    } else {
      AdvanceAddsToRemaining(s.recs[i].ts, Chunk(period, s.usec), s.tsc);
    }
  }

  lemma StartRecord(s: Scheduler, i: nat, period: real)
    requires Structured(s) && i < |s.recs| && MAX_USEC * s.usec < WRAP && period > 0.0
    ensures var t := Perform(s, Auto(i, period));
      && i < |t.recs|
      && (t.recs[i].split <==> period > MAX_USEC as real)
      && t.recs[i].period == if period > MAX_USEC as real then period - MAX_USEC as real else 0.0
  {
    var w := s.With(i, s.recs[i].(period := period));
    WithIsStructured(s, i, s.recs[i].(period := period));
    AdvanceExConsumes(w, i, StartsAfresh(s.recs[i]));
    hide AdvanceEx, Structured;
  }

  /** A period may be begun for a timer that is idle, or whose deadline is not too far off;
      its seconds rounded up are n. */
  ghost predicate MayStart(s: Scheduler, i: nat, period: real, n: nat) {
    && Valid(s) && Admissible(s, Auto(i, period))
    && Sound(PlanFor(s, i, period, n)) && Start(s, i) + Ends(PlanFor(s, i, period, n), 0) < HALF
  }

  ghost function Begun(s: Scheduler, i: nat, period: real, n: nat): Scheduler
    requires MayStart(s, i, period, n)
  {
    Perform(s, Auto(i, period))
  }

  /** What happens after that does not name the timer. */
  ghost predicate OthersRun(s: Scheduler, i: nat, ops: seq<Op>) {
    Valid(s) && RunAllowed(s, ops) && forall k :: 0 <= k < |ops| ==> LeavesAlone(ops[k], i)
  }

  /** Where that leads, and the ticks that have gone by. */
  ghost function After(s: Scheduler, i: nat, ops: seq<Op>): (Scheduler, int)
    requires OthersRun(s, i, ops)
  {
    (Run(s, ops), ElapsedIn(s, ops))
  }

  /** On a fresh scheduler any period can be begun for an idle timer. */
  lemma FreshMayStart(s: Scheduler, i: nat, period: real, n: nat)
    requires Fresh(s) && i < |s.recs| && StartsAfresh(s.recs[i]) && Sound(PlanFor(s, i, period, n))
    ensures MayStart(s, i, period, n) && OthersRun(Begun(s, i, period, n), i, [])
  {
    hide Remaining, Ticks, Chunk;
    FreshIsValid(s);
    StretchFirst(PlanFor(s, i, period, n));
    ChunkIsShort(period, s.usec);
    PerformKeepsValid(s, Auto(i, period));
  }

  lemma BegunUnder(s: Scheduler, i: nat, period: real, n: nat)
    requires MayStart(s, i, period, n)
    ensures i < |s.recs| && Under(Begun(s, i, period, n), PlanFor(s, i, period, n), Start(s, i))
  {
    hide Perform, Under, Valid, Sound, Ends, Start;
    StartMakesPlan(s, i, period, n);
  }

  lemma AfterUnder(s: Scheduler, ops: seq<Op>, p: Plan, from: int)
    requires OthersRun(s, p.id, ops) && Under(s, p, from)
    ensures var (t, gone) := After(s, p.id, ops); Under(t, p, from - gone * TICK)
  {
    hide Under, Valid, LeavesAlone;
    RunKeepsPlan(s, ops, p, from);
  }

  lemma RunUnderPlan(s: Scheduler, i: nat, period: real, n: nat, ops: seq<Op>)
    requires MayStart(s, i, period, n) && OthersRun(Begun(s, i, period, n), i, ops)
    ensures var (t, gone) := After(Begun(s, i, period, n), i, ops);
      i < |s.recs| && Under(t, PlanFor(s, i, period, n), Start(s, i) - gone * TICK)
  {
    hide MayStart, Begun, OthersRun, After, Start, Under;
    BegunUnder(s, i, period, n);
    AfterUnder(Begun(s, i, period, n), ops, PlanFor(s, i, period, n), Start(s, i));
  }

  /** Splitting is exact over any run. After a period P is begun for timer i, and whatever
      else then happens that does not name it - other timers and their callbacks, draining,
      the clock running on or being rebased - the timer has run out k times, k at most P in
      seconds rounded up, and until the last its deadline lies at the end of stretch k,
      which is floor(P * usec) after the start at the last, as if P had never been split.
      Only the last expiry runs the callback. */
  lemma SplittingIsExact(s: Scheduler, i: nat, period: real, n: nat, ops: seq<Op>)
    requires MayStart(s, i, period, n) && OthersRun(Begun(s, i, period, n), i, ops)
    ensures var (t, gone) := After(Begun(s, i, period, n), i, ops); var p := PlanFor(s, i, period, n);
      var k := Fired(t.trace, i) - Fired(s.trace, i); var left := Start(s, i) - gone * TICK;
      && i < |t.recs| && 0 <= k <= n
      && (t.recs[i].enabled <==> k < n)
      && (k < n ==> t.Left(i) == left + if k + 1 < n then (k + 1) * (MAX_USEC * s.usec) else Ticks(period, s.usec))
      && (k > 0 ==> left + Ends(p, k - 1) < TICK)
      && Calls(t.trace, i) - Calls(s.trace, i) == if k == n && s.recs[i].callback then 1 else 0
  {
    hide MayStart, Begun, OthersRun, After, Sound, Start, Remaining, Ticks, Fired, Calls;
    RunUnderPlan(s, i, period, n, ops);
  }

  lemma NothingLeftDue(s: Scheduler, script: Script, i: nat)
    requires Valid(s) && Behaves(s, script, 0) && i < |s.recs|
    ensures var t := Apply(s, Process(script));
      i < |t.recs| && (t.recs[i].enabled ==> t.Left(i) >= TICK)
  {
    var t := Apply(s, Process(script));
    DrainLeavesNothingDue(s, script, 0);
    QueuedIfEnabled(s, i);
    hide Valid, Drain, Reached, Remaining, Behaves;
    WholeTicksLeft(t.recs[i].ts, s.tsc);
  }

  lemma PlanIsOver(t: Scheduler, p: Plan, from: int)
    requires Under(t, p, from) && (t.recs[p.id].enabled ==> t.Left(p.id) >= TICK)
    ensures Fired(t.trace, p.id) - p.fired == p.stretches <==> from + Ticks(p.period, p.usec) < TICK
  {
    hide Remaining, Ticks, Fired, Calls;
    var k := Fired(t.trace, p.id) - p.fired;
    if k < p.stretches { EndsInPeriod(p, k); }
  }

  lemma ProcessedOnTime(s: Scheduler, script: Script, p: Plan, from: int)
    requires Valid(s) && Behaves(s, script, 0) && Leaves(script, p.id) && Under(s, p, from)
    ensures var t := Apply(s, Process(script));
      && Under(t, p, from)
      && (Fired(t.trace, p.id) - p.fired == p.stretches <==> from + Ticks(p.period, p.usec) < TICK)
  {
    ProcessKeepsPlan(s, script, p, from);
    NothingLeftDue(s, script, p.id);
    hide Valid, Apply, Behaves, Leaves, Under;
    PlanIsOver(Apply(s, Process(script)), p, from);
  }

  lemma ProcessKeepsPlan(s: Scheduler, script: Script, p: Plan, from: int)
    requires Valid(s) && Behaves(s, script, 0) && Leaves(script, p.id) && Under(s, p, from)
    ensures Under(Apply(s, Process(script)), p, from)
  {
    hide Valid, Apply, Under, Behaves, Leaves;
    ApplyKeepsPlan(s, Process(script), p, from);
  }

  /** The scheduler is drained, and no callback names the timer. */
  ghost predicate MayProcess(s: Scheduler, script: Script, i: nat) {
    Valid(s) && Behaves(s, script, 0) && Leaves(script, i)
  }

  ghost function Processed(s: Scheduler, script: Script, i: nat): Scheduler
    requires MayProcess(s, script, i)
  {
    Apply(s, Process(script))
  }

  lemma ProcessedUnder(s: Scheduler, script: Script, p: Plan, from: int)
    requires MayProcess(s, script, p.id) && Under(s, p, from)
    ensures var t := Processed(s, script, p.id);
      && Under(t, p, from)
      && (Fired(t.trace, p.id) - p.fired == p.stretches <==> from + Ticks(p.period, p.usec) < TICK)
  {
    hide Valid, Apply, Behaves, Leaves, Under;
    ProcessedOnTime(s, script, p, from);
  }

  /** So each time the scheduler has been drained, the timer's callback has been run if and
      only if floor(P * usec), counted from the start, is less than a tick away. */
  lemma CallbackOnTime(s: Scheduler, i: nat, period: real, n: nat, ops: seq<Op>, script: Script)
    requires MayStart(s, i, period, n) && OthersRun(Begun(s, i, period, n), i, ops)
    requires i < |s.recs| && s.recs[i].callback && MayProcess(After(Begun(s, i, period, n), i, ops).0, script, i)
    ensures var (r, gone) := After(Begun(s, i, period, n), i, ops); var t := Processed(r, script, i);
      Calls(t.trace, i) - Calls(s.trace, i)
        == if Start(s, i) - gone * TICK + Ticks(period, s.usec) < TICK then 1 else 0
  {
    hide MayStart, Begun, OthersRun, After, Sound, Start, Remaining, Ticks, Fired, Calls, MayProcess, Processed;
    RunUnderPlan(s, i, period, n, ops);
    var (r, gone) := After(Begun(s, i, period, n), i, ops);
    ProcessedUnder(r, script, PlanFor(s, i, period, n), Start(s, i) - gone * TICK);
  }
}
