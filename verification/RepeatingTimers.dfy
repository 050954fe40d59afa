/** Timers that begin their next period in their own callback never drift, whatever else
    happens meanwhile and however late they are served. */
module RepeatingTimers {
  import opened Division
  import opened Timestamps
  import opened Scheduling
  import opened SchedulingLaws
  import opened SchedulerDrain
  import opened SchedulerRuns
  import opened SplitPeriods

  // ---- Where a period begins ----

  /** A timer inside its own callback, or in the middle of a period, is moved on from the
      stamp it had. */
  lemma AutoMovesOn(s: Scheduler, i: nat, period: real)
    requires Valid(s) && Admissible(s, Auto(i, period)) && period > 0.0
    requires s.recs[i].inCallback || s.recs[i].period > 0.0
    requires s.Left(i) + Chunk(period, s.usec) < HALF
    ensures var t := Perform(s, Auto(i, period));
      i < |t.recs| && t.recs[i].enabled && t.Left(i) == s.Left(i) + Chunk(period, s.usec)
  {
    PerformKeepsValid(s, Auto(i, period));
    hide Perform, Remaining, Chunk, Ordered, InWindow, TargetSound, Matched, Advanced;
    AdvanceAddsToRemaining(s.recs[i].ts, Chunk(period, s.usec), s.tsc);
    QueuedIfEnabled(Perform(s, Auto(i, period)), i);
  }

  /** Any other timer is started from now. */
  lemma AutoStarts(s: Scheduler, i: nat, period: real)
    requires Valid(s) && Admissible(s, Auto(i, period)) && period > 0.0
    requires !s.recs[i].inCallback && s.recs[i].period <= 0.0
    ensures var t := Perform(s, Auto(i, period));
      i < |t.recs| && t.recs[i].enabled && t.Left(i) == Chunk(period, s.usec)
  {
    PerformKeepsValid(s, Auto(i, period));
    ChunkIsShort(period, s.usec);
    hide Perform, Remaining, Chunk, Ordered, InWindow, TargetSound, Matched, StampAfter;
    DelayIsRemaining(s.tsc, Chunk(period, s.usec));
    QueuedIfEnabled(Perform(s, Auto(i, period)), i);
  }

  // ---- One round ----

  /** A callback that begins the timer's next period, among actions on other timers. */
  predicate Renews(acts: seq<Action>, i: nat, period: real) {
    exists k :: 0 <= k < |acts| && acts[k] == Auto(i, period) && NotNamed(acts[..k], i) && NotNamed(acts[k + 1..], i)
  }

  /** The timer's plan in its m-th period. */
  function Later(p: Plan, m: nat): Plan {
    p.(fired := p.fired + m * p.stretches, calls := p.calls + m)
  }

  lemma {:induction false} PerformAllInParts(s: Scheduler, acts: seq<Action>, k: nat, tick: int)
    requires Valid(s) && k <= |acts| && WellBehaved(s, acts, tick)
    ensures WellBehaved(s, acts[..k], tick)
    ensures var q := PerformAll(s, acts[..k], tick);
      Valid(q) && WellBehaved(q, acts[k..], tick) && PerformAll(s, acts, tick) == PerformAll(q, acts[k..], tick)
    decreases k
  {
    hide Perform, Forward, Arming, Ordered, InWindow, TargetSound, Matched, Fits;
    if k == 0 {
      assert acts[..0] == [] && acts[0..] == acts;
    } else {
      PerformKeepsValid(s, acts[0]);
      PerformAllInParts(Perform(s, acts[0]), acts[1..], k - 1, tick);
      assert acts[..k][1..] == acts[1..][..k - 1];
      assert acts[1..][k - 1..] == acts[k..];
    }
  }

  /** A step on other timers keeps the plan. */
  lemma OthersKeepPlan(s: Scheduler, acts: seq<Action>, tick: int, p: Plan, from: int)
    requires Valid(s) && WellBehaved(s, acts, tick) && NotNamed(acts, p.id) && Under(s, p, from)
    ensures Under(PerformAll(s, acts, tick), p, from)
  {
    hide Under, Valid, WellBehaved;
    UnderNames(s, p, from);
    PerformAllKeeps(s, acts, tick);
    PerformAllLeaves(s, acts, tick, p.id);
    ContinuesCounts(s, PerformAll(s, acts, tick), p.id);
    hide PerformAll;
    UnderIsKept(s, PerformAll(s, acts, tick), p, from);
  }

  lemma UnderNames(s: Scheduler, p: Plan, from: int)
    requires Under(s, p, from)
    ensures p.id < |s.recs|
  {
  }

  lemma FlagKeepsPlan(s: Scheduler, p: Plan, from: int, inCallback: bool)
    requires Under(s, p, from)
    ensures p.id < |s.recs| && Under(WithFlag(s, p.id, inCallback), p, from)
  {
    hide Remaining, Rest, Ends, Sound;
    assert WithFlag(s, p.id, inCallback).Left(p.id) == s.Left(p.id);
  }

  /** The callback has run up to the action that begins the next period. */
  lemma BeforeRenewal(s: Scheduler, acts: seq<Action>, k: nat, i: nat)
    requires Valid(s) && Due(s) && StepOk(s, acts) && s.queue[0] == i && RunsCallback(s)
    requires k <= |acts| && NotNamed(acts[..k], i)
    ensures var p0 := WithFlag(Popped(s), i, true);
      Valid(p0) && WellBehaved(p0, acts, HeadTick(s)) && WellBehaved(p0, acts[..k], HeadTick(s))
    ensures var q := PerformAll(WithFlag(Popped(s), i, true), acts[..k], HeadTick(s));
      && Valid(q) && |q.recs| == |s.recs| && q.tsc == s.tsc && q.usec == s.usec
      && q.recs[i] == s.recs[i].(enabled := false, inCallback := true)
      && Fired(q.trace, i) == Fired(s.trace, i) + 1 && Calls(q.trace, i) == Calls(s.trace, i) + 1
      && WellBehaved(q, acts[k..], HeadTick(s))
      && var t := PerformAll(q, acts[k..], HeadTick(s));
         |t.recs| == |s.recs| && Step(s, acts) == WithFlag(t, i, false)
  {
    hide Remaining, Perform, HeadTick, Ordered, InWindow, TargetSound, Matched;
    PoppedKeepsValid(s, true);
    var p0 := WithFlag(Popped(s), i, true);
    PerformAllInParts(p0, acts, k, HeadTick(s));
    PerformAllKeeps(p0, acts[..k], HeadTick(s));
    PerformAllLeaves(p0, acts[..k], HeadTick(s), i);
    PerformAllKeeps(PerformAll(p0, acts[..k], HeadTick(s)), acts[k..], HeadTick(s));
    CountsInCallback(s, PerformAll(p0, acts[..k], HeadTick(s)), i);
  }

  lemma CountsInCallback(s: Scheduler, q: Scheduler, i: nat)
    requires Structured(s) && s.queue != [] && s.queue[0] == i && RunsCallback(s)
    requires Continues(WithFlag(Popped(s), i, true), q)
    ensures Fired(q.trace, i) == Fired(s.trace, i) + 1 && Calls(q.trace, i) == Calls(s.trace, i) + 1
  {
    hide HeadTick, Structured;
    TraceAfterPop(s, q);
    CountsAfterRound(s, q, i);
  }

  lemma HeadOf(acts: seq<Action>, k: nat)
    requires k < |acts|
    ensures acts[k..] != [] && acts[k..][0] == acts[k] && acts[k..][1..] == acts[k + 1..]
  {
  }

  /** The period begun inside the callback starts at the deadline the timer had. */
  lemma RenewalMakesPlan(q: Scheduler, i: nat, period: real, n: nat)
    requires Valid(q) && Admissible(q, Auto(i, period)) && q.recs[i].inCallback
    requires var p := PlanFor(q, i, period, n); Sound(p) && q.Left(i) < TICK
    ensures Under(Perform(q, Auto(i, period)), PlanFor(q, i, period, n), q.Left(i))
  {
    var p := PlanFor(q, i, period, n);
    StretchFirst(p);
    ChunkIsShort(period, q.usec);
    StartMakesPlan(q, i, period, n);
    hide Perform, Under, Valid, Remaining;
  }

  /** A round that serves the timer at its last stretch begins its next period where the
      last one ended. */
  lemma RenewalRound(s: Scheduler, acts: seq<Action>, p: Plan, from: int)
    requires Valid(s) && Due(s) && StepOk(s, acts) && s.queue[0] == p.id && RunsCallback(s)
    requires Renews(acts, p.id, p.period) && Under(s, p, from) && p.callback
    requires Fired(s.trace, p.id) - p.fired == p.stretches - 1
    ensures Under(Step(s, acts), Later(p, 1), from + Ticks(p.period, p.usec))
    ensures Fired(Step(s, acts).trace, p.id) == Fired(s.trace, p.id) + 1
  {
    var i := p.id;
    var k :| 0 <= k < |acts| && acts[k] == Auto(i, p.period) && NotNamed(acts[..k], i) && NotNamed(acts[k + 1..], i);
    HeadIsDue(s);
    BeforeRenewal(s, acts, k, i);
    var q := PerformAll(WithFlag(Popped(s), i, true), acts[..k], HeadTick(s));
    HeadOf(acts, k);
    PlanOf(s, q, p, from);
    hide Valid, StepOk, Popped, PerformAll, Due, RunsCallback, Step, Under, Sound;
    var rest := acts[k..];
    FirstAction(q, rest, HeadTick(s));
    RenewalMakesPlan(q, i, p.period, p.stretches);
    var r := Perform(q, Auto(i, p.period));
    OthersKeepPlan(r, rest[1..], HeadTick(s), Later(p, 1), q.Left(i));
    var u := PerformAll(r, rest[1..], HeadTick(s));
    FlagKeepsPlan(u, Later(p, 1), q.Left(i), false);
    StepCounts(s, acts);
  }

  lemma StepCounts(s: Scheduler, acts: seq<Action>)
    requires Valid(s) && Due(s) && StepOk(s, acts)
    ensures Fired(Step(s, acts).trace, s.queue[0]) == Fired(s.trace, s.queue[0]) + 1
  {
    StepProgresses(s, acts);
    CountsAfterRound(s, Step(s, acts), s.queue[0]);
  }

  lemma FirstAction(q: Scheduler, acts: seq<Action>, tick: int)
    requires Valid(q) && acts != [] && WellBehaved(q, acts, tick)
    ensures Admissible(q, acts[0])
    ensures var r := Perform(q, acts[0]);
      Valid(r) && WellBehaved(r, acts[1..], tick) && PerformAll(q, acts, tick) == PerformAll(r, acts[1..], tick)
  {
    hide Perform, Forward, Fits, Ordered, InWindow, TargetSound, Matched;
    PerformKeepsValid(q, acts[0]);
  }

  /** The plan inside the callback, as if it began there. */
  lemma PlanOf(s: Scheduler, q: Scheduler, p: Plan, from: int)
    requires Under(s, p, from) && p.callback && Fired(s.trace, p.id) - p.fired == p.stretches - 1
    requires |q.recs| == |s.recs| && q.tsc == s.tsc && q.usec == s.usec && q.recs[p.id].ts == s.recs[p.id].ts
    requires q.recs[p.id].callback == s.recs[p.id].callback
    requires Fired(q.trace, p.id) == Fired(s.trace, p.id) + 1 && Calls(q.trace, p.id) == Calls(s.trace, p.id) + 1
    ensures p.id < |s.recs|
    ensures PlanFor(q, p.id, p.period, p.stretches) == Later(p, 1) && Sound(Later(p, 1))
    ensures q.Left(p.id) == s.Left(p.id) == from + Ticks(p.period, p.usec)
  {
    hide Remaining, Rest, Ticks, Fired, Calls;
  }

  // ---- Period after period ----

  /** The timer is in its m-th period, which was begun m whole periods after `from`. */
  ghost predicate InPeriod(s: Scheduler, p: Plan, from: int, m: nat) {
    && p.callback && Under(s, Later(p, m), from + m * Ticks(p.period, p.usec))
    && Fired(s.trace, p.id) - Later(p, m).fired < p.stretches
  }

  /** If the round runs a callback, it is the timer's, which begins the next period, or it
      leaves the timer alone. */
  ghost predicate RoundRenews(s: Scheduler, acts: seq<Action>, i: nat, period: real)
    requires Valid(s) && s.queue != []
  {
    RunsCallback(s) ==> if s.queue[0] == i then Renews(acts, i, period) else NotNamed(acts, i)
  }

  lemma LaterNext(p: Plan, from: int, m: nat)
    ensures Later(Later(p, m), 1) == Later(p, m + 1)
    ensures from + m * Ticks(p.period, p.usec) + Ticks(p.period, p.usec) == from + (m + 1) * Ticks(p.period, p.usec)
  {
    hide Ticks;
    assert (m + 1) * p.stretches == m * p.stretches + p.stretches;
    assert (m + 1) * Ticks(p.period, p.usec) == m * Ticks(p.period, p.usec) + Ticks(p.period, p.usec);
  }

  /** Without a callback the actions do not matter. */
  lemma QuietRound(s: Scheduler, acts: seq<Action>)
    requires Valid(s) && Due(s) && StepOk(s, acts) && !RunsCallback(s)
    ensures StepOk(s, []) && Step(s, acts) == Step(s, [])
  {
    hide Remaining, AdvanceEx, Popped;
  }

  lemma RenewalRepeats(s: Scheduler, acts: seq<Action>, p: Plan, from: int, m: nat)
    requires Valid(s) && Due(s) && StepOk(s, acts) && s.queue[0] == p.id && RunsCallback(s)
    requires Renews(acts, p.id, p.period) && InPeriod(s, p, from, m)
    ensures InPeriod(Step(s, acts), p, from, m + 1)
  {
    hide StepOk, Step, Reached, RunsCallback, Under, Renews, Ticks, Ordered, InWindow, TargetSound, Matched, Tuned;
    LastStretch(s, p, from, m);
    RenewalRound(s, acts, Later(p, m), from + m * Ticks(p.period, p.usec));
    LaterNext(p, from, m);
  }

  lemma OtherRoundRepeats(s: Scheduler, acts: seq<Action>, p: Plan, from: int, m: nat)
    requires Valid(s) && Due(s) && StepOk(s, acts) && InPeriod(s, p, from, m)
    requires NotNamed(acts, p.id) && !(s.queue[0] == p.id && RunsCallback(s))
    ensures InPeriod(Step(s, acts), p, from, m)
  {
    hide StepOk, Step, Reached, RunsCallback, Under, Ticks, Ordered, InWindow, TargetSound, Matched, Tuned, NotNamed;
    RoundKeepsPlan(s, acts, Later(p, m), from + m * Ticks(p.period, p.usec));
    RoundCounts(s, acts, p.id);
    if s.queue[0] == p.id { StretchToGo(s, p, from, m); }
  }

  lemma RoundCounts(s: Scheduler, acts: seq<Action>, i: nat)
    requires Valid(s) && Due(s) && StepOk(s, acts)
    ensures Fired(Step(s, acts).trace, i) == Fired(s.trace, i) + if s.queue[0] == i then 1 else 0
  {
    StepProgresses(s, acts);
    CountsAfterRound(s, Step(s, acts), i);
  }

  /** The timer's period after a round. */
  function NextPeriod(s: Scheduler, i: nat, m: nat): nat
    requires Structured(s) && s.queue != []
  {
    if s.queue[0] == i && RunsCallback(s) then m + 1 else m
  }

  lemma RoundRepeats(s: Scheduler, acts: seq<Action>, p: Plan, from: int, m: nat)
    requires Valid(s) && Due(s) && StepOk(s, acts) && RoundRenews(s, acts, p.id, p.period) && InPeriod(s, p, from, m)
    ensures InPeriod(Step(s, acts), p, from, NextPeriod(s, p.id, m))
  {
    hide StepOk, Step, Reached, RunsCallback, InPeriod, Renews, Ordered, InWindow, TargetSound, Matched, Tuned;
    if !RunsCallback(s) {
      QuietRound(s, acts);
      OtherRoundRepeats(s, [], p, from, m);
    } else if s.queue[0] == p.id {
      RenewalRepeats(s, acts, p, from, m);
    } else {
      OtherRoundRepeats(s, acts, p, from, m);
    }
  }

  lemma LastStretch(s: Scheduler, p: Plan, from: int, m: nat)
    requires Structured(s) && s.queue != [] && s.queue[0] == p.id && RunsCallback(s) && InPeriod(s, p, from, m)
    ensures Fired(s.trace, p.id) - Later(p, m).fired == p.stretches - 1 && p.stretches > 0
  {
    hide Remaining, Ends, Ticks, Rest;
  }

  lemma StretchToGo(s: Scheduler, p: Plan, from: int, m: nat)
    requires Structured(s) && s.queue != [] && s.queue[0] == p.id && !RunsCallback(s) && InPeriod(s, p, from, m)
    ensures Fired(s.trace, p.id) + 1 - Later(p, m).fired < p.stretches
  {
    hide Remaining, Ends, Ticks, Rest;
  }

  /** Every callback of the drain that serves the timer begins its next period, and no other
      names it. */
  ghost predicate DrainRenews(s: Scheduler, script: Script, n: nat, i: nat, period: real)
    requires Valid(s) && Behaves(s, script, n)
    decreases Weight(s.recs, s.tsc)
  {
    Due(s) ==>
      && RoundRenews(s, script(n), i, period)
      && (StepProgresses(s, script(n));
          DrainRenews(Step(s, script(n)), script, if RunsCallback(s) then n + 1 else n, i, period))
  }

  lemma {:induction false} DrainRepeats(s: Scheduler, script: Script, n: nat, p: Plan, from: int, m: nat)
      returns (next: nat)
    requires Valid(s) && Behaves(s, script, n) && DrainRenews(s, script, n, p.id, p.period) && InPeriod(s, p, from, m)
    ensures InPeriod(Drain(s, script, n).s, p, from, next)
    decreases Weight(s.recs, s.tsc)
  {
    hide InPeriod, Step, Ordered, InWindow, TargetSound, Matched, Tuned, RoundRenews;
    if Due(s) {
      StepProgresses(s, script(n));
      RoundRepeats(s, script(n), p, from, m);
      next := DrainRepeats(Step(s, script(n)), script, if RunsCallback(s) then n + 1 else n, p, from,
                           NextPeriod(s, p.id, m));
    } else {
      next := m;
      if s.queue != [] { RefreshedRepeats(s, s.recs[s.queue[0]].ts / TICK, p, from, m); }
    }
  }

  lemma RefreshedRepeats(s: Scheduler, target: Word32, p: Plan, from: int, m: nat)
    requires InPeriod(s, p, from, m)
    ensures InPeriod(s.(target := target), p, from, m)
  {
    hide Under, Ticks;
    TargetIsNoMatter(s, target, Later(p, m), from + m * Ticks(p.period, p.usec));
  }

  // ---- Runs ----

  /** Only the timer's own callback names the timer, and begins its next period each time. */
  ghost predicate OpRenews(s: Scheduler, op: Op, i: nat, period: real)
    requires Valid(s) && Allowed(s, op)
  {
    match op
    case Process(script) => DrainRenews(s, script, 0, i, period)
    case _ => LeavesAlone(op, i)
  }

  lemma ApplyCounts(s: Scheduler, op: Op, i: nat)
    requires Valid(s) && Allowed(s, op) && !op.Process?
    ensures Fired(Apply(s, op).trace, i) == Fired(s.trace, i)
  {
    hide Remaining, Perform, Enabled, Rebase, Arming, Ordered, InWindow, TargetSound, Matched;
    match op
    case Do(a) =>
      PerformContinues(s, a);
      ContinuesCounts(s, Perform(s, a), i);
    case Reenable(j) =>
      EnabledContinues(s, j);
      ContinuesCounts(s, Enabled(s, j), i);
    case RebaseTo(clock) => RebaseKeepsHistory(s, clock);
    case TickTo(clock) =>
  }

  lemma ApplyRepeats(s: Scheduler, op: Op, p: Plan, from: int, m: nat) returns (next: nat)
    requires Valid(s) && Allowed(s, op) && OpRenews(s, op, p.id, p.period) && InPeriod(s, p, from, m)
    ensures InPeriod(Apply(s, op), p, from - Elapsed(s, op) * TICK, next)
  {
    hide Under, Ticks, Drain, DrainRenews, Perform, Enabled, Rebase, Ordered, InWindow, TargetSound, Matched, Tuned;
    if op.Process? {
      next := m;
      if s.queue != [] { next := DrainRepeats(s, op.script, 0, p, from, m); }
    } else {
      next := m;
      ApplyCounts(s, op, p.id);
      ApplyKeepsPlan(s, op, Later(p, m), from + m * Ticks(p.period, p.usec));
    }
  }

  ghost predicate RunRenews(s: Scheduler, ops: seq<Op>, i: nat, period: real)
    requires Valid(s) && RunAllowed(s, ops)
    decreases |ops|
  {
    ops != [] ==>
      && OpRenews(s, ops[0], i, period)
      && (ApplyKeepsValid(s, ops[0]);
          RunRenews(Apply(s, ops[0]), ops[1..], i, period))
  }

  lemma {:induction false} RunRepeats(s: Scheduler, ops: seq<Op>, p: Plan, from: int, m: nat) returns (next: nat)
    requires Valid(s) && RunAllowed(s, ops) && RunRenews(s, ops, p.id, p.period) && InPeriod(s, p, from, m)
    ensures InPeriod(Run(s, ops), p, from - ElapsedIn(s, ops) * TICK, next)
    decreases |ops|
  {
    hide InPeriod, Valid, Apply, Allowed, OpRenews, Elapsed;
    if ops == [] {
      next := m;
    } else {
      ApplyKeepsValid(s, ops[0]);
      next := ApplyRepeats(s, ops[0], p, from, m);
      next := RunRepeats(Apply(s, ops[0]), ops[1..], p, from - Elapsed(s, ops[0]) * TICK, next);
    }
  }

  /** What happens after the first period is begun: the timer's own callback begins it
      again each time, and nothing else names it. */
  ghost predicate Renewing(s: Scheduler, i: nat, period: real, ops: seq<Op>) {
    Valid(s) && RunAllowed(s, ops) && RunRenews(s, ops, i, period)
  }

  ghost function Renewed(s: Scheduler, i: nat, period: real, ops: seq<Op>): (Scheduler, int)
    requires Renewing(s, i, period, ops)
  {
    (Run(s, ops), ElapsedIn(s, ops))
  }

  lemma RenewedInPeriod(s: Scheduler, ops: seq<Op>, p: Plan, from: int, m: nat) returns (next: nat)
    requires Renewing(s, p.id, p.period, ops) && InPeriod(s, p, from, m)
    ensures var (t, gone) := Renewed(s, p.id, p.period, ops); InPeriod(t, p, from - gone * TICK, next)
  {
    hide InPeriod, Valid;
    next := RunRepeats(s, ops, p, from, m);
  }

  lemma BegunInPeriod(s: Scheduler, i: nat, period: real, n: nat)
    requires MayStart(s, i, period, n) && s.recs[i].callback
    ensures InPeriod(Begun(s, i, period, n), PlanFor(s, i, period, n), Start(s, i), 0)
  {
    hide Under, MayStart, Start, Ticks;
    BegunUnder(s, i, period, n);
    BegunCounts(s, i, period, n);
  }

  lemma BegunCounts(s: Scheduler, i: nat, period: real, n: nat)
    requires MayStart(s, i, period, n)
    ensures Fired(Begun(s, i, period, n).trace, i) == Fired(s.trace, i) && n > 0
  {
    hide Perform, Ordered, InWindow, TargetSound, Matched;
    PerformContinues(s, Auto(i, period));
    ContinuesCounts(s, Perform(s, Auto(i, period)), i);
    StretchFirst(PlanFor(s, i, period, n));
  }

  lemma InPeriodMeans(t: Scheduler, p: Plan, from: int, m: nat)
    requires InPeriod(t, p, from, m)
    ensures var k := Fired(t.trace, p.id) - p.fired; var r := k - m * p.stretches;
      && p.id < |t.recs| && t.recs[p.id].enabled && 0 <= r < p.stretches && k >= 0
      && t.Left(p.id) == from + m * Ticks(p.period, p.usec) + Ends(p, r)
      && Calls(t.trace, p.id) - p.calls == m
  {
    hide Remaining, Ticks, Fired, Calls;
  }

  /** A timer whose callback begins its next period never drifts. After a period P is begun
      for an idle timer, and whatever else then happens - other timers and their callbacks,
      draining as late as may be, the clock running on or being rebased - the timer is
      always enabled, its callback has run once for every n expiries, n being P in seconds
      rounded up, and its deadline lies as many times floor(P * usec) after the start as
      periods have been begun. */
  lemma RepeatingNeverDrifts(s: Scheduler, i: nat, period: real, n: nat, ops: seq<Op>)
    requires MayStart(s, i, period, n) && Renewing(Begun(s, i, period, n), i, period, ops)
    requires i < |s.recs| && s.recs[i].callback && !s.recs[i].inCallback && s.recs[i].period <= 0.0
    ensures var (t, gone) := Renewed(Begun(s, i, period, n), i, period, ops);
      var k := Fired(t.trace, i) - Fired(s.trace, i);
      && n > 0 && i < |t.recs| && t.recs[i].enabled && k >= 0
      && Calls(t.trace, i) - Calls(s.trace, i) == k / n
      && t.Left(i) == k / n * Ticks(period, s.usec) - gone * TICK
           + if k % n + 1 < n then (k % n + 1) * (MAX_USEC * s.usec) else Ticks(period, s.usec)
  {
    hide Begun, Renewing, Renewed, InPeriod, Remaining, Ticks, Fired, Calls, Valid;
    var p := PlanFor(s, i, period, n);
    BegunInPeriod(s, i, period, n);
    BegunCounts(s, i, period, n);
    var m := RenewedInPeriod(Begun(s, i, period, n), ops, p, 0, 0);
    var (t, gone) := Renewed(Begun(s, i, period, n), i, period, ops);
    InPeriodMeans(t, p, 0 - gone * TICK, m);
    var k := Fired(t.trace, i) - Fired(s.trace, i);
    ModUnique(k, m, k - m * n, n);
  }
}
