/** The drain loop as a whole, and runs made of any operations. */
module SchedulerRuns {
  import opened Timestamps
  import opened Scheduling
  import opened SchedulingLaws
  import opened SchedulerDrain

  /** Every callback the drain runs from here on only arms timers forward and inside
      the window; the n-th callback performs script(n). */
  ghost predicate Behaves(s: Scheduler, script: Script, n: nat)
    requires Valid(s)
    decreases Weight(s.recs, s.tsc)
  {
    Due(s) ==>
      && StepOk(s, script(n))
      && (StepProgresses(s, script(n));
          Behaves(Step(s, script(n)), script, if RunsCallback(s) then n + 1 else n))
  }

  /** How a drain ends: with the target refreshed, or with the list emptied, where
      the source goes on to read the stamp of a timer that is not there. */
  datatype Outcome = Outcome(s: Scheduler, calls: nat, emptied: bool)

  ghost function Drain(s: Scheduler, script: Script, n: nat): Outcome
    requires Valid(s) && Behaves(s, script, n)
    decreases Weight(s.recs, s.tsc)
  {
    if s.queue == [] then Outcome(s, n, true)
    else if !Due(s) then Outcome(s.(target := s.recs[s.queue[0]].ts / TICK), n, false)
    else
      StepProgresses(s, script(n));
      Drain(Step(s, script(n)), script, if RunsCallback(s) then n + 1 else n)
  }

  lemma TargetRefreshKeepsValid(s: Scheduler)
    requires Valid(s) && s.queue != []
    ensures Valid(s.(target := s.recs[s.queue[0]].ts / TICK))
  {
    WholeTicksLeft(s.recs[s.queue[0]].ts, s.tsc);
    hide Remaining, Signed32, Replay;
    var t := s.(target := s.recs[s.queue[0]].ts / TICK);
    assert forall j :: 0 <= j < |s.recs| ==> t.Left(j) == s.Left(j);
    assert Live(t) == Live(s);
  }

  /** The drain is correct: it stops with the invariants in force, and unless the
      list has been emptied no live timer is left expired and the target is the
      earliest deadline. */
  lemma {:induction false} DrainLeavesNothingDue(s: Scheduler, script: Script, n: nat)
    requires Valid(s) && Behaves(s, script, n)
    ensures var r := Drain(s, script, n);
      && Valid(r.s) && |r.s.recs| == |s.recs| && r.s.tsc == s.tsc && r.s.usec == s.usec
      && (r.emptied <==> r.s.queue == [])
      && (forall j :: 0 <= j < |r.s.recs| && r.s.recs[j].enabled ==> !Reached(r.s.recs[j].ts, s.tsc))
      && (!r.emptied ==> r.s.target == r.s.recs[r.s.queue[0]].ts / TICK)
    decreases Weight(s.recs, s.tsc)
  {
    if Due(s) {
      StepProgresses(s, script(n));
      hide Valid, Reached, Step;
      DrainLeavesNothingDue(Step(s, script(n)), script, if RunsCallback(s) then n + 1 else n);
    } else if s.queue != [] {
      TargetRefreshKeepsValid(s);
      NotDueMeansNone(s);
    }
  }

  lemma NotDueMeansNone(s: Scheduler)
    requires Valid(s) && s.queue != [] && !Due(s)
    ensures forall j :: 0 <= j < |s.recs| && s.recs[j].enabled ==> !Reached(s.recs[j].ts, s.tsc)
  {
    WholeTicksLeft(s.recs[s.queue[0]].ts, s.tsc);
    forall j | 0 <= j < |s.recs| && s.recs[j].enabled ensures !Reached(s.recs[j].ts, s.tsc) {
      WholeTicksLeft(s.recs[j].ts, s.tsc);
      hide Remaining, Signed32, Reached;
      var a :| 0 <= a < |s.queue| && s.queue[a] == j;
      assert s.Left(s.queue[0]) <= s.Left(s.queue[a]);
    }
  }

  /** Expiries recorded from position k on come in nondecreasing whole-tick order,
      none before the given tick. */
  ghost predicate ExpiriesInOrder(trace: seq<Event>, k: nat, tick: int) {
    && (forall a :: k <= a < |trace| && trace[a].Expired? ==> tick <= trace[a].tick <= 0)
    && (forall a, b :: k <= a < b < |trace| && trace[a].Expired? && trace[b].Expired? ==>
          trace[a].tick <= trace[b].tick)
  }

  /** Timers run out in nondecreasing order of their whole-tick deadlines, and only
      timers whose tick has come. */
  lemma {:induction false} DrainExpiresInOrder(s: Scheduler, script: Script, n: nat, tick: int)
    requires Valid(s) && Behaves(s, script, n) && NoneBefore(s, tick)
    ensures var r := Drain(s, script, n);
      && |s.trace| <= |r.s.trace| && r.s.trace[..|s.trace|] == s.trace
      && ExpiriesInOrder(r.s.trace, |s.trace|, tick)
    decreases Weight(s.recs, s.tsc)
  {
    if Due(s) {
      var t := Step(s, script(n));
      var m := if RunsCallback(s) then n + 1 else n;
      StepProgresses(s, script(n));
      DrainExpiresInOrder(t, script, m, HeadTick(s));
      HeadTickIsDue(s);
      assert s.queue[0] in s.queue && tick <= HeadTick(s);
      var r := Drain(t, script, m);
      assert r == Drain(s, script, n);
      OrderGrows(s.trace, t.trace, r.s.trace, s.queue[0], HeadTick(s), RunsCallback(s), tick);
    }
  }

  lemma HeadTickIsDue(s: Scheduler)
    requires Structured(s) && Due(s)
    ensures HeadTick(s) <= 0
  {
    WholeTicksLeft(s.recs[s.queue[0]].ts, s.tsc);
  }

  lemma OrderGrows(a: seq<Event>, b: seq<Event>, c: seq<Event>, i: nat, tick: int, called: bool, floor: int)
    requires |a| < |b| <= |c| && b[..|a|] == a && c[..|b|] == b
    requires b[|a|] == Expired(i, tick, called) && floor <= tick <= 0
    requires forall k :: |a| < k < |b| ==> !b[k].Expired?
    requires ExpiriesInOrder(c, |b|, tick)
    ensures c[..|a|] == a && ExpiriesInOrder(c, |a|, floor)
  {
    assert forall k :: 0 <= k < |b| ==> c[k] == c[..|b|][k] == b[k];
    assert c[..|a|] == b[..|a|];
  }

  // ---- Runs of any operations ----

  datatype Op =
    | Do(action: Action)
    | Reenable(id: nat)
    | Process(script: Script)
    | RebaseTo(clock: Word64)
    | TickTo(later: Word64)

  ghost predicate Allowed(s: Scheduler, op: Op)
    requires Valid(s)
  {
    match op
    case Do(a) => Admissible(s, a)
    case Reenable(i) => i < |s.recs| && Fits(s, i, s.recs[i].ts)
    case Process(script) => Behaves(s, script, 0)
    case RebaseTo(clock) => true
    case TickTo(clock) => MayTick(s, clock)
  }

  ghost function Apply(s: Scheduler, op: Op): Scheduler
    requires Valid(s) && Allowed(s, op)
  {
    match op
    case Do(a) => Perform(s, a)
    case Reenable(i) => Enabled(s, i)
    case Process(script) => if s.queue == [] then s else Drain(s, script, 0).s
    case RebaseTo(clock) => Rebase(s, clock)
    case TickTo(clock) => s.(tsc := clock)
  }

  lemma EnabledKeepsValid(s: Scheduler, i: nat)
    requires Valid(s) && i < |s.recs| && Fits(s, i, s.recs[i].ts)
    ensures Valid(Enabled(s, i)) && OnlyTouches(s, Enabled(s, i), i) && i in Enabled(s, i).queue
  {
    ArmKeeps(s, i, s.recs[i].ts);
    assert s.With(i, s.recs[i].(ts := s.recs[i].ts)) == s;
  }

  lemma ApplyKeepsValid(s: Scheduler, op: Op)
    requires Valid(s) && Allowed(s, op)
    ensures Valid(Apply(s, op))
  {
    match op
    case Do(a) => PerformKeepsValid(s, a);
    case Reenable(i) => EnabledKeepsValid(s, i);
    case Process(script) => DrainLeavesNothingDue(s, script, 0);
    case RebaseTo(clock) => RebaseKeepsValid(s, clock);
    case TickTo(clock) => TickKeepsValid(s, clock);
  }

  ghost predicate RunAllowed(s: Scheduler, ops: seq<Op>)
    requires Valid(s)
    decreases |ops|
  {
    ops != [] ==>
      && Allowed(s, ops[0])
      && (ApplyKeepsValid(s, ops[0]);
          RunAllowed(Apply(s, ops[0]), ops[1..]))
  }

  ghost function Run(s: Scheduler, ops: seq<Op>): Scheduler
    requires Valid(s) && RunAllowed(s, ops)
    decreases |ops|
  {
    if ops == [] then s else
      ApplyKeepsValid(s, ops[0]);
      Run(Apply(s, ops[0]), ops[1..])
  }

  ghost predicate Fresh(s: Scheduler) {
    s.queue == [] && s.trace == [] && 0 < s.usec && MAX_USEC * s.usec <= HALF - TICK
    && forall i :: 0 <= i < |s.recs| ==> !s.recs[i].enabled && !s.recs[i].split
  }

  lemma FreshIsValid(s: Scheduler)
    requires Fresh(s)
    ensures Valid(s)
  {
    assert Live(s) == {};
  }

  lemma TargetIsBound(s: Scheduler)
    requires Valid(s)
    ensures forall j :: 0 <= j < |s.recs| && s.recs[j].enabled ==>
      Signed32(s.target - s.tsc) <= Signed32(s.recs[j].ts / TICK - s.tsc)
  {
    forall j | 0 <= j < |s.recs| && s.recs[j].enabled
      ensures Signed32(s.target - s.tsc) <= Signed32(s.recs[j].ts / TICK - s.tsc)
    {
      WholeTicksLeft(s.recs[j].ts, s.tsc);
      hide Remaining, Signed32;
      var a :| 0 <= a < |s.queue| && s.queue[a] == j;
      assert s.Left(s.queue[0]) <= s.Left(s.queue[a]);
    }
  }

  /** Whole runs: from a fresh scheduler, whatever is enabled, disabled, stopped,
      processed or rebased, the queue stays distinct, ordered and made of exactly the
      enabled timers, every expiry so far answers one arming, and the cached target
      is not later than any live deadline. */
  lemma {:induction false} RunKeepsInvariants(s: Scheduler, ops: seq<Op>)
    requires Valid(s) && RunAllowed(s, ops)
    ensures var t := Run(s, ops);
      && Valid(t)
      && (forall j :: 0 <= j < |t.recs| && t.recs[j].enabled ==>
            Signed32(t.target - t.tsc) <= Signed32(t.recs[j].ts / TICK - t.tsc))
    decreases |ops|
  {
    hide Signed32, Remaining, Apply, Allowed, Structured, Ordered, InWindow, TargetSound, Matched, Tuned;
    if ops == [] {
      TargetIsBound(s);
    } else {
      ApplyKeepsValid(s, ops[0]);
      RunKeepsInvariants(Apply(s, ops[0]), ops[1..]);
    }
  }
}
