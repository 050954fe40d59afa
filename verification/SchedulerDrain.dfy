/** Draining the expired timers. A callback is any list of actions: script(n) is what
    the n-th callback of the drain does, so a statement over all scripts covers every
    behaviour a callback can have. */
module SchedulerDrain {
  import opened Timestamps
  import opened Scheduling
  import opened SchedulingLaws

  type Script = nat -> seq<Action>

  ghost predicate Due(s: Scheduler)
    requires Structured(s)
  {
    s.queue != [] && Reached(s.recs[s.queue[0]].ts, s.tsc)
  }

  /** The whole tick, relative to now, at which the earliest timer falls due. */
  function HeadTick(s: Scheduler): int
    requires Structured(s) && s.queue != []
  {
    s.Left(s.queue[0]) / TICK
  }

  /** The head timer is between two stretches of a long period, or it is really due
      and has a callback to run. */
  predicate RunsCallback(s: Scheduler)
    requires Structured(s) && s.queue != []
  {
    !s.recs[s.queue[0]].split && s.recs[s.queue[0]].callback
  }

  function Popped(s: Scheduler): Scheduler
    requires Structured(s) && s.queue != []
  {
    var i := s.queue[0];
    s.With(i, s.recs[i].(enabled := false))
     .(queue := s.queue[1..], trace := s.trace + [Expired(i, HeadTick(s), RunsCallback(s))])
  }

  function WithFlag(s: Scheduler, i: nat, inCallback: bool): Scheduler
    requires i < |s.recs|
  {
    s.With(i, s.recs[i].(inCallback := inCallback))
  }

  /** An arming moves forward: not to an earlier tick than the one being served, and
      either into the future or strictly later than the timer's previous stamp. */
  ghost predicate Forward(s: Scheduler, a: Action, tick: int)
    requires Structured(s) && a.id < |s.recs| && MAX_USEC * s.usec < WRAP
  {
    Arming(s, a).Some? ==>
      var left := Remaining(Arming(s, a).value, s.tsc);
      left / TICK >= tick && (left >= TICK || left > s.Left(a.id))
  }

  ghost predicate WellBehaved(s: Scheduler, acts: seq<Action>, tick: int)
    requires Valid(s)
    decreases |acts|
  {
    acts != [] ==>
      && Admissible(s, acts[0])
      && Forward(s, acts[0], tick)
      && (PerformKeepsValid(s, acts[0]);
          WellBehaved(Perform(s, acts[0]), acts[1..], tick))
  }

  ghost function PerformAll(s: Scheduler, acts: seq<Action>, tick: int): Scheduler
    requires Valid(s) && WellBehaved(s, acts, tick)
    decreases |acts|
  {
    if acts == [] then s else
      PerformKeepsValid(s, acts[0]);
      PerformAll(Perform(s, acts[0]), acts[1..], tick)
  }

  lemma PoppedKeepsValid(s: Scheduler, inCallback: bool)
    requires Valid(s) && s.queue != []
    ensures var i := s.queue[0]; var t := WithFlag(Popped(s), i, inCallback);
      && Valid(Popped(s)) && Valid(t) && t.queue == s.queue[1..] && OnlyTouches(s, t, i) && i !in t.queue
      && t.recs[i].ts == s.recs[i].ts && !t.recs[i].enabled
  {
    var i := s.queue[0];
    var p := Popped(s);
    PoppedIsStructured(s);
    assert Tuned(p) && Tuned(WithFlag(p, i, inCallback));
    assert OnlyTouches(s, p, i) && OnlyTouches(s, WithFlag(p, i, inCallback), i);
    hide Remaining, Signed32, Replay, Structured, Ordered, TargetSound, InWindow, Tuned, OnlyTouches, HeadTick;
    MatchedOneMore(s, p, Expired(i, HeadTick(s), RunsCallback(s)));
    PoppedKeepsOrder(s, p);
    BookkeepingKeeps(p, i, p.recs[i].(inCallback := inCallback));
  }

  lemma PoppedIsStructured(s: Scheduler)
    requires Structured(s) && s.queue != []
    ensures Structured(Popped(s)) && s.queue[0] !in Popped(s).queue
    ensures forall j :: j in s.queue <==> j == s.queue[0] || j in Popped(s).queue
  {
    hide Remaining;
    assert s.queue == [s.queue[0]] + s.queue[1..];
  }

  lemma PoppedKeepsOrder(s: Scheduler, p: Scheduler)
    requires Valid(s) && Structured(p) && s.queue != [] && p.queue == s.queue[1..]
    requires p.tsc == s.tsc && p.target == s.target && |p.recs| == |s.recs|
    requires forall j :: 0 <= j < |s.recs| ==> p.recs[j].ts == s.recs[j].ts
    ensures Ordered(p) && TargetSound(p) && InWindow(p)
    ensures forall j :: j in p.queue ==> p.Left(j) >= s.Left(s.queue[0])
  {
    hide Remaining, Signed32, Matched;
    RemovalKeepsOrder(s, p, 0);
    WindowIsInherited(s, p);
  }

  ghost predicate StepOk(s: Scheduler, acts: seq<Action>)
    requires Valid(s) && s.queue != []
  {
    PoppedKeepsValid(s, true);
    RunsCallback(s) ==> WellBehaved(WithFlag(Popped(s), s.queue[0], true), acts, HeadTick(s))
  }

  /** One round of the drain: take the earliest timer out, then arm its next stretch
      or run its callback. */
  ghost function Step(s: Scheduler, acts: seq<Action>): Scheduler
    requires Valid(s) && s.queue != [] && StepOk(s, acts)
  {
    PoppedKeepsValid(s, true);
    var i := s.queue[0];
    if s.recs[i].split then AdvanceEx(Popped(s), i, false)
    else if s.recs[i].callback then
      PerformAllKeeps(WithFlag(Popped(s), i, true), acts, HeadTick(s));
      WithFlag(PerformAll(WithFlag(Popped(s), i, true), acts, HeadTick(s)), i, false)
    else Popped(s)
  }

  // ---- A weight that every round lowers ----

  function Overdue(r: Record, tsc: Word64): nat {
    if Remaining(r.ts, tsc) < TICK then TICK - Remaining(r.ts, tsc) else 0
  }

  function RecordWeight(r: Record, tsc: Word64): nat {
    3 * Overdue(r, tsc) + if !r.enabled || Remaining(r.ts, tsc) >= TICK then 0 else if r.split then 2 else 1
  }

  function Weight(recs: seq<Record>, tsc: Word64): nat {
    if recs == [] then 0 else RecordWeight(recs[0], tsc) + Weight(recs[1..], tsc)
  }

  ghost predicate NoHeavier(s: Scheduler, t: Scheduler) {
    && |t.recs| == |s.recs| && t.tsc == s.tsc
    && forall j :: 0 <= j < |s.recs| ==> RecordWeight(t.recs[j], s.tsc) <= RecordWeight(s.recs[j], s.tsc)
  }

  lemma {:induction false} WeightFalls(old1: seq<Record>, new1: seq<Record>, tsc: Word64)
    requires |old1| == |new1|
    requires forall j :: 0 <= j < |old1| ==> RecordWeight(new1[j], tsc) <= RecordWeight(old1[j], tsc)
    ensures Weight(new1, tsc) <= Weight(old1, tsc)
    ensures (exists j :: 0 <= j < |old1| && RecordWeight(new1[j], tsc) < RecordWeight(old1[j], tsc)) ==>
      Weight(new1, tsc) < Weight(old1, tsc)
  {
    hide RecordWeight;
    if old1 != [] {
      WeightFalls(old1[1..], new1[1..], tsc);
      forall j | 0 < j < |old1| && RecordWeight(new1[j], tsc) < RecordWeight(old1[j], tsc)
        ensures Weight(new1, tsc) < Weight(old1, tsc)
      {
        assert RecordWeight(new1[1..][j - 1], tsc) < RecordWeight(old1[1..][j - 1], tsc);
      }
    }
  }

  /** t continues the history of s without any expiry. */
  ghost predicate Continues(s: Scheduler, t: Scheduler) {
    && |s.trace| <= |t.trace| && t.trace[..|s.trace|] == s.trace
    && forall k :: |s.trace| <= k < |t.trace| ==> !t.trace[k].Expired?
  }

  ghost predicate NoneBefore(s: Scheduler, tick: int)
    requires Structured(s)
  {
    forall j :: j in s.queue ==> s.Left(j) / TICK >= tick
  }

  lemma PerformContinues(s: Scheduler, a: Action)
    requires Structured(s) && a.id < |s.recs| && MAX_USEC * s.usec < WRAP
    ensures Continues(s, Perform(s, a)) && Perform(s, a).usec == s.usec
  {
    hide IndexOf, Without, Splice, Slot, Remaining, Structured;
  }

  lemma RearmedIsNoHeavier(r: Record, t: Record, tsc: Word64)
    requires if t.enabled then Remaining(t.ts, tsc) >= TICK || Remaining(t.ts, tsc) > Remaining(r.ts, tsc)
             else t.ts == r.ts
    ensures RecordWeight(t, tsc) <= RecordWeight(r, tsc)
  {
    hide Remaining;
  }

  lemma TouchingKeepsNoneBefore(s: Scheduler, t: Scheduler, i: nat, tick: int)
    requires Structured(s) && Structured(t) && i < |t.recs| && OnlyTouches(s, t, i) && NoneBefore(s, tick)
    requires i in t.queue ==> t.Left(i) / TICK >= tick
    ensures NoneBefore(t, tick)
  {
    hide Remaining;
    forall j | j in t.queue ensures t.Left(j) / TICK >= tick {
      assert j != i ==> j in s.queue && t.Left(j) == s.Left(j);
    }
  }

  lemma PerformIsForward(s: Scheduler, a: Action, tick: int)
    requires Valid(s) && Admissible(s, a) && Forward(s, a, tick) && NoneBefore(s, tick)
    ensures var t := Perform(s, a); Structured(t) && NoHeavier(s, t) && NoneBefore(t, tick)
  {
    PerformKeepsValid(s, a);
    hide Remaining, Ordered, InWindow, TargetSound, Matched, Fits, Tuned, Perform, Arming, RecordWeight;
    var t := Perform(s, a);
    RearmedIsNoHeavier(s.recs[a.id], t.recs[a.id], s.tsc);
    assert NoHeavier(s, t);
    TouchingKeepsNoneBefore(s, t, a.id, tick);
  }

  lemma {:induction false} PerformAllKeeps(s: Scheduler, acts: seq<Action>, tick: int)
    requires Valid(s) && WellBehaved(s, acts, tick)
    ensures var t := PerformAll(s, acts, tick);
      && Valid(t) && |t.recs| == |s.recs| && t.tsc == s.tsc && t.usec == s.usec && Continues(s, t)
      && (NoneBefore(s, tick) ==> NoneBefore(t, tick) && NoHeavier(s, t))
    decreases |acts|
  {
    hide RecordWeight, Perform, Ordered, InWindow, TargetSound, Matched, Remaining, Arming, Forward, Fits;
    if acts != [] {
      PerformKeepsValid(s, acts[0]);
      PerformContinues(s, acts[0]);
      if NoneBefore(s, tick) { PerformIsForward(s, acts[0], tick); }
      PerformAllKeeps(Perform(s, acts[0]), acts[1..], tick);
    }
  }

  /** Re-arming the next stretch of a long period always fits: it starts from the
      stamp that has just run out. */
  lemma NextStretchFits(s: Scheduler, i: nat)
    requires Valid(s) && Due(s) && i == s.queue[0] && s.recs[i].period > 0.0
    ensures var p := Popped(s); var ts := ChunkStamp(p, i, p.recs[i].period, false);
      && Structured(p) && Fits(p, i, ts)
      && Remaining(ts, s.tsc) == s.Left(i) + Chunk(s.recs[i].period, s.usec)
  {
    PoppedKeepsValid(s, false);
    WholeTicksLeft(s.recs[i].ts, s.tsc);
    ChunkIsShort(s.recs[i].period, s.usec);
    hide Remaining, Chunk, Signed32, Matched, TargetSound, Ordered;
    AdvanceAddsToRemaining(s.recs[i].ts, Chunk(s.recs[i].period, s.usec), s.tsc);
    var p := Popped(s);
    PoppedKeepsOrder(s, p);
    var ts := ChunkStamp(p, i, p.recs[i].period, false);
    forall j | j in p.queue && j != i ensures -HALF < Remaining(ts, p.tsc) - p.Left(j) < HALF {
      assert j in s.queue && i in s.queue;
      assert p.Left(j) == s.Left(j) && s.Left(j) >= s.Left(i);
    }
  }

  lemma ChunkIsShort(period: real, usec: nat)
    requires 0 < usec && MAX_USEC * usec <= HALF - TICK
    ensures Chunk(period, usec) <= HALF - TICK
    ensures period > MAX_USEC as real ==> Chunk(period, usec) > 0
  {
    if 0.0 < period <= MAX_USEC as real { FloorBelow(period, usec); }
  }

  /** What one round of the drain does for the head timer i. */
  ghost predicate Progress(s: Scheduler, t: Scheduler)
    requires Valid(s) && s.queue != []
  {
    && Valid(t) && |t.recs| == |s.recs| && t.tsc == s.tsc && t.usec == s.usec
    && NoneBefore(t, HeadTick(s))
    && ExpiresHeadOnce(s, t)
    && Weight(t.recs, t.tsc) < Weight(s.recs, s.tsc)
  }

  lemma OneRoundLowersWeight(s: Scheduler, t: Scheduler, i: nat)
    requires i < |s.recs| && NoHeavier(s, t) && RecordWeight(t.recs[i], s.tsc) < RecordWeight(s.recs[i], s.tsc)
    ensures Weight(t.recs, t.tsc) < Weight(s.recs, s.tsc)
  {
    WeightFalls(s.recs, t.recs, s.tsc);
  }

  /** A timer that has just been taken out is lighter by the weight of being live. */
  lemma PoppedIsLighter(s: Scheduler, inCallback: bool)
    requires Valid(s) && Due(s)
    ensures var i := s.queue[0]; var p := WithFlag(Popped(s), i, inCallback);
      && NoHeavier(s, p) && RecordWeight(p.recs[i], s.tsc) < RecordWeight(s.recs[i], s.tsc)
  {
    var i := s.queue[0];
    assert i in s.queue && s.recs[i].enabled;
    WholeTicksLeft(s.recs[i].ts, s.tsc);
    hide Remaining;
  }

  lemma PoppedHasNoneBefore(s: Scheduler, inCallback: bool)
    requires Valid(s) && s.queue != []
    ensures var p := WithFlag(Popped(s), s.queue[0], inCallback);
      Structured(p) && NoneBefore(p, HeadTick(s)) && NoneBefore(Popped(s), HeadTick(s))
  {
    PoppedKeepsValid(s, inCallback);
    PoppedKeepsOrder(s, Popped(s));
    hide Remaining, Signed32, Matched, Ordered, TargetSound, InWindow, Tuned;
    var p := WithFlag(Popped(s), s.queue[0], inCallback);
    forall j | j in p.queue ensures p.Left(j) == Popped(s).Left(j) >= s.Left(s.queue[0]) {}
  }

  /** The history of a round is one expiry of the head timer, then no other. */
  ghost predicate ExpiresHeadOnce(s: Scheduler, t: Scheduler)
    requires Structured(s) && s.queue != []
  {
    && |s.trace| < |t.trace| && t.trace[..|s.trace|] == s.trace
    && t.trace[|s.trace|] == Expired(s.queue[0], HeadTick(s), RunsCallback(s))
    && (forall k :: |s.trace| < k < |t.trace| ==> !t.trace[k].Expired?)
  }

  lemma TraceAfterPop(s: Scheduler, t: Scheduler)
    requires Structured(s) && s.queue != [] && Continues(Popped(s), t)
    ensures ExpiresHeadOnce(s, t)
  {
    hide Remaining, Structured;
    var p := Popped(s);
    assert p.trace[..|s.trace|] == s.trace && p.trace[|s.trace|] == Expired(s.queue[0], HeadTick(s), RunsCallback(s));
    assert t.trace[..|p.trace|][..|s.trace|] == t.trace[..|s.trace|];
    assert t.trace[..|p.trace|][|s.trace|] == t.trace[|s.trace|];
  }

  lemma SplitStepProgresses(s: Scheduler)
    requires Valid(s) && Due(s) && s.recs[s.queue[0]].split
    ensures Progress(s, AdvanceEx(Popped(s), s.queue[0], false))
  {
    var i := s.queue[0];
    var p := Popped(s);
    PoppedKeepsValid(s, false);
    NextStretchFits(s, i);
    AdvanceExKeeps(p, i, false);
    PoppedHasNoneBefore(s, false);
    var t := AdvanceEx(p, i, false);
    AdvanceExContinues(p, i);
    TraceAfterPop(s, t);
    SplitIsLighter(s, t, i);
    TouchingKeepsNoneBefore(p, t, i, HeadTick(s));
    assert Tuned(t);
    hide Remaining, Structured, Ordered, TargetSound, InWindow, Matched, Tuned, AdvanceEx, Popped, RecordWeight;
    OneRoundLowersWeight(s, t, i);
  }

  lemma AdvanceExContinues(p: Scheduler, i: nat)
    requires Structured(p) && i < |p.recs| && MAX_USEC * p.usec < WRAP
    ensures Continues(p, AdvanceEx(p, i, false)) && AdvanceEx(p, i, false).usec == p.usec
    ensures AdvanceEx(p, i, false).recs[i].split <==> p.recs[i].period > MAX_USEC as real
  {
    hide IndexOf, Without, Splice, Slot, Remaining, Structured;
  }

  lemma SplitIsLighter(s: Scheduler, t: Scheduler, i: nat)
    requires Valid(s) && Due(s) && i == s.queue[0] && s.recs[i].split
    requires OnlyTouches(Popped(s), t, i)
    requires t.recs[i].ts == ChunkStamp(Popped(s), i, s.recs[i].period, false)
    requires t.recs[i].split <==> s.recs[i].period > MAX_USEC as real
    ensures NoHeavier(s, t) && RecordWeight(t.recs[i], s.tsc) < RecordWeight(s.recs[i], s.tsc)
    ensures t.Left(i) / TICK >= HeadTick(s)
  {
    assert i in s.queue && s.recs[i].enabled;
    NextStretchFits(s, i);
    WholeTicksLeft(s.recs[i].ts, s.tsc);
    ChunkIsShort(s.recs[i].period, s.usec);
    hide Remaining, Chunk, Signed32, Ordered, TargetSound, InWindow, Matched;
  }

  lemma StepProgresses(s: Scheduler, acts: seq<Action>)
    requires Valid(s) && Due(s) && StepOk(s, acts)
    ensures Progress(s, Step(s, acts))
  {
    var i := s.queue[0];
    if s.recs[i].split {
      SplitStepProgresses(s);
    } else if s.recs[i].callback {
      PoppedKeepsValid(s, true);
      PoppedHasNoneBefore(s, true);
      var p := WithFlag(Popped(s), i, true);
      PerformAllKeeps(p, acts, HeadTick(s));
      CallbackProgresses(s, PerformAll(p, acts, HeadTick(s)));
    } else {
      IdleStepProgresses(s);
    }
  }

  lemma IdleStepProgresses(s: Scheduler)
    requires Valid(s) && Due(s)
    ensures Progress(s, Popped(s))
  {
    var p := WithFlag(Popped(s), s.queue[0], false);
    PoppedKeepsValid(s, false);
    PoppedHasNoneBefore(s, false);
    PoppedIsLighter(s, false);
    TraceAfterPop(s, Popped(s));
    hide Remaining, Signed32, Structured, Ordered, TargetSound, InWindow, Matched, RecordWeight;
    OneRoundLowersWeight(s, p, s.queue[0]);
    WeightFalls(p.recs, Popped(s).recs, s.tsc);
  }

  lemma CallbackIsLighter(s: Scheduler, t: Scheduler)
    requires Valid(s) && Due(s) && NoHeavier(WithFlag(Popped(s), s.queue[0], true), t)
    ensures var u := WithFlag(t, s.queue[0], false);
      NoHeavier(s, u) && Weight(u.recs, u.tsc) < Weight(s.recs, s.tsc)
  {
    hide Remaining, Ordered, TargetSound, InWindow, Matched, Tuned, Weight;
    PoppedIsLighter(s, true);
    FlagIsNoMatter(t, s.queue[0]);
    hide RecordWeight;
    OneRoundLowersWeight(s, WithFlag(t, s.queue[0], false), s.queue[0]);
  }

  lemma FlagIsNoMatter(t: Scheduler, i: nat)
    requires i < |t.recs|
    ensures NoHeavier(t, WithFlag(t, i, false))
    ensures forall j :: 0 <= j < |t.recs| ==> WithFlag(t, i, false).recs[j].ts == t.recs[j].ts
  {
    hide Remaining;
  }

  lemma CallbackProgresses(s: Scheduler, t: Scheduler)
    requires Valid(s) && Due(s) && var p := WithFlag(Popped(s), s.queue[0], true);
      && Continues(p, t) && Valid(t) && t.usec == s.usec && |t.recs| == |s.recs| && t.tsc == s.tsc
      && NoneBefore(t, HeadTick(s)) && NoHeavier(p, t)
    ensures Progress(s, WithFlag(t, s.queue[0], false))
  {
    hide Remaining, Signed32, Ordered, TargetSound, InWindow, Matched, RecordWeight, Weight, NoHeavier, ExpiresHeadOnce;
    var i := s.queue[0];
    var u := WithFlag(t, i, false);
    BookkeepingKeeps(t, i, t.recs[i].(inCallback := false));
    CallbackIsLighter(s, t);
    FlagIsNoMatter(t, i);
    assert Continues(Popped(s), u);
    TraceAfterPop(s, u);
  }
}
