/** Every operation on the scheduler keeps its invariants. */
module SchedulingLaws {
  import opened Options
  import opened Timestamps
  import opened Scheduling

  /** The invariants that do not concern split periods. */
  ghost predicate Kept(s: Scheduler) {
    Structured(s) && Ordered(s) && InWindow(s) && TargetSound(s) && Matched(s)
  }

  /** t is s with timer i's record (and nothing else about other timers) changed. */
  ghost predicate OnlyTouches(s: Scheduler, t: Scheduler, i: nat) {
    && |t.recs| == |s.recs| && t.tsc == s.tsc && t.usec == s.usec
    && (forall j :: 0 <= j < |s.recs| && j != i ==> t.recs[j] == s.recs[j])
    && (forall j :: j != i ==> (j in t.queue <==> j in s.queue))
  }

  lemma ReplayOneMore(trace: seq<Event>, e: Event)
    ensures var before := Replay(trace);
      Replay(trace + [e]) ==
      if before.None? then None
      else if e.Armed? then (if e.id in before.value then None else Some(before.value + {e.id}))
      else (if e.id in before.value then Some(before.value - {e.id}) else None)
  {
    assert (trace + [e])[..|trace|] == trace;
  }

  /** Dropping timers from the queue cannot break the window. */
  lemma WindowIsInherited(s: Scheduler, t: Scheduler)
    requires Structured(s) && Structured(t) && InWindow(s) && t.tsc == s.tsc
    requires forall j :: j in t.queue ==> j in s.queue && t.recs[j].ts == s.recs[j].ts
    ensures InWindow(t)
  {
    hide Remaining;
    forall a, b | a in t.queue && b in t.queue ensures t.Left(a) - t.Left(b) < HALF {
      assert t.Left(a) == s.Left(a) && t.Left(b) == s.Left(b);
    }
  }

  lemma RemovalKeepsOrder(s: Scheduler, t: Scheduler, k: nat)
    requires Structured(s) && Structured(t) && Ordered(s) && TargetSound(s)
    requires k < |s.queue| && |t.queue| == |s.queue| - 1
    requires forall a :: 0 <= a < |t.queue| ==> t.queue[a] == s.queue[if a < k then a else a + 1]
    requires t.tsc == s.tsc && t.target == s.target
    requires forall a :: 0 <= a < |t.queue| ==> t.recs[t.queue[a]].ts == s.recs[t.queue[a]].ts
    ensures Ordered(t) && TargetSound(t)
  {
    hide Remaining, Signed32;
    forall a, b | 0 <= a < b < |t.queue| ensures t.Left(t.queue[a]) <= t.Left(t.queue[b]) {
      assert t.queue[a] == s.queue[if a < k then a else a + 1];
      assert t.queue[b] == s.queue[if b < k then b else b + 1];
    }
    if t.queue != [] {
      assert s.Left(s.queue[0]) <= s.Left(s.queue[1]);
    }
  }

  lemma MatchedOneMore(s: Scheduler, t: Scheduler, e: Event)
    requires Matched(s) && t.trace == s.trace + [e]
    requires forall j :: j in t.queue <==> (j in s.queue && j != e.id) || (e.Armed? && j == e.id)
    requires e.Armed? <==> e.id !in s.queue
    ensures Matched(t)
  {
    hide Replay;
    ReplayOneMore(s.trace, e);
    assert Live(t) == if e.Armed? then Live(s) + {e.id} else Live(s) - {e.id};
  }

  /** Removing a timer keeps the invariants, whatever else its record says: the
      source has already overwritten the stamp when it takes the timer out. */
  lemma DisableKeeps(s: Scheduler, i: nat, r: Record)
    requires Kept(s) && i < |s.recs| && r.enabled == s.recs[i].enabled
    ensures Structured(s.With(i, r))
    ensures var t := Disabled(s.With(i, r), i);
      && Kept(t) && OnlyTouches(s, t, i) && i !in t.queue && t.target == s.target
      && t.recs[i] == if r.enabled then r.(enabled := false, inCallback := false) else r
  {
    hide Ordered, InWindow, TargetSound, Matched, IndexOf, Without;
    WithIsStructured(s, i, r);
    var t := Disabled(s.With(i, r), i);
    DisabledIsStructured(s.With(i, r), i);
    assert forall j :: j in t.queue ==> t.recs[j] == s.recs[j];
    WindowIsInherited(s, t);
    if r.enabled {
      WithoutMembers(s.queue, i);
      MatchedOneMore(s, t, Cancelled(i));
      RemovalKeepsOrder(s, t, IndexOf(s.queue, i));
    } else {
      UnqueuedKeepsOrder(s, t);
    }
  }

  lemma WithIsStructured(s: Scheduler, i: nat, r: Record)
    requires Structured(s) && i < |s.recs| && r.enabled == s.recs[i].enabled
    ensures Structured(s.With(i, r))
  {
  }

  lemma UnqueuedKeepsOrder(s: Scheduler, t: Scheduler)
    requires Structured(s) && Structured(t) && Ordered(s) && TargetSound(s) && Matched(s)
    requires t.queue == s.queue && t.tsc == s.tsc && t.target == s.target && t.trace == s.trace
    requires forall a :: 0 <= a < |s.queue| ==> t.recs[s.queue[a]].ts == s.recs[s.queue[a]].ts
    ensures Ordered(t) && TargetSound(t) && Matched(t)
  {
    hide Remaining, Signed32, Replay;
    assert forall a :: 0 <= a < |s.queue| ==> t.Left(s.queue[a]) == s.Left(s.queue[a]);
  }

  lemma SlotSeparates(s: Scheduler, i: nat)
    requires Structured(s) && Ordered(s) && i < |s.recs| && i !in s.queue && Fits(s, i, s.recs[i].ts)
    ensures var k := Slot(s, s.recs[i].ts, 0);
      && (forall a :: 0 <= a < k ==> s.Left(s.queue[a]) < s.Left(i))
      && (forall a :: k <= a < |s.queue| ==> s.Left(i) <= s.Left(s.queue[a]))
  {
    hide Remaining, Signed32, LessThan;
    var ts := s.recs[i].ts;
    var k := Slot(s, ts, 0);
    forall a | 0 <= a < |s.queue|
      ensures LessThan(ts, s.recs[s.queue[a]].ts) <==> s.Left(i) <= s.Left(s.queue[a])
    {
      assert s.queue[a] in s.queue;
      ComparisonExactIffInWindow(ts, s.recs[s.queue[a]].ts, s.tsc);
    }
    forall a | k <= a < |s.queue| ensures s.Left(i) <= s.Left(s.queue[a]) {
      assert s.Left(s.queue[k]) <= s.Left(s.queue[a]);
    }
  }

  lemma InsertedParts(s: Scheduler, i: nat)
    requires Structured(s) && i < |s.recs| && !s.recs[i].enabled
    ensures var t := Inserted(s, i); var k := Slot(s, s.recs[i].ts, 0);
      && t.recs == s.recs[i := s.recs[i].(enabled := true)] && t.queue == Splice(s.queue, k, i)
      && t.target == (if k == 0 then s.recs[i].ts / TICK else s.target)
      && t.trace == s.trace + [Armed(i)] && t.tsc == s.tsc && t.usec == s.usec
      && forall j :: 0 <= j < |s.recs| ==> t.recs[j].ts == s.recs[j].ts
  {
    hide Slot, Splice, Structured;
  }

  lemma InsertKeeps(s: Scheduler, i: nat)
    requires Kept(s) && i < |s.recs| && i !in s.queue && Fits(s, i, s.recs[i].ts)
    ensures var t := Inserted(s, i);
      && Kept(t) && OnlyTouches(s, t, i) && i in t.queue
      && t.recs[i] == s.recs[i].(enabled := true)
  {
    hide Remaining, Signed32, LessThan, Ordered, InWindow, TargetSound, Matched, Slot, Fits, Splice, Inserted;
    var k := Slot(s, s.recs[i].ts, 0);
    var t := Inserted(s, i);
    InsertedParts(s, i);
    InsertIsStructured(s, t, i, k);
    MatchedOneMore(s, t, Armed(i));
    SlotSeparates(s, i);
    InsertKeepsOrder(s, t, i, k);
    InsertKeepsWindow(s, t, i);
    InsertKeepsTarget(s, t, i, k);
  }

  lemma InsertKeepsTarget(s: Scheduler, t: Scheduler, i: nat, k: nat)
    requires Structured(s) && Structured(t) && i < |s.recs| == |t.recs| && k <= |s.queue|
    requires TargetSound(s) && t.tsc == s.tsc
    requires t.queue != [] && t.queue[0] == if k == 0 then i else s.queue[0]
    requires t.target == if k == 0 then s.recs[i].ts / TICK else s.target
    requires forall j :: 0 <= j < |s.recs| ==> t.recs[j].ts == s.recs[j].ts
    ensures TargetSound(t)
  {
    hide Remaining, Signed32;
    WholeTicksLeft(s.recs[i].ts, s.tsc);
  }

  lemma InsertIsStructured(s: Scheduler, t: Scheduler, i: nat, k: nat)
    requires Structured(s) && i < |s.recs| && i !in s.queue && k <= |s.queue|
    requires t.recs == s.recs[i := s.recs[i].(enabled := true)] && t.queue == Splice(s.queue, k, i)
    ensures Structured(t) && |t.queue| == |s.queue| + 1
    ensures forall j :: j in t.queue <==> j in s.queue || j == i
    ensures forall a :: 0 <= a < |t.queue| ==>
      t.queue[a] == if a == k then i else s.queue[if a < k then a else a - 1]
  {
    InsertMembers(s.queue, i, k);
  }

  lemma ArmIsStructured(s: Scheduler, i: nat, ts: Word64)
    requires Structured(s) && i < |s.recs|
    ensures Structured(Arm(s, i, ts)) && |Arm(s, i, ts).recs| == |s.recs| && Arm(s, i, ts).usec == s.usec
  {
    var w := s.With(i, s.recs[i].(ts := ts));
    DisabledIsStructured(w, i);
    hide Disabled, Splice, Slot;
    var d := Disabled(w, i);
    assert i !in d.queue;
    InsertIsStructured(d, Inserted(d, i), i, Slot(d, d.recs[i].ts, 0));
  }

  lemma InsertMembers(q: seq<nat>, i: nat, k: nat)
    requires k <= |q| && i !in q && forall a, b :: 0 <= a < b < |q| ==> q[a] != q[b]
    ensures var w := Splice(q, k, i);
      && (forall j :: j in w <==> j in q || j == i)
      && (forall a, b :: 0 <= a < b < |w| ==> w[a] != w[b])
  {
    assert q == q[..k] + q[k..];
  }

  lemma InsertKeepsWindow(s: Scheduler, t: Scheduler, i: nat)
    requires Structured(s) && Structured(t) && i < |s.recs| == |t.recs| && t.tsc == s.tsc
    requires InWindow(s) && Fits(s, i, s.recs[i].ts)
    requires forall j :: j in t.queue ==> j in s.queue || j == i
    requires forall j :: 0 <= j < |s.recs| ==> t.recs[j].ts == s.recs[j].ts
    ensures InWindow(t)
  {
    hide Remaining;
    forall a, b | a in t.queue && b in t.queue ensures t.Left(a) - t.Left(b) < HALF {
      assert t.Left(a) == s.Left(a) && t.Left(b) == s.Left(b);
      assert a != i ==> a in s.queue;
      assert b != i ==> b in s.queue;
    }
  }

  lemma InsertKeepsOrder(s: Scheduler, t: Scheduler, i: nat, k: nat)
    requires Structured(s) && Structured(t) && Ordered(s) && i < |s.recs| == |t.recs| && t.tsc == s.tsc
    requires k <= |s.queue| && |t.queue| == |s.queue| + 1
    requires forall a :: 0 <= a < |t.queue| ==>
      t.queue[a] == if a == k then i else s.queue[if a < k then a else a - 1]
    requires forall j :: 0 <= j < |s.recs| ==> t.recs[j].ts == s.recs[j].ts
    requires forall a :: 0 <= a < k ==> s.Left(s.queue[a]) < s.Left(i)
    requires forall a :: k <= a < |s.queue| ==> s.Left(i) <= s.Left(s.queue[a])
    ensures Ordered(t)
  {
    hide Remaining;
    assert forall a :: 0 <= a < |t.queue| ==> t.Left(t.queue[a]) == s.Left(t.queue[a]);
  }

  lemma ArmKeeps(s: Scheduler, i: nat, ts: Word64)
    requires Kept(s) && i < |s.recs| && Fits(s, i, ts)
    ensures var t := Arm(s, i, ts);
      && Kept(t) && OnlyTouches(s, t, i) && i in t.queue
      && t.recs[i] == s.recs[i].(ts := ts, enabled := true,
                                 inCallback := s.recs[i].inCallback && !s.recs[i].enabled)
  {
    hide Remaining, Structured, Ordered, InWindow, TargetSound, Matched, Disabled, Inserted;
    var r := s.recs[i].(ts := ts);
    DisableKeeps(s, i, r);
    var d := Disabled(s.With(i, r), i);
    FitsIsInherited(s, d, i, ts);
    InsertKeeps(d, i);
  }

  lemma FitsIsInherited(s: Scheduler, d: Scheduler, i: nat, ts: Word64)
    requires Structured(s) && Structured(d) && OnlyTouches(s, d, i) && Fits(s, i, ts)
    ensures Fits(d, i, ts)
  {
    hide Remaining;
    forall j | j in d.queue && j != i ensures -HALF < Remaining(ts, d.tsc) - d.Left(j) < HALF {
      assert j in s.queue && d.Left(j) == s.Left(j);
    }
  }

  lemma DisabledKeeps(s: Scheduler, i: nat)
    requires Kept(s) && i < |s.recs|
    ensures var t := Disabled(s, i);
      && Kept(t) && OnlyTouches(s, t, i) && i !in t.queue && t.target == s.target
      && t.recs[i] == if s.recs[i].enabled then s.recs[i].(enabled := false, inCallback := false) else s.recs[i]
  {
    hide Remaining, Structured, Ordered, InWindow, TargetSound, Matched, Disabled;
    DisableKeeps(s, i, s.recs[i]);
    assert s.With(i, s.recs[i]) == s;
  }

  /** Changing the bookkeeping fields of a record touches none of the invariants. */
  lemma BookkeepingKeeps(s: Scheduler, i: nat, r: Record)
    requires Kept(s) && i < |s.recs| && r.ts == s.recs[i].ts && r.enabled == s.recs[i].enabled
    ensures Kept(s.With(i, r)) && OnlyTouches(s, s.With(i, r), i)
  {
    hide Remaining, Signed32, Replay;
    var t := s.With(i, r);
    assert forall j :: 0 <= j < |s.recs| ==> t.recs[j].ts == s.recs[j].ts && t.recs[j].enabled == s.recs[j].enabled;
  }

  lemma ConsumedIsTuned(r: Record, period: real)
    ensures Consumed(r, period).split ==> Consumed(r, period).period > 0.0
  {
  }

  /** The split-period step: with nothing left it only takes the timer out. */
  lemma AdvanceExKeeps(s: Scheduler, i: nat, start: bool)
    requires Kept(s) && Tuned(s) && i < |s.recs|
    requires s.recs[i].period > 0.0 ==> Fits(s, i, ChunkStamp(s, i, s.recs[i].period, start))
    ensures var t := AdvanceEx(s, i, start);
      && Kept(t) && OnlyTouches(s, t, i)
      && (t.recs[i].split ==> t.recs[i].period > 0.0)
      && (i in t.queue <==> s.recs[i].period > 0.0)
      && t.recs[i].callback == s.recs[i].callback
      && t.recs[i].ts == if s.recs[i].period > 0.0 then ChunkStamp(s, i, s.recs[i].period, start) else s.recs[i].ts
  {
    hide Remaining, Structured, Ordered, InWindow, TargetSound, Matched, Disabled, Arm, Fits, ChunkStamp;
    var p := s.recs[i].period;
    if p > 0.0 {
      ArmKeeps(s, i, ChunkStamp(s, i, p, start));
    } else {
      DisabledKeeps(s, i);
    }
    var t := if p > 0.0 then Arm(s, i, ChunkStamp(s, i, p, start)) else Disabled(s, i);
    ConsumedIsTuned(t.recs[i], p);
    BookkeepingKeeps(t, i, Consumed(t.recs[i], p));
  }

  lemma StoppedKeeps(s: Scheduler, i: nat)
    requires Kept(s) && i < |s.recs|
    ensures var t := Stopped(s, i);
      && Kept(t) && OnlyTouches(s, t, i) && i !in t.queue && !t.recs[i].split
      && t.recs[i].ts == s.recs[i].ts && t.recs[i].callback == s.recs[i].callback
  {
    hide Remaining, Structured, Ordered, InWindow, TargetSound, Matched, Disabled;
    DisableKeeps(s, i, s.recs[i].(period := 0.0));
    var t := Disabled(s.With(i, s.recs[i].(period := 0.0)), i);
    BookkeepingKeeps(t, i, t.recs[i].(split := false, inCallback := false));
  }

  lemma OnAutoKeeps(s: Scheduler, i: nat, period: real)
    requires Kept(s) && Tuned(s) && i < |s.recs|
    requires period > 0.0 ==> Fits(s, i, ChunkStamp(s, i, period, StartsAfresh(s.recs[i])))
    ensures var t := OnAuto(s, i, period);
      && Kept(t) && OnlyTouches(s, t, i)
      && (t.recs[i].split ==> t.recs[i].period > 0.0)
      && (i in t.queue <==> period > 0.0)
      && t.recs[i].callback == s.recs[i].callback
      && t.recs[i].ts == if period > 0.0 then ChunkStamp(s, i, period, StartsAfresh(s.recs[i])) else s.recs[i].ts
  {
    hide Remaining, Structured, Ordered, InWindow, TargetSound, Matched, AdvanceEx, Fits, Stopped;
    if period > 0.0 {
      var r := s.recs[i].(period := period);
      BookkeepingKeeps(s, i, r);
      var w := s.With(i, r);
      assert forall j :: 0 <= j < |s.recs| ==> w.Left(j) == s.Left(j);
      FitsIsInherited(s, w, i, ChunkStamp(s, i, period, StartsAfresh(s.recs[i])));
      AdvanceExKeeps(w, i, StartsAfresh(s.recs[i]));
    } else {
      StoppedKeeps(s, i);
    }
  }

  ghost predicate Admissible(s: Scheduler, a: Action)
    requires Structured(s) && MAX_USEC * s.usec < WRAP
  {
    a.id < |s.recs| && (Arming(s, a).Some? ==> Fits(s, a.id, Arming(s, a).value))
  }

  /** Main invariant, one action at a time. An action arms its timer with the stamp
      Arming names, or leaves it out of the queue, and touches no other timer. */
  lemma PerformKeepsValid(s: Scheduler, a: Action)
    requires Valid(s) && Admissible(s, a)
    ensures var t := Perform(s, a);
      && Valid(t) && OnlyTouches(s, t, a.id)
      && t.recs[a.id].callback == s.recs[a.id].callback
      && (a.id in t.queue <==> Arming(s, a).Some? )
      && t.recs[a.id].ts == if Arming(s, a).Some? then Arming(s, a).value else s.recs[a.id].ts
  {
    hide Remaining, Structured, Ordered, InWindow, TargetSound, Matched, Fits, Arm, Disabled, Stopped, OnAuto;
    match a
    case Advance(i, d) => ArmKeeps(s, i, Advanced(s.recs[i].ts, d));
    case SetDelay(i, d) => ArmKeeps(s, i, StampAfter(s.tsc, d));
    case Disable(i) => DisabledKeeps(s, i);
    case Stop(i) => StoppedKeeps(s, i);
    case Auto(i, p) => OnAutoKeeps(s, i, p);
  }

  lemma RebaseLeavesTimeLeft(s: Scheduler, clock: Word64)
    requires Structured(s)
    ensures var t := Rebase(s, clock);
      && |t.recs| == |s.recs| && t.queue == s.queue
      && (forall i :: 0 <= i < |s.recs| ==> t.recs[i] == s.recs[i].(ts := t.recs[i].ts))
      && (forall i :: i in s.queue ==> t.Left(i) == s.Left(i))
      && (forall i, j :: i in s.queue && j in s.queue ==>
            (t.recs[i].ts - t.recs[j].ts) % WRAP == (s.recs[i].ts - s.recs[j].ts) % WRAP)
  {
    hide Remaining, Signed32, Signed64;
    var t := Rebase(s, clock);
    if s.queue != [] {
      forall i | i in s.queue ensures t.Left(i) == s.Left(i) && t.recs[i].ts == Rebased(s.recs[i].ts, s.tsc, clock) {
        RebaseKeepsRemaining(s.recs[i].ts, s.tsc, clock);
      }
      forall i, j | i in s.queue && j in s.queue
        ensures (t.recs[i].ts - t.recs[j].ts) % WRAP == (s.recs[i].ts - s.recs[j].ts) % WRAP
      {
        RebaseKeepsDifference(s.recs[i].ts, s.recs[j].ts, s.tsc, clock);
      }
    }
  }

  /** Rebasing the clock keeps every invariant and sets the wake-up target to the
      rebased earliest deadline. */
  lemma RebaseKeepsValid(s: Scheduler, clock: Word64)
    requires Valid(s)
    ensures Valid(Rebase(s, clock))
    ensures s.queue != [] ==> Rebase(s, clock).target == Rebase(s, clock).recs[s.queue[0]].ts / TICK
  {
    hide Remaining, Signed32, Signed64;
    RebaseLeavesTimeLeft(s, clock);
    var t := Rebase(s, clock);
    if s.queue != [] {
      var h := s.queue[0];
      assert t.recs[h].ts == Rebased(s.recs[h].ts, s.tsc, clock);
      WholeTicksLeft(t.recs[h].ts, clock);
    }
  }

  ghost predicate MayTick(s: Scheduler, clock: Word64) {
    s.tsc <= clock && (s.queue != [] ==> Signed32(s.target - s.tsc) - (clock - s.tsc) >= -HALF32)
  }

  /** The clock may run on while the (cached) target is at most half a window in
      the past; by then the processor has woken up. */
  lemma TickKeepsValid(s: Scheduler, clock: Word64)
    requires Valid(s) && MayTick(s, clock)
    ensures Valid(s.(tsc := clock))
    ensures forall i :: i in s.queue ==> s.(tsc := clock).Left(i) == s.Left(i) - (clock - s.tsc) * TICK
  {
    hide Remaining, Signed32, Signed64;
    var t := s.(tsc := clock);
    var run := clock - s.tsc;
    forall i | i in s.queue ensures t.Left(i) == s.Left(i) - run * TICK {
      var a :| 0 <= a < |s.queue| && s.queue[a] == i;
      assert s.Left(s.queue[0]) <= s.Left(i);
      ClockEatsRemaining(s.recs[i].ts, s.tsc, clock);
    }
    if s.queue != [] {
      Signed32Sinks(s.target - s.tsc, run);
      assert s.queue[0] in s.queue;
    }
  }
}
