/** What every call does to a timer, in terms of the time it has left, and to the cached
    target. */
module TimerActions {
  import opened Timestamps
  import opened Scheduling
  import opened SchedulingLaws

  /** The new stamp of a timer: whatever was set is what is left, up to half the window, and
      an enabled timer that is armed again is no longer inside its callback. */
  lemma Armed(s: Scheduler, i: nat, ts: Word64)
    requires Valid(s) && i < |s.recs| && Fits(s, i, ts)
    ensures var t := Arm(s, i, ts);
      && Valid(t) && OnlyTouches(s, t, i) && i in t.queue
      && t.recs[i] == s.recs[i].(ts := ts, enabled := true,
                                 inCallback := s.recs[i].inCallback && !s.recs[i].enabled)
      && t.target == if t.queue[0] == i then ts / TICK else s.target
  {
    ArmKeeps(s, i, ts);
    ArmTarget(s, i, ts);
    hide Arm, Fits, Remaining, Ordered, InWindow, TargetSound, Matched;
    OthersTuned(s, Arm(s, i, ts), i);
  }

  lemma OthersTuned(s: Scheduler, t: Scheduler, i: nat)
    requires Tuned(s) && OnlyTouches(s, t, i) && i < |s.recs| && t.recs[i].split == s.recs[i].split
    requires t.recs[i].period == s.recs[i].period
    ensures Tuned(t)
  {
  }

  lemma ArmTarget(s: Scheduler, i: nat, ts: Word64)
    requires Structured(s) && i < |s.recs|
    ensures var t := Arm(s, i, ts);
      t.queue != [] && t.target == if t.queue[0] == i then ts / TICK else s.target
  {
    hide Slot, Structured;
    var r := s.recs[i].(ts := ts);
    WithIsStructured(s, i, r);
    DisabledIsStructured(s.With(i, r), i);
    DisabledStamp(s.With(i, r), i);
    var d := Disabled(s.With(i, r), i);
    InsertTarget(d, i);
  }

  lemma DisabledStamp(s: Scheduler, i: nat)
    requires Structured(s) && i < |s.recs|
    ensures |Disabled(s, i).recs| == |s.recs| && Disabled(s, i).recs[i].ts == s.recs[i].ts
  {
    hide Without;
  }

  lemma InsertTarget(d: Scheduler, i: nat)
    requires Structured(d) && i < |d.recs| && !d.recs[i].enabled
    ensures var t := Inserted(d, i);
      t.queue != [] && t.target == if t.queue[0] == i then d.recs[i].ts / TICK else d.target
  {
    var k := Slot(d, d.recs[i].ts, 0);
    hide Slot;
    if k > 0 { assert Splice(d.queue, k, i)[0] == d.queue[0] && d.queue[0] in d.queue; }
  }

  /** Advancing lengthens what is left; setting a delay replaces it. */
  lemma ArmingActions(s: Scheduler, i: nat, d: Word64)
    requires Valid(s) && i < |s.recs|
    ensures Admissible(s, Advance(i, d)) && s.Left(i) + d < HALF ==>
      var t := Perform(s, Advance(i, d));
      && |t.recs| == |s.recs| && t.Left(i) == s.Left(i) + d
      && t.recs[i] == s.recs[i].(ts := t.recs[i].ts, enabled := true,
                                 inCallback := s.recs[i].inCallback && !s.recs[i].enabled)
    ensures Admissible(s, SetDelay(i, d)) && d < HALF ==>
      var t := Perform(s, SetDelay(i, d));
      && |t.recs| == |s.recs| && t.Left(i) == d
      && t.recs[i] == s.recs[i].(ts := t.recs[i].ts, enabled := true,
                                 inCallback := s.recs[i].inCallback && !s.recs[i].enabled)
  {
    hide Arm, Fits, Remaining, Ordered, InWindow, TargetSound, Matched, Advanced, StampAfter;
    if Admissible(s, Advance(i, d)) && s.Left(i) + d < HALF {
      Armed(s, i, Advanced(s.recs[i].ts, d));
      AdvanceAddsToRemaining(s.recs[i].ts, d, s.tsc);
    }
    if Admissible(s, SetDelay(i, d)) && d < HALF {
      Armed(s, i, StampAfter(s.tsc, d));
      DelayIsRemaining(s.tsc, d);
    }
  }

  /** Disabling takes an enabled timer out of its callback too and leaves the rest of its
      period; stopping, and starting a period that is not positive, clears everything. */
  lemma EndingActions(s: Scheduler, i: nat, period: real)
    requires Valid(s) && i < |s.recs| && period <= 0.0
    ensures var t := Perform(s, Disable(i));
      && |t.recs| == |s.recs|
      && t.recs[i] == s.recs[i].(enabled := false, inCallback := s.recs[i].inCallback && !s.recs[i].enabled)
      && i !in t.queue && t.target == s.target
    ensures var t := Perform(s, Stop(i));
      && |t.recs| == |s.recs|
      && t.recs[i] == s.recs[i].(enabled := false, inCallback := false, period := 0.0, split := false)
      && i !in t.queue && t.target == s.target
    ensures Perform(s, Auto(i, period)) == Perform(s, Stop(i))
  {
    DisabledIsStructured(s, i);
    var w := s.With(i, s.recs[i].(period := 0.0));
    WithIsStructured(s, i, s.recs[i].(period := 0.0));
    DisabledIsStructured(w, i);
    hide Without, Structured, Ordered, InWindow, TargetSound, Matched;
    DisabledRecord(s, i);
    DisabledRecord(w, i);
  }

  lemma DisabledRecord(s: Scheduler, i: nat)
    requires Structured(s) && i < |s.recs|
    ensures var t := Disabled(s, i);
      && |t.recs| == |s.recs| && t.target == s.target
      && t.recs[i] == s.recs[i].(enabled := false, inCallback := s.recs[i].inCallback && !s.recs[i].enabled)
  {
    hide Without;
  }

  /** Beginning a period of more than a second keeps the rest of it for later; a shorter one
      is used up at once. */
  lemma PeriodBegins(s: Scheduler, i: nat, period: real)
    requires Valid(s) && Admissible(s, Auto(i, period)) && period > 0.0
    ensures var t := Perform(s, Auto(i, period));
      && |t.recs| == |s.recs|
      && t.recs[i].enabled && t.recs[i].callback == s.recs[i].callback
      && t.recs[i].split == (period > 1_000_000.0)
      && t.recs[i].period == (if period > 1_000_000.0 then period - 1_000_000.0 else 0.0)
      && t.recs[i].inCallback == (s.recs[i].inCallback && !s.recs[i].enabled)
  {
    var r := s.recs[i].(period := period);
    var w := s.With(i, r);
    var ts := ChunkStamp(w, i, period, StartsAfresh(s.recs[i]));
    WithIsStructured(s, i, r);
    ArmRecord(w, i, ts);
    hide Arm, Structured, ChunkStamp, Fits, Remaining, Ordered, InWindow, TargetSound, Matched;
  }

  lemma ArmRecord(s: Scheduler, i: nat, ts: Word64)
    requires Structured(s) && i < |s.recs|
    ensures var t := Arm(s, i, ts);
      && |t.recs| == |s.recs|
      && t.recs[i] == s.recs[i].(ts := ts, enabled := true,
                                 inCallback := s.recs[i].inCallback && !s.recs[i].enabled)
  {
    var r := s.recs[i].(ts := ts);
    WithIsStructured(s, i, r);
    DisabledIsStructured(s.With(i, r), i);
    DisabledRecord(s.With(i, r), i);
    hide Disabled, Slot, Structured;
  }

  /** A new clock is the clock from then on, whether or not a timer is enabled; disabled
      timers keep their stamps. */
  lemma ClockIsSet(s: Scheduler, clock: Word64)
    requires Structured(s)
    ensures var t := Rebase(s, clock);
      && t.tsc == clock && t.usec == s.usec && t.trace == s.trace && |t.recs| == |s.recs|
      && (forall i :: 0 <= i < |s.recs| && !s.recs[i].enabled ==> t.recs[i] == s.recs[i])
      && (s.queue == [] ==> t == s.(tsc := clock))
  {
    hide Remaining, Signed32, Rebased;
  }
}
