/** What the event scheduler is meant to do, on values: every timer is a record,
    the enabled ones form a queue of timer numbers, and a history remembers each
    arming, cancellation and expiry. */
module Scheduling {
  import opened Options
  import opened Timestamps

  const MAX_USEC: int := 1_000_000

  datatype Record = Record(ts: Word64, enabled: bool, split: bool, inCallback: bool, period: real, callback: bool)

  /** An expiry remembers its whole tick, relative to the clock, and whether it ran the
      timer's callback. */
  datatype Event = Armed(id: nat) | Cancelled(id: nat) | Expired(id: nat, tick: int, called: bool)

  datatype Scheduler = Scheduler(queue: seq<nat>, recs: seq<Record>, tsc: Word64, target: Word32, usec: nat,
                                 trace: seq<Event>)
  {
    function Left(i: nat): int
      requires i < |recs|
    {
      Remaining(recs[i].ts, tsc)
    }

    function With(i: nat, r: Record): Scheduler
      requires i < |recs|
    {
      this.(recs := recs[i := r])
    }
  }

  // ---- What every operation keeps ----

  ghost predicate Structured(s: Scheduler) {
    && (forall k :: 0 <= k < |s.queue| ==> s.queue[k] < |s.recs|)
    && (forall a, b :: 0 <= a < b < |s.queue| ==> s.queue[a] != s.queue[b])
    && (forall i :: 0 <= i < |s.recs| ==> (s.recs[i].enabled <==> i in s.queue))
  }

  ghost predicate Ordered(s: Scheduler)
    requires Structured(s)
  {
    forall a, b :: 0 <= a < b < |s.queue| ==> s.Left(s.queue[a]) <= s.Left(s.queue[b])
  }

  /** No two live deadlines are half the wrap window or more apart. */
  ghost predicate InWindow(s: Scheduler)
    requires Structured(s)
  {
    forall i, j :: i in s.queue && j in s.queue ==> s.Left(i) - s.Left(j) < HALF
  }

  /** The cached wake-up target is never later than the earliest live deadline. */
  ghost predicate TargetSound(s: Scheduler)
    requires Structured(s)
  {
    s.queue != [] ==> Signed32(s.target - s.tsc) <= s.Left(s.queue[0]) / TICK
  }

  /** The set of live timers a history leaves behind; None if some expiry or
      cancellation in it has no arming of its own. */
  function Replay(trace: seq<Event>): Option<set<nat>> {
    if trace == [] then Some({}) else
      var before := Replay(trace[..|trace| - 1]);
      var e := trace[|trace| - 1];
      if before.None? then None
      else if e.Armed? then (if e.id in before.value then None else Some(before.value + {e.id}))
      else (if e.id in before.value then Some(before.value - {e.id}) else None)
  }

  ghost function Live(s: Scheduler): set<nat> {
    set i | i in s.queue
  }

  /** Every expiry and cancellation has an arming of its own, and the timers armed
      last of all are the ones in the queue. */
  ghost predicate Matched(s: Scheduler) {
    Replay(s.trace) == Some(Live(s))
  }

  /** A one-second period is at most 0x7fffffff clock ticks, and a timer marked as
      split always has some of its period left. */
  ghost predicate Tuned(s: Scheduler) {
    && 0 < s.usec && MAX_USEC * s.usec <= HALF - TICK
    && forall i :: 0 <= i < |s.recs| && s.recs[i].split ==> s.recs[i].period > 0.0
  }

  ghost predicate Valid(s: Scheduler) {
    Structured(s) && Ordered(s) && InWindow(s) && TargetSound(s) && Matched(s) && Tuned(s)
  }

  // ---- The operations ----

  function IndexOf(q: seq<nat>, i: nat): (k: nat)
    requires i in q
    ensures k < |q| && q[k] == i
  {
    if q[0] == i then 0 else 1 + IndexOf(q[1..], i)
  }

  function Without(q: seq<nat>, i: nat): seq<nat>
    requires i in q
  {
    var k := IndexOf(q, i);
    q[..k] + q[k + 1..]
  }

  function Disabled(s: Scheduler, i: nat): Scheduler
    requires Structured(s) && i < |s.recs|
  {
    if !s.recs[i].enabled then s else
      s.With(i, s.recs[i].(enabled := false, inCallback := false))
       .(queue := Without(s.queue, i), trace := s.trace + [Cancelled(i)])
  }

  /** The first place at or after k whose deadline is not earlier than ts. */
  function Slot(s: Scheduler, ts: Word64, k: nat): (r: nat)
    requires Structured(s) && k <= |s.queue|
    ensures k <= r <= |s.queue|
    ensures forall j :: k <= j < r ==> !LessThan(ts, s.recs[s.queue[j]].ts)
    ensures r < |s.queue| ==> LessThan(ts, s.recs[s.queue[r]].ts)
    decreases |s.queue| - k
  {
    if k == |s.queue| || LessThan(ts, s.recs[s.queue[k]].ts) then k else Slot(s, ts, k + 1)
  }

  function Splice(q: seq<nat>, k: nat, i: nat): seq<nat>
    requires k <= |q|
  {
    q[..k] + [i] + q[k..]
  }

  function Inserted(s: Scheduler, i: nat): Scheduler
    requires Structured(s) && i < |s.recs| && !s.recs[i].enabled
  {
    var k := Slot(s, s.recs[i].ts, 0);
    s.With(i, s.recs[i].(enabled := true))
     .(queue := Splice(s.queue, k, i),
       target := if k == 0 then s.recs[i].ts / TICK else s.target,
       trace := s.trace + [Armed(i)])
  }

  function Enabled(s: Scheduler, i: nat): Scheduler
    requires Structured(s) && i < |s.recs|
  {
    DisabledIsStructured(s, i);
    Inserted(Disabled(s, i), i)
  }

  /** Gives timer i the stamp ts and enables it. */
  function Arm(s: Scheduler, i: nat, ts: Word64): Scheduler
    requires Structured(s) && i < |s.recs|
  {
    Enabled(s.With(i, s.recs[i].(ts := ts)), i)
  }

  /** A number of microseconds in timestamp units, truncated. */
  function Ticks(period: real, usec: nat): int {
    (period * usec as real).Floor
  }

  /** The next stretch of a long period: a whole second, or what is left of it. */
  function Chunk(period: real, usec: nat): (r: Word64)
    requires MAX_USEC * usec < WRAP
  {
    if period > MAX_USEC as real then MAX_USEC * usec
    else if period > 0.0 then
      FloorBelow(period, usec);
      Ticks(period, usec)
    else 0
  }

  lemma FloorBelow(period: real, usec: nat)
    requires 0.0 < period <= MAX_USEC as real
    ensures 0 <= Ticks(period, usec) <= MAX_USEC * usec
  {
    assert 0.0 <= period * usec as real <= MAX_USEC as real * usec as real;
  }

  function ChunkStamp(s: Scheduler, i: nat, period: real, start: bool): Word64
    requires i < |s.recs| && MAX_USEC * s.usec < WRAP
  {
    if start then StampAfter(s.tsc, Chunk(period, s.usec)) else Advanced(s.recs[i].ts, Chunk(period, s.usec))
  }

  /** What is left of a period after its next stretch has been armed. */
  function Consumed(r: Record, period: real): Record {
    if period > MAX_USEC as real then r.(period := period - MAX_USEC as real, split := true)
    else r.(period := 0.0, split := false)
  }

  function AdvanceEx(s: Scheduler, i: nat, start: bool): Scheduler
    requires Structured(s) && i < |s.recs| && MAX_USEC * s.usec < WRAP
  {
    var period := s.recs[i].period;
    var t := if period > 0.0 then Arm(s, i, ChunkStamp(s, i, period, start)) else Disabled(s, i);
    t.With(i, Consumed(t.recs[i], period))
  }

  function Stopped(s: Scheduler, i: nat): Scheduler
    requires Structured(s) && i < |s.recs|
  {
    var t := Disabled(s.With(i, s.recs[i].(period := 0.0)), i);
    t.With(i, t.recs[i].(split := false, inCallback := false))
  }

  /** A running split, or a timer inside its own callback, is advanced rather than
      started afresh. */
  predicate StartsAfresh(r: Record) {
    r.period <= 0.0 && !r.inCallback
  }

  function OnAuto(s: Scheduler, i: nat, period: real): Scheduler
    requires Structured(s) && i < |s.recs| && MAX_USEC * s.usec < WRAP
  {
    if period > 0.0 then
      AdvanceEx(s.With(i, s.recs[i].(period := period)), i, StartsAfresh(s.recs[i]))
    else Stopped(s, i)
  }

  function RebasedRecord(r: Record, tsc: Word64, clock: Word64): Record {
    if r.enabled then r.(ts := Rebased(r.ts, tsc, clock)) else r
  }

  function Rebase(s: Scheduler, clock: Word64): Scheduler
    requires Structured(s)
  {
    if s.queue == [] then s.(tsc := clock) else
      s.(recs := seq(|s.recs|, i requires 0 <= i < |s.recs| => RebasedRecord(s.recs[i], s.tsc, clock)),
         tsc := clock,
         target := (clock + Signed32(s.recs[s.queue[0]].ts / TICK - s.tsc)) % TICK)
  }

  // ---- Callbacks ----

  /** What a callback may do to the scheduler. */
  datatype Action =
    | Advance(id: nat, delay: Word64)
    | SetDelay(id: nat, delay: Word64)
    | Disable(id: nat)
    | Stop(id: nat)
    | Auto(id: nat, period: real)

  function Perform(s: Scheduler, a: Action): Scheduler
    requires Structured(s) && a.id < |s.recs| && MAX_USEC * s.usec < WRAP
  {
    match a
    case Advance(i, d) => Arm(s, i, Advanced(s.recs[i].ts, d))
    case SetDelay(i, d) => Arm(s, i, StampAfter(s.tsc, d))
    case Disable(i) => Disabled(s, i)
    case Stop(i) => Stopped(s, i)
    case Auto(i, p) => OnAuto(s, i, p)
  }

  /** The stamp an action arms its timer with, if it arms it at all. */
  function Arming(s: Scheduler, a: Action): Option<Word64>
    requires a.id < |s.recs| && MAX_USEC * s.usec < WRAP
  {
    match a
    case Advance(i, d) => Some(Advanced(s.recs[i].ts, d))
    case SetDelay(i, d) => Some(StampAfter(s.tsc, d))
    case Disable(i) => None
    case Stop(i) => None
    case Auto(i, p) => if p > 0.0 then Some(ChunkStamp(s, i, p, StartsAfresh(s.recs[i]))) else None
  }

  /** Stamp ts, given to timer i, stays within half the window of every other live
      deadline. */
  ghost predicate Fits(s: Scheduler, i: nat, ts: Word64)
    requires Structured(s)
  {
    forall j :: j in s.queue && j != i ==> -HALF < Remaining(ts, s.tsc) - s.Left(j) < HALF
  }

  lemma DisabledIsStructured(s: Scheduler, i: nat)
    requires Structured(s) && i < |s.recs|
    ensures var t := Disabled(s, i);
      && Structured(t) && !t.recs[i].enabled
      && |t.recs| == |s.recs| && t.tsc == s.tsc && t.usec == s.usec && t.target == s.target
      && forall j :: j in t.queue <==> j in s.queue && j != i
  {
    if s.recs[i].enabled {
      WithoutMembers(s.queue, i);
    }
  }

  lemma WithoutMembers(q: seq<nat>, i: nat)
    requires i in q && forall a, b :: 0 <= a < b < |q| ==> q[a] != q[b]
    ensures |Without(q, i)| == |q| - 1
    ensures forall j :: j in Without(q, i) <==> j in q && j != i
    ensures forall a, b :: 0 <= a < b < |q| - 1 ==> Without(q, i)[a] != Without(q, i)[b]
    ensures forall a :: 0 <= a < |q| - 1 ==> Without(q, i)[a] == q[if a < IndexOf(q, i) then a else a + 1]
  {
    var k := IndexOf(q, i);
    var w := Without(q, i);
    forall j | j in q && j != i ensures j in w {
      var a :| 0 <= a < |q| && q[a] == j;
      assert if a < k then w[a] == j else w[a - 1] == j;
    }
  }
}
