/** The scheduler as the emulator keeps it: timers linked both ways in order of
    their deadlines, with the earliest at the head. */
module TimerQueue {
  import opened Timestamps
  import Spec = Scheduling
  import opened SchedulingLaws
  import opened TimerLinks
  import Drains = SchedulerDrain
  import Runs = SchedulerRuns

  class Timer {
    const id: nat
    const callback: bool  // whether a callback is attached
    var ts: Word64
    var enabled: bool
    var split: bool
    var inCallback: bool
    var period: real
    var prev: Timer?
    var next: Timer?

    constructor (id: nat, callback: bool)
      ensures this.id == id && this.callback == callback
      ensures AsRecord() == Spec.Record(0, false, false, false, 0.0, callback)
      ensures prev == null && next == null
    {
      this.id, this.callback := id, callback;
      ts, enabled, split, inCallback, period := 0, false, false, false, 0.0;
      prev, next := null, null;
    }

    function AsRecord(): Spec.Record
      reads `ts, `enabled, `split, `inCallback, `period
    {
      Spec.Record(ts, enabled, split, inCallback, period, callback)
    }
  }

  class TimerList {
    var timers: seq<Timer>  // every timer there is, enabled or not
    var head: Timer?
    var target: Word32
    var tsc: Word64
    const usec: nat
    ghost var queue: seq<nat>
    ghost var trace: seq<Spec.Event>

    ghost predicate Registered()
      reads `timers
    {
      forall i :: 0 <= i < |timers| ==> timers[i].id == i
    }

    /** t is one of this scheduler's timers. */
    ghost predicate Owns(t: Timer)
      reads `timers
    {
      t.id < |timers| && timers[t.id] == t
    }

    static ghost function IdOf(t: Timer?): int {
      if t == null then NONE else t.id
    }

    static ghost function NextsOf(ts: seq<Timer>): (r: seq<int>)
      reads ts`next
      ensures |r| == |ts|
    {
      if ts == [] then [] else [IdOf(ts[0].next)] + NextsOf(ts[1..])
    }

    static ghost function PrevsOf(ts: seq<Timer>): (r: seq<int>)
      reads ts`prev
      ensures |r| == |ts|
    {
      if ts == [] then [] else [IdOf(ts[0].prev)] + PrevsOf(ts[1..])
    }

    static lemma LinksAt(ts: seq<Timer>)
      ensures forall i :: 0 <= i < |ts| ==> NextsOf(ts)[i] == IdOf(ts[i].next)
      ensures forall i :: 0 <= i < |ts| ==> PrevsOf(ts)[i] == IdOf(ts[i].prev)
    {
      NextsAt(ts);
      PrevsAt(ts);
    }

    static lemma {:induction false} NextsAt(ts: seq<Timer>)
      ensures forall i :: 0 <= i < |ts| ==> NextsOf(ts)[i] == IdOf(ts[i].next)
    {
      if ts != [] {
        NextsAt(ts[1..]);
        assert forall i :: 0 < i < |ts| ==> ts[i] == ts[1..][i - 1] && NextsOf(ts)[i] == NextsOf(ts[1..])[i - 1];
      }
    }

    static lemma {:induction false} PrevsAt(ts: seq<Timer>)
      ensures forall i :: 0 <= i < |ts| ==> PrevsOf(ts)[i] == IdOf(ts[i].prev)
    {
      if ts != [] {
        PrevsAt(ts[1..]);
        assert forall i :: 0 < i < |ts| ==> ts[i] == ts[1..][i - 1] && PrevsOf(ts)[i] == PrevsOf(ts[1..])[i - 1];
      }
    }

    /** Every link leads to one of this scheduler's timers. */
    ghost predicate Closed()
      reads `timers, timers`next, timers`prev
    {
      && Registered()
      && (forall i {:trigger timers[i].next} :: 0 <= i < |timers| && timers[i].next != null ==> Owns(timers[i].next))
      && (forall i {:trigger timers[i].prev} :: 0 <= i < |timers| && timers[i].prev != null ==> Owns(timers[i].prev))
    }

    ghost predicate LinkedAs(q: seq<nat>)
      reads `timers, `head, timers`next, timers`prev
    {
      Closed() && (head != null ==> Owns(head)) && Distinct(q)
        && Chained(q, IdOf(head), NextsOf(timers), PrevsOf(timers))
    }

    ghost predicate Linked()
      reads `timers, `head, `queue, timers`next, timers`prev
    {
      LinkedAs(queue)
    }

    static ghost function RecordsOf(ts: seq<Timer>): (r: seq<Spec.Record>)
      reads ts`ts, ts`enabled, ts`split, ts`inCallback, ts`period
      ensures |r| == |ts|
    {
      if ts == [] then [] else [ts[0].AsRecord()] + RecordsOf(ts[1..])
    }

    ghost function Records(): (r: seq<Spec.Record>)
      reads `timers, timers`ts, timers`enabled, timers`split, timers`inCallback, timers`period
      ensures |r| == |timers|
    {
      RecordsOf(timers)
    }

    ghost function Abs(): Spec.Scheduler
      reads this, timers`ts, timers`enabled, timers`split, timers`inCallback, timers`period
    {
      Spec.Scheduler(queue, Records(), tsc, target, usec, trace)
    }

    ghost predicate Valid()
      reads this, timers
    {
      Linked() && Spec.Valid(Abs())
    }

    constructor (timers: seq<Timer>, usec: nat)
      requires forall i :: 0 <= i < |timers| ==>
        timers[i].id == i && timers[i].next == null && timers[i].prev == null && !timers[i].enabled && !timers[i].split
      requires 0 < usec && Spec.MAX_USEC * usec <= HALF - TICK
      ensures Valid() && Runs.Fresh(Abs()) && this.timers == timers
    {
      this.timers, this.usec := timers, usec;
      head, target, tsc := null, 0, 0;
      queue, trace := [], [];
      new;
      LinksAt(timers);
      RecordsAt(timers);
      Runs.FreshIsValid(Abs());
    }

    /** at->next = to, where there is an at. */
    method SetNext(at: Timer?, to: Timer?)
      requires Closed() && (at != null ==> Owns(at)) && (to != null ==> Owns(to))
      modifies timers`next
      ensures Closed() && NextsOf(timers) == Set(old(NextsOf(timers)), IdOf(at), IdOf(to))
      ensures PrevsOf(timers) == old(PrevsOf(timers))
    {
      LinksAt(timers);
      if at != null {
        at.next := to;
      }
      LinksAt(timers);
    }

    /** at->prev = to, where there is an at. */
    method SetPrev(at: Timer?, to: Timer?)
      requires Closed() && (at != null ==> Owns(at)) && (to != null ==> Owns(to))
      modifies timers`prev
      ensures Closed() && PrevsOf(timers) == Set(old(PrevsOf(timers)), IdOf(at), IdOf(to))
      ensures NextsOf(timers) == old(NextsOf(timers))
    {
      LinksAt(timers);
      if at != null {
        at.prev := to;
      }
      LinksAt(timers);
    }

    /** Links a timer's neighbours to each other, past it. */
    method Bypass(before: Timer?, after: Timer?)
      requires Closed() && (before != null ==> Owns(before)) && (after != null ==> Owns(after))
      modifies `head, timers`next, timers`prev
      ensures Closed() && head == if before == null then after else old(head)
      ensures NextsOf(timers) == Set(old(NextsOf(timers)), IdOf(before), IdOf(after))
      ensures PrevsOf(timers) == Set(old(PrevsOf(timers)), IdOf(after), IdOf(before))
    {
      hide Closed, NextsOf, PrevsOf, Set;
      SetNext(before, after);
      if before == null {
        head := after;
      }
      SetPrev(after, before);
    }

    /** Takes a queued timer out of the links. */
    method Unlink(t: Timer)
      requires Linked() && Owns(t) && t.id in queue
      modifies `head, timers`next, timers`prev
      ensures LinkedAs(Spec.Without(queue, t.id))
    {
      hide Owns, NextsOf, PrevsOf, Chained, Distinct, Spec.Without, Set;
      ghost var nx, pv := NextsOf(timers), PrevsOf(timers);
      var before, after := t.prev, t.next;
      Neighbours(t);
      UnlinkChain(queue, IdOf(head), nx, pv, t.id);
      Bypass(before, after);
      SetPrev(t, null);
      SetNext(t, null);
    }

    lemma Neighbours(t: Timer)
      requires Closed() && Owns(t)
      ensures t.id < |NextsOf(timers)| == |PrevsOf(timers)|
      ensures NextsOf(timers)[t.id] == IdOf(t.next) && PrevsOf(timers)[t.id] == IdOf(t.prev)
      ensures (t.next != null ==> Owns(t.next)) && (t.prev != null ==> Owns(t.prev))
    {
      LinksAt(timers);
    }

    method Disable(t: Timer)
      requires Linked() && Spec.Structured(Abs()) && Owns(t)
      modifies this, timers
      ensures timers == old(timers) && Linked()
      ensures Abs() == Spec.Disabled(old(Abs()), t.id)
    {
      RecordOf(t);
      if !t.enabled {
        return;
      }
      // The source stops the emulator when an enabled timer is isolated and not the head.
      assert t.next != null || t.prev != null || t == head by { IsolatedIsHead(t); }
      Remove(t);
    }

    lemma LinkedIsRegistered()
      requires Linked()
      ensures Registered()
    {
    }

    /** Takes a timer that is enabled out of the list. */
    method Remove(t: Timer)
      requires Linked() && Owns(t) && t.id in queue
      modifies `head, `queue, `trace, timers`next, timers`prev, t`enabled, t`inCallback
      ensures Linked() && queue == Spec.Without(old(queue), t.id) && trace == old(trace) + [Spec.Cancelled(t.id)]
      ensures Records() == old(Records())[t.id := old(t.AsRecord()).(enabled := false, inCallback := false)]
    {
      hide LinkedAs, Spec.Without, Records;
      LinkedIsRegistered();
      ghost var r := t.AsRecord();
      Unlink(t);
      assert t.AsRecord() == r;
      MarkDisabled(t);
    }

    method MarkDisabled(t: Timer)
      requires Registered() && Owns(t) && t.id in queue && LinkedAs(Spec.Without(queue, t.id))
      modifies t`enabled, t`inCallback, `queue, `trace
      ensures Linked() && queue == Spec.Without(old(queue), t.id) && trace == old(trace) + [Spec.Cancelled(t.id)]
      ensures Records() == old(Records())[t.id := old(t.AsRecord()).(enabled := false, inCallback := false)]
    {
      hide LinkedAs, Spec.Without;
      ghost var was := RecordsOf(timers);
      RecordsAt(timers);
      t.enabled := false;
      t.inCallback := false;
      queue := Spec.Without(queue, t.id);
      trace := trace + [Spec.Cancelled(t.id)];
      RecordsChange(timers, t, was);
    }

    method MarkEnabled(t: Timer, ghost k: nat)
      requires Registered() && Owns(t) && k <= |queue| && LinkedAs(Spec.Splice(queue, k, t.id))
      modifies t`enabled, `queue, `trace, `target
      ensures Linked() && queue == Spec.Splice(old(queue), k, t.id) && trace == old(trace) + [Spec.Armed(t.id)]
      ensures Records() == old(Records())[t.id := old(t.AsRecord()).(enabled := true)]
      ensures target == old(target)
    {
      hide LinkedAs, Spec.Splice;
      ghost var was := RecordsOf(timers);
      RecordsAt(timers);
      t.enabled := true;
      queue := Spec.Splice(queue, k, t.id);
      trace := trace + [Spec.Armed(t.id)];
      RecordsChange(timers, t, was);
    }

    /** When only t's fields have changed since the records were taken, so has only its record. */
    static lemma RecordsChange(ts: seq<Timer>, t: Timer, was: seq<Spec.Record>)
      requires |was| == |ts| && t.id < |ts| && ts[t.id] == t
      requires forall i :: 0 <= i < |ts| && i != t.id ==> ts[i].AsRecord() == was[i]
      ensures RecordsOf(ts) == was[t.id := t.AsRecord()]
    {
      RecordsAt(ts);
    }

    lemma RecordOf(t: Timer)
      requires Owns(t)
      ensures Records()[t.id] == t.AsRecord()
      ensures Spec.Structured(Abs()) ==> (t.enabled <==> t.id in queue)
    {
      RecordsAt(timers);
    }

    static lemma RecordsAt(ts: seq<Timer>)
      ensures forall i :: 0 <= i < |ts| ==> RecordsOf(ts)[i] == ts[i].AsRecord()
    {
      if ts != [] {
        RecordsAt(ts[1..]);
        assert forall i :: 0 < i < |ts| ==> ts[i] == ts[1..][i - 1];
      }
    }

    /** A queued timer without neighbours is the head. */
    lemma IsolatedIsHead(t: Timer)
      requires Linked() && Owns(t) && t.id in queue
      ensures t.prev == null ==> t == head
    {
      LinksAt(timers);
      var k := Spec.IndexOf(queue, t.id);
      assert PrevsOf(timers)[queue[k]] == Ref(queue, k as int - 1);
    }

    /** The node at place k of the queue, null outside it. */
    ghost function At(k: int): Timer?
      reads `timers, `queue
    {
      if 0 <= k < |queue| && queue[k] < |timers| then timers[queue[k]] else null
    }

    lemma NextAt(k: nat)
      requires Linked() && k < |queue|
      ensures At(k) != null && Owns(At(k)) && At(k).id == queue[k] && At(k).next == At(k + 1)
      ensures At(k + 1) == null <==> k + 1 == |queue|
    {
      LinksAt(timers);
      assert NextsOf(timers)[queue[k]] == Ref(queue, k + 1);
    }

    /** Links timer t between its new neighbours. */
    method LinkBetween(before: Timer?, t: Timer, after: Timer?, ghost k: nat)
      requires Linked() && Owns(t) && t.id !in queue && k <= |queue|
      requires before == At(k as int - 1) && after == At(k)
      modifies `head, timers`next, timers`prev
      ensures LinkedAs(Spec.Splice(queue, k, t.id))
    {
      ghost var nx, pv := NextsOf(timers), PrevsOf(timers);
      ghost var h := IdOf(head);
      NeighboursAt(k);
      LinkChain(queue, h, nx, pv, k, t.id);
      hide Closed, NextsOf, PrevsOf, Chained, Distinct, Spec.Splice, Set, Ref, At;
      SetNext(t, after);
      SetPrev(t, before);
      Attach(before, t, after);
    }

    lemma NeighboursAt(k: nat)
      requires Linked() && k <= |queue|
      ensures IdOf(At(k as int - 1)) == Ref(queue, k as int - 1) && IdOf(At(k)) == Ref(queue, k)
      ensures At(k) != null ==> Owns(At(k))
      ensures At(k as int - 1) != null ==> Owns(At(k as int - 1))
      ensures At(k as int - 1) == null <==> k == 0
    {
    }

    /** Points the neighbours of t at t. */
    method Attach(before: Timer?, t: Timer, after: Timer?)
      requires Closed() && Owns(t) && (before != null ==> Owns(before)) && (after != null ==> Owns(after))
      modifies `head, timers`next, timers`prev
      ensures Closed() && head == if before == null then t else old(head)
      ensures NextsOf(timers) == Set(old(NextsOf(timers)), IdOf(before), t.id)
      ensures PrevsOf(timers) == Set(old(PrevsOf(timers)), IdOf(after), t.id)
    {
      hide Closed, NextsOf, PrevsOf, Set;
      SetNext(before, t);
      if before == null {
        head := t;
      }
      SetPrev(after, t);
    }

    lemma InRange()
      requires Linked() && Spec.Structured(Abs())
      ensures Registered() && forall j :: 0 <= j < |queue| ==> queue[j] < |timers|
    {
    }

    /** Walks the list for the first timer that t must precede. */
    method FindPlace(t: Timer) returns (before: Timer?, after: Timer?, ghost k: nat)
      requires Linked() && Spec.Structured(Abs()) && Owns(t)
      ensures k == Spec.Slot(Abs(), t.ts, 0)
      ensures before == At(k as int - 1) && after == At(k)
    {
      hide LinkedAs, LessThan, Spec.Structured, Records;
      HeadAt();
      InRange();
      k := 0;
      if head == null {
        before, after := null, null;
      } else if LessThan(t.ts, head.ts) {
        before, after := null, head;
      } else if head.next == null {
        NextAt(0);
        before, after := head, null;
        k := 1;
      } else {
        NextAt(0);
        before, after, k := Walk(t);
      }
      SlotFound(t, k);
    }

    /** The walk past a head that t does not precede and that is not alone. */
    method Walk(t: Timer) returns (before: Timer?, after: Timer?, ghost k: nat)
      requires Linked() && |queue| > 1 && head != null && !LessThan(t.ts, head.ts)
      requires forall j :: 0 <= j < |queue| ==> queue[j] < |timers|
      ensures k <= |queue| && before == At(k as int - 1) && after == At(k)
      ensures forall j :: 0 <= j < k ==> !LessThan(t.ts, timers[queue[j]].ts)
      ensures k < |queue| ==> LessThan(t.ts, timers[queue[k]].ts)
    {
      hide LinkedAs, LessThan;
      HeadAt();
      NextAt(0);
      before := head;
      after := head.next;
      k := 1;
      while true
        invariant 1 <= k < |queue| && before == At(k as int - 1) && after == At(k) && after != null
        invariant forall j :: 0 <= j < k ==> !LessThan(t.ts, timers[queue[j]].ts)
        decreases |queue| - k
      {
        if LessThan(t.ts, after.ts) {
          break;
        }
        NextAt(k);
        before := after;
        after := after.next;
        k := k + 1;
        if after == null {
          break;
        }
      }
    }

    lemma SlotFound(t: Timer, k: nat)
      requires Spec.Structured(Abs()) && k <= |queue| && forall j :: 0 <= j < |queue| ==> queue[j] < |timers|
      requires forall j :: 0 <= j < k ==> !LessThan(t.ts, timers[queue[j]].ts)
      requires k < |queue| ==> LessThan(t.ts, timers[queue[k]].ts)
      ensures k == Spec.Slot(Abs(), t.ts, 0)
    {
      hide LessThan;
      RecordsAt(timers);
    }

    lemma HeadAt()
      requires Linked()
      ensures head == At(0) && (head == null <==> queue == []) && (head != null ==> Owns(head) && head.id == queue[0])
    {
    }

    /** Puts a timer that is not enabled into the list. */
    method Insert(t: Timer)
      requires Linked() && Spec.Structured(Abs()) && Owns(t) && !t.enabled && !Records()[t.id].enabled
      modifies this, timers
      ensures timers == old(timers) && Linked()
      ensures Abs() == Spec.Inserted(old(Abs()), t.id)
    {
      hide LinkedAs, Spec.Structured, Spec.Slot, Spec.Splice, Registered;
      RecordOf(t);
      InRange();
      ghost var k := Place(t);
      MarkEnabled(t, k);
    }

    /** Links t in where it belongs, and wakes up for it if that is at the head. */
    method Place(t: Timer) returns (ghost k: nat)
      requires Linked() && Spec.Structured(Abs()) && Owns(t) && t.id !in queue
      modifies `head, `target, timers`next, timers`prev
      ensures k == Spec.Slot(old(Abs()), t.ts, 0) && LinkedAs(Spec.Splice(queue, k, t.id))
      ensures Records() == old(Records()) && target == if k == 0 then t.ts / TICK else old(target)
    {
      hide LinkedAs, Spec.Structured, Spec.Slot, Spec.Splice, Owns, RecordsOf;
      var before, after, place := FindPlace(t);
      k := place;
      NeighboursAt(k);
      hide At;
      LinkBetween(before, t, after, k);
      if before == null {
        target := t.ts / TICK;
      }
    }

    method Enable(t: Timer)
      requires Linked() && Spec.Structured(Abs()) && Owns(t)
      modifies this, timers
      ensures timers == old(timers) && Linked()
      ensures Abs() == Spec.Enabled(old(Abs()), t.id)
    {
      Spec.DisabledIsStructured(Abs(), t.id);
      RecordOf(t);
      hide LinkedAs, Spec.Structured, Spec.Inserted, Records;
      if t.enabled {
        Disable(t);
      }
      RecordOf(t);
      // The source stops the emulator when a timer that is not enabled still has links.
      Insert(t);
    }

    /** timer_advance_u64 and timer_set_delay_u64 give the timer a stamp, then enable it. */
    method Arm(t: Timer, ts: Word64)
      requires Linked() && Spec.Structured(Abs()) && Owns(t)
      modifies this, timers
      ensures timers == old(timers) && Linked()
      ensures Abs() == Spec.Arm(old(Abs()), t.id, ts)
    {
      RecordOf(t);
      assert Registered();
      hide LinkedAs;
      ghost var was := RecordsOf(timers);
      RecordsAt(timers);
      t.ts := ts;
      RecordsChange(timers, t, was);
      assert Spec.Structured(Abs());
      hide Spec.Structured, Spec.Enabled, Records, Registered;
      Enable(t);
    }

    method AdvanceU64(t: Timer, delay: Word64)
      requires Linked() && Spec.Structured(Abs()) && Owns(t)
      modifies this, timers
      ensures timers == old(timers) && Linked()
      ensures Abs() == Spec.Arm(old(Abs()), t.id, Advanced(old(t.ts), delay))
    {
      Arm(t, Advanced(t.ts, delay));
    }

    method SetDelayU64(t: Timer, delay: Word64)
      requires Linked() && Spec.Structured(Abs()) && Owns(t)
      modifies this, timers
      ensures timers == old(timers) && Linked()
      ensures Abs() == Spec.Arm(old(Abs()), t.id, StampAfter(old(tsc), delay))
    {
      Arm(t, StampAfter(tsc, delay));
    }

    /** Changes bookkeeping fields only. */
    method SetBooks(t: Timer, split: bool, inCallback: bool, period: real)
      requires Linked() && Spec.Structured(Abs()) && Owns(t)
      modifies t`split, t`inCallback, t`period
      ensures Linked() && Spec.Structured(Abs())
      ensures Abs() == old(Abs()).With(t.id, old(t.AsRecord()).(split := split, inCallback := inCallback,
        period := period))
      ensures Abs().recs[t.id] == t.AsRecord() && old(Abs()).recs[t.id] == old(t.AsRecord())
    {
      hide LinkedAs, Records, Spec.Structured;
      LinkedIsRegistered();
      RecordOf(t);
      ghost var s, r := Abs(), t.AsRecord();
      Book(t, split, inCallback, period);
      RecordOf(t);
      WithIsStructured(s, t.id, r.(split := split, inCallback := inCallback, period := period));
    }

    method Book(t: Timer, split: bool, inCallback: bool, period: real)
      requires Registered() && Owns(t)
      modifies t`split, t`inCallback, t`period
      ensures Records() == old(Records())[t.id := old(t.AsRecord()).(split := split, inCallback := inCallback,
        period := period)]
    {
      ghost var was := RecordsOf(timers);
      RecordsAt(timers);
      t.split, t.inCallback, t.period := split, inCallback, period;
      RecordsChange(timers, t, was);
    }

    /** Arms the next stretch of t's period, or takes t out when nothing is left. */
    method ArmStretch(t: Timer, start: bool)
      requires Linked() && Spec.Structured(Abs()) && Owns(t) && Spec.MAX_USEC * usec < WRAP
      modifies this, timers
      ensures timers == old(timers) && Linked() && Spec.Structured(Abs())
      ensures Abs() == if old(t.period) > 0.0
                       then Spec.Arm(old(Abs()), t.id, Spec.ChunkStamp(old(Abs()), t.id, old(t.period), start))
                       else Spec.Disabled(old(Abs()), t.id)
    {
      RecordOf(t);
      ghost var s := Abs();
      var period := t.period;
      hide LinkedAs, Spec.Structured, Spec.Arm, Spec.Disabled, Records, Spec.Chunk;
      if period > 0.0 {
        ArmIsStructured(s, t.id, Spec.ChunkStamp(s, t.id, period, start));
        if start {
          SetDelayU64(t, Spec.Chunk(period, usec));
        } else {
          AdvanceU64(t, Spec.Chunk(period, usec));
        }
      } else {
        Spec.DisabledIsStructured(s, t.id);
        Disable(t);
      }
    }

    method AdvanceEx(t: Timer, start: bool)
      requires Linked() && Spec.Structured(Abs()) && Owns(t) && Spec.MAX_USEC * usec < WRAP
      modifies this, timers
      ensures timers == old(timers) && Linked() && Spec.Structured(Abs())
      ensures Abs() == Spec.AdvanceEx(old(Abs()), t.id, start)
    {
      RecordOf(t);
      var period := t.period;
      hide LinkedAs, Spec.Structured, Spec.Arm, Spec.Disabled, Records, Spec.ChunkStamp, Spec.Consumed;
      ArmStretch(t, start);
      Consume(t, period);
    }

    method Consume(t: Timer, period: real)
      requires Linked() && Spec.Structured(Abs()) && Owns(t)
      modifies t`split, t`inCallback, t`period
      ensures Linked() && Spec.Structured(Abs())
      ensures Abs() == old(Abs()).With(t.id, Spec.Consumed(old(Abs()).recs[t.id], period))
    {
      hide LinkedAs, Spec.Structured, Records;
      if period > Spec.MAX_USEC as real {
        SetBooks(t, true, t.inCallback, period - Spec.MAX_USEC as real);
      } else {
        SetBooks(t, false, t.inCallback, 0.0);
      }
    }

    method Stop(t: Timer)
      requires Linked() && Spec.Structured(Abs()) && Owns(t)
      modifies this, timers
      ensures timers == old(timers) && Linked() && Spec.Structured(Abs())
      ensures Abs() == Spec.Stopped(old(Abs()), t.id)
    {
      hide LinkedAs, Spec.Structured, Spec.Disabled, Records;
      SetBooks(t, t.split, t.inCallback, 0.0);
      Spec.DisabledIsStructured(Abs(), t.id);
      Disable(t);
      SetBooks(t, false, false, t.period);
    }

    method OnAuto(t: Timer, period: real)
      requires Linked() && Spec.Structured(Abs()) && Owns(t) && Spec.MAX_USEC * usec < WRAP
      modifies this, timers
      ensures timers == old(timers) && Linked() && Spec.Structured(Abs())
      ensures Abs() == Spec.OnAuto(old(Abs()), t.id, period)
    {
      hide LinkedAs, Spec.Structured, Spec.AdvanceEx, Spec.Stopped, Records;
      if period > 0.0 {
        RecordOf(t);
        var start := t.period <= 0.0 && !t.inCallback;
        SetBooks(t, t.split, t.inCallback, period);
        AdvanceEx(t, start);
      } else {
        Stop(t);
      }
    }

    method SetNewTsc(clock: Word64)
      requires Linked() && Spec.Structured(Abs())
      modifies `tsc, `target, timers`ts
      ensures Linked()
      ensures Abs() == Spec.Rebase(old(Abs()), clock)
    {
      hide LinkedAs, Spec.Rebase, Signed32, Records;
      HeadAt();
      if head == null {
        RebaseEmpty(Abs(), clock);
        tsc := clock;
        return;
      }
      RebaseParts(Abs(), clock);
      var earliest := head.ts;
      RecordOf(head);
      hide Spec.Structured;
      RebaseStamps(clock);
      target := (clock + Signed32(earliest / TICK - tsc)) % TICK;
      tsc := clock;
    }

    /** The records after the first k queued timers have been rebased. */
    static ghost function RebasedAll(s: Spec.Scheduler, k: nat, clock: Word64): (r: seq<Spec.Record>)
      requires Spec.Structured(s) && k <= |s.queue|
      ensures |r| == |s.recs|
    {
      if k == 0 then s.recs else
        var i := s.queue[k - 1];
        RebasedAll(s, k - 1, clock)[i := s.recs[i].(ts := Rebased(s.recs[i].ts, s.tsc, clock))]
    }

    static lemma {:induction false} RebasedAllAt(s: Spec.Scheduler, k: nat, clock: Word64, i: nat)
      requires Spec.Structured(s) && k <= |s.queue| && i < |s.recs|
      ensures RebasedAll(s, k, clock)[i] ==
        if i in s.queue[..k] then s.recs[i].(ts := Rebased(s.recs[i].ts, s.tsc, clock)) else s.recs[i]
    {
      hide Rebased;
      if k > 0 {
        RebasedAllAt(s, k - 1, clock, i);
        assert s.queue[..k] == s.queue[..k - 1] + [s.queue[k - 1]];
      }
    }

    static lemma RebasedAllStep(s: Spec.Scheduler, k: nat, clock: Word64)
      requires Spec.Structured(s) && k < |s.queue|
      ensures var i := s.queue[k]; var r := RebasedAll(s, k, clock);
        r[i] == s.recs[i] && RebasedAll(s, k + 1, clock) == r[i := r[i].(ts := Rebased(r[i].ts, s.tsc, clock))]
    {
      RebasedAllAt(s, k, clock, s.queue[k]);
      hide Rebased;
      assert s.queue[k] !in s.queue[..k];
    }

    static lemma RebasedNone(s: Spec.Scheduler, clock: Word64)
      requires Spec.Structured(s)
      ensures RebasedAll(s, 0, clock) == s.recs
    {
    }

    static lemma RebasedAllIsRebase(s: Spec.Scheduler, clock: Word64)
      requires Spec.Structured(s) && s.queue != []
      ensures RebasedAll(s, |s.queue|, clock) == Spec.Rebase(s, clock).recs
    {
      assert s.queue[..|s.queue|] == s.queue;
      forall i | 0 <= i < |s.recs|
        ensures RebasedAll(s, |s.queue|, clock)[i] == Spec.RebasedRecord(s.recs[i], s.tsc, clock)
      {
        RebasedAllAt(s, |s.queue|, clock, i);
      }
      hide RebasedAll, Spec.RebasedRecord;
    }

    static lemma RebaseEmpty(s: Spec.Scheduler, clock: Word64)
      requires Spec.Structured(s) && s.queue == []
      ensures Spec.Rebase(s, clock) == s.(tsc := clock)
    {
    }

    static lemma RebaseParts(s: Spec.Scheduler, clock: Word64)
      requires Spec.Structured(s) && s.queue != []
      ensures Spec.Rebase(s, clock) ==
        s.(recs := Spec.Rebase(s, clock).recs, tsc := clock,
           target := (clock + Signed32(s.recs[s.queue[0]].ts / TICK - s.tsc)) % TICK)
    {
    }

    method RebaseOne(t: Timer, clock: Word64)
      requires Linked() && Owns(t)
      modifies t`ts
      ensures Linked() && Records() == old(Records())[t.id := old(t.AsRecord()).(ts := Rebased(old(t.ts), tsc, clock))]
    {
      assert Registered();
      hide LinkedAs, Signed32;
      ghost var was := RecordsOf(timers);
      RecordsAt(timers);
      t.ts := (clock + Signed32(t.ts / TICK - tsc)) % TICK * TICK + t.ts % TICK;
      RecordsChange(timers, t, was);
    }

    method RebaseNode(t: Timer, clock: Word64, ghost s: Spec.Scheduler, ghost k: nat)
      requires Linked() && Owns(t) && Spec.Structured(s) && s.queue == queue && s.tsc == tsc && |s.recs| == |timers|
      requires k < |queue| && t.id == queue[k] && Records() == RebasedAll(s, k, clock)
      modifies t`ts
      ensures Linked() && Records() == RebasedAll(s, k + 1, clock)
    {
      RecordOf(t);
      RebasedAllStep(s, k, clock);
      hide LinkedAs, Rebased, RebasedAll, Spec.Structured, Records;
      RebaseOne(t, clock);
    }

    method RebaseStamps(clock: Word64)
      requires Linked() && Spec.Structured(Abs()) && queue != []
      modifies timers`ts
      ensures Linked()
      ensures Records() == Spec.Rebase(old(Abs()), clock).recs
    {
      hide Spec.Rebase, Records, LinkedAs, At, RebasedAll, Owns;
      ghost var s := Abs();
      ghost var k := 0;
      HeadAt();
      RebasedAllIsRebase(s, clock);
      RebasedNone(s, clock);
      hide Spec.Structured;
      var node := head;
      while node != null
        invariant k <= |queue| && node == At(k) && (node == null <==> k == |queue|)
        invariant Linked() && Records() == RebasedAll(s, k, clock)
        decreases |queue| - k
      {
        NextAt(k);
        RebaseNode(node, clock, s, k);
        node := node.next;
        k := k + 1;
      }
    }

    /** Performs one action of a callback. */
    method Perform(a: Spec.Action)
      requires Linked() && Spec.Structured(Abs()) && a.id < |timers| && Spec.MAX_USEC * usec < WRAP
      modifies this, timers
      ensures timers == old(timers) && Linked()
      ensures Abs() == Spec.Perform(old(Abs()), a)
    {
      var t := timers[a.id];
      assert Owns(t);
      RecordOf(t);
      hide LinkedAs, Spec.Structured, Spec.Arm, Spec.Disabled, Spec.Stopped, Spec.OnAuto, Records, StampAfter, Advanced;
      match a {
        case Advance(_, delay) => AdvanceU64(t, delay);
        case SetDelay(_, delay) => SetDelayU64(t, delay);
        case Disable(_) => Disable(t);
        case Stop(_) => Stop(t);
        case Auto(_, period) => OnAuto(t, period);
      }
    }

    /** Runs a callback that performs the given actions. */
    method RunCallback(acts: seq<Spec.Action>, ghost tick: int)
      requires Valid() && Drains.WellBehaved(Abs(), acts, tick)
      modifies this, timers
      ensures timers == old(timers) && Valid()
      ensures Abs() == Drains.PerformAll(old(Abs()), acts, tick)
      decreases |acts|
    {
      if acts != [] {
        PerformKeepsValid(Abs(), acts[0]);
        hide LinkedAs, Spec.Perform, Admissible, Drains.Forward;
        Perform(acts[0]);
        RunCallback(acts[1..], tick);
      }
    }

    /** Takes the expired head out. */
    method Pop(t: Timer, ghost tick: int, ghost called: bool)
      requires Linked() && Registered() && Owns(t) && queue != [] && t.id == queue[0]
      modifies `head, `queue, `trace, timers`next, timers`prev, t`enabled
      ensures Linked() && queue == old(queue)[1..] && trace == old(trace) + [Spec.Expired(t.id, tick, called)]
      ensures Records() == old(Records())[t.id := old(t.AsRecord()).(enabled := false)]
    {
      FirstWithout(queue);
      hide LinkedAs, Spec.Without, Registered, Records;
      Unlink(t);
      MarkExpired(t, tick, called);
    }

    method MarkExpired(t: Timer, ghost tick: int, ghost called: bool)
      requires Registered() && Owns(t) && queue != [] && LinkedAs(queue[1..])
      modifies t`enabled, `queue, `trace
      ensures Linked() && queue == old(queue)[1..] && trace == old(trace) + [Spec.Expired(t.id, tick, called)]
      ensures Records() == old(Records())[t.id := old(t.AsRecord()).(enabled := false)]
    {
      hide LinkedAs;
      ghost var was := RecordsOf(timers);
      RecordsAt(timers);
      t.enabled := false;
      queue := queue[1..];
      trace := trace + [Spec.Expired(t.id, tick, called)];
      RecordsChange(timers, t, was);
    }

    static lemma FirstWithout(q: seq<nat>)
      requires q != []
      ensures Spec.Without(q, q[0]) == q[1..]
    {
    }

    /** Takes out the timer that is due. */
    method TakeHead() returns (t: Timer)
      requires Valid() && Drains.Due(Abs())
      modifies `head, `queue, `trace, timers`next, timers`prev, head`enabled
      ensures Linked() && Owns(t) && t == old(head) && t.id == old(queue)[0]
      ensures Abs() == Drains.Popped(old(Abs()))
    {
      ghost var s := Abs();
      HeadDue();
      assert Registered();
      RecordOf(head);
      hide LinkedAs, Records, Spec.Valid, Spec.Structured, Registered, Owns, Drains.HeadTick;
      t := head;
      Pop(t, Drains.HeadTick(s), Drains.RunsCallback(s));
    }

    /** One round of the drain. */
    method Step(acts: seq<Spec.Action>)
      requires Valid() && Drains.Due(Abs()) && Drains.StepOk(Abs(), acts)
      modifies this, timers
      ensures timers == old(timers) && Valid()
      ensures Abs() == Drains.Step(old(Abs()), acts)
    {
      ghost var s := Abs();
      HeadDue();
      Drains.PoppedKeepsValid(s, true);
      Drains.StepProgresses(s, acts);
      hide LinkedAs, Records, Spec.Valid, Spec.Structured, Registered, Owns, Drains.HeadTick;
      var t := TakeHead();
      if t.split {
        AdvanceEx(t, false);
      } else if t.callback {
        RunHandler(t, acts, Drains.HeadTick(s));
      }
    }

    /** Runs a timer's callback, with its flag set. */
    method RunHandler(t: Timer, acts: seq<Spec.Action>, ghost tick: int)
      requires Linked() && Spec.Structured(Abs()) && Owns(t)
      requires var p := Drains.WithFlag(Abs(), t.id, true); Spec.Valid(p) && Drains.WellBehaved(p, acts, tick)
      modifies this, timers
      ensures timers == old(timers) && Linked()
      ensures var q := Drains.PerformAll(Drains.WithFlag(old(Abs()), t.id, true), acts, tick);
        t.id < |q.recs| && Abs() == Drains.WithFlag(q, t.id, false)
    {
      hide LinkedAs, Records, Spec.Ordered, Spec.InWindow, Spec.TargetSound, Spec.Matched, Spec.Tuned;
      SetBooks(t, t.split, true, t.period);
      Drains.PerformAllKeeps(Abs(), acts, tick);
      RunCallback(acts, tick);
      SetBooks(t, t.split, false, t.period);
    }

    /** Runs every timer that has expired, including those that callbacks arm on the
        way. A list that callbacks empty is reported: the source would go on to read
        the stamp of a head that is not there. */
    method Process(script: Drains.Script) returns (emptied: bool)
      requires Valid() && Runs.Behaves(Abs(), script, 0)
      modifies this, timers
      ensures timers == old(timers) && Valid()
      ensures Abs() == Runs.Apply(old(Abs()), Runs.Process(script))
      ensures emptied <==> old(queue) != [] && Runs.Drain(old(Abs()), script, 0).emptied
    {
      hide LinkedAs, Spec.Valid, Spec.Structured, Records, At, Owns, Reached;
      HeadDue();
      emptied := false;
      if head == null {
        return;
      }
      var n := 0;
      while head != null && Reached(head.ts, tsc)
        invariant timers == old(timers) && Valid() && Runs.Behaves(Abs(), script, n)
        invariant Runs.Drain(Abs(), script, n) == Runs.Drain(old(Abs()), script, 0)
        decreases Drains.Weight(Abs().recs, tsc)
      {
        HeadDue();
        Drains.StepProgresses(Abs(), script(n));
        var called := !head.split && head.callback;
        Step(script(n));
        n := if called then n + 1 else n;
      }
      HeadDue();
      if head == null {
        emptied := true;
      } else {
        RefreshTarget();
      }
    }

    lemma HeadDue()
      requires Valid()
      ensures Spec.Structured(Abs())
      ensures head == null <==> queue == []
      ensures head != null ==> Owns(head) && head.id == queue[0]
      ensures Drains.Due(Abs()) <==> head != null && Reached(head.ts, tsc)
      ensures head != null ==> (Drains.RunsCallback(Abs()) <==> !head.split && head.callback)
      ensures head != null ==> (Abs().recs[queue[0]].split <==> head.split)
    {
      HeadAt();
      if head != null { RecordOf(head); }
    }

    method RefreshTarget()
      requires Valid() && queue != [] && head != null && Owns(head) && head.id == queue[0]
      modifies `target
      ensures Valid() && Abs() == old(Abs()).(target := old(Abs()).recs[queue[0]].ts / TICK)
    {
      RecordOf(head);
      Runs.TargetRefreshKeepsValid(Abs());
      hide LinkedAs, Spec.Valid;
      target := head.ts / TICK;
    }

    /** One operation on the scheduler. */
    method Apply(op: Runs.Op)
      requires Valid() && Runs.Allowed(Abs(), op)
      modifies this, timers
      ensures timers == old(timers) && Valid()
      ensures Abs() == Runs.Apply(old(Abs()), op)
    {
      Runs.ApplyKeepsValid(Abs(), op);
      hide LinkedAs, Records, Spec.Perform, Spec.Enabled, Spec.Rebase, Drains.Due, Admissible;
      match op {
        case Do(a) => Perform(a);
        case Reenable(i) => Enable(timers[i]);
        case Process(script) =>
          var emptied := Process(script);
        case RebaseTo(clock) => SetNewTsc(clock);
        case TickTo(clock) => tsc := clock;
      }
    }

    /** Operation after operation. */
    method RunAll(ops: seq<Runs.Op>)
      requires Valid() && Runs.RunAllowed(Abs(), ops)
      modifies this, timers
      ensures timers == old(timers) && Valid()
      ensures Abs() == Runs.Run(old(Abs()), ops)
    {
      hide LinkedAs, Records, Spec.Valid, Runs.Apply, Runs.Allowed;
      var i := 0;
      while i < |ops|
        invariant 0 <= i <= |ops| && timers == old(timers) && Valid() && Runs.RunAllowed(Abs(), ops[i..])
        invariant Runs.Run(old(Abs()), ops) == Runs.Run(Abs(), ops[i..])
      {
        assert ops[i..][1..] == ops[i + 1..];
        Apply(ops[i]);
        i := i + 1;
      }
    }
  }
}
