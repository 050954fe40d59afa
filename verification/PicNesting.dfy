/** Fully nested mode over whole runs, and services that rotate. */
module PicNesting {
  import opened Options
  import opened Pic
  import opened PicPriority
  import opened PicLines
  import opened PicRuns
  import opened PicDelivery
  import opened PicRegisters

  /** The open services of the two chips, oldest first. */
  datatype Stacks = Stacks(master: seq<Level>, slave: seq<Level>)

  /** The chip ends an acknowledged interrupt by itself. */
  predicate SelfEnding(c: Chip) {
    c.autoEoi && c.i86
  }

  function Popped(st: seq<Level>): seq<Level> {
    if st == [] then [] else st[..|st| - 1]
  }

  /** A stack machine that sees only which level is acknowledged and when a service is
      ended: an acknowledge pushes (unless the chip ends it by itself at once), a
      non-specific end of interrupt pops, a specific one takes out its level. */
  function Track(p: Pair, op: Op, st: Stacks): Stacks {
    match op
    case Ack =>
      var i := CurrentLine(p);
      Stacks(if SelfEnding(p.master) then st.master else st.master + [OwnLevel(i)],
             if i < 8 || SelfEnding(p.slave) then st.slave else st.slave + [i - 8])
    case Ocw2(side, _, specific, eoi, level) =>
      if !eoi then st
      else if specific then
        if side == Master then st.(master := Struck(st.master, level)) else st.(slave := Struck(st.slave, level))
      else if side == Master then st.(master := Popped(st.master)) else st.(slave := Popped(st.slave))
    case Icw1(side, _, _, _) => if side == Master then st.(master := []) else st
    case _ => st
  }

  /** Fully nested mode: no rotation, no special mask mode, and the processor
      acknowledges only when asked to. */
  predicate FullyNested(p: Pair, op: Op) {
    && KeepsSlave(p, op)
    && match op
       case Ack => p.master.pending && Cascaded(p)
       case Ocw2(_, rotate, _, _, _) => !rotate
       case SpecialMask(_, on) => !on
       case _ => true
  }

  ghost predicate BothNested(p: Pair, st: Stacks) {
    Nested(p.master, st.master) && Nested(p.slave, st.slave)
  }

  lemma NestedReads(c: Chip, d: Chip, st: seq<Level>)
    requires Nested(c, st) && c.isr == d.isr && c.priority == d.priority
    requires c.specialMask == d.specialMask && c.autoRotate == d.autoRotate
    ensures Nested(d, st)
  {
  }

  lemma UpdateKeepsNested(p: Pair, st: Stacks)
    requires BothNested(p, st)
    ensures BothNested(UpdatePending(p), st)
  {
    hide Best;
    var q := UpdatePending(p);
    NestedReads(p.master, q.master, st.master);
    NestedReads(p.slave, q.slave, st.slave);
  }

  /** One chip's part of an acknowledge. */
  lemma AckedStack(c: Chip, j: Level, d: Chip, st: seq<Level>)
    requires Nested(c, st) && Best(c) == Some(j)
    requires d.isr == Done(c.(isr := c.isr + {j}), 1).isr
    requires d.priority == c.priority && d.specialMask == c.specialMask && d.autoRotate == c.autoRotate
    ensures Nested(d, if SelfEnding(c) then st else st + [j])
  {
    AcknowledgedGoesOnTop(c, st, j);
    var e := c.(pending := false, isr := c.isr + {j});
    NestedReads(c.(isr := c.isr + {j}), e, st + [j]);
    NonSpecificIsTop(e, st + [j]);
    if SelfEnding(c) {
      EndedComesOffTop(e, st + [j]);
      assert (st + [j])[..|st|] == st;
    }
    hide NonSpecific, Best, Nested;
    NestedReads(Done(c.(isr := c.isr + {j}), 1), d, if SelfEnding(c) then st else st + [j]);
  }

  lemma DoneKeepsPriority(c: Chip, phase: nat)
    requires !c.autoRotate || !c.autoEoi
    ensures Done(c, phase).priority == c.priority
  {
    hide NonSpecific;
  }

  /** An acknowledge changes no mode, and no priority unless it rotates by itself. */
  lemma AckKeepsModes(p: Pair)
    requires Coherent(p) && p.master.i86 && !MissingSlave(p)
    requires (!p.master.autoRotate || !p.master.autoEoi) && (!p.slave.autoRotate || !p.slave.autoEoi)
    ensures var q := Interrupt(p).0;
      && q.master.priority == p.master.priority && q.slave.priority == p.slave.priority
      && q.master.specialMask == p.master.specialMask && q.slave.specialMask == p.slave.specialMask
      && q.master.autoRotate == p.master.autoRotate && q.slave.autoRotate == p.slave.autoRotate
  {
    hide Interrupt, AckLater, Thawed, Done, Coherent;
    FrozenKeepsPriority(p);
    InterruptInTwo(p);
    var q := Frozen(p);
    hide Frozen;
    LaterEffect(q, 1);
    DoneKeepsPriority(q.master, 1);
    DoneKeepsPriority(q.slave, 1);
    ThawedKeeps(AckLater(q, 1));
  }

  lemma FrozenKeepsPriority(p: Pair)
    requires Coherent(p)
    ensures var q := Frozen(p);
      && Wired(p) && Wired(q) && p.acks == 0 && SameSetups(p.(acks := 1), q) && q.master.current.frozen
      && q.master.priority == p.master.priority && q.slave.priority == p.slave.priority
  {
    hide Prepared, AckCycle0;
    FrozenEffect(p);
    PreparedKeeps(p);
    Cycle0Effect(Prepared(p));
  }

  /** What an acknowledge does to the services of the two chips. */
  ghost predicate Acked(p: Pair, q: Pair) {
    var i := CurrentLine(p);
    && Best(p.master) == Some(OwnLevel(i)) && (i >= 8 ==> Best(p.slave) == Some(i - 8))
    && q.master.isr == Done(p.master.(isr := p.master.isr + {OwnLevel(i)}), 1).isr
    && q.slave.isr == (if i >= 8 then Done(p.slave.(isr := p.slave.isr + {i - 8}), 1).isr else p.slave.isr)
    && q.master.priority == p.master.priority && q.slave.priority == p.slave.priority
    && q.master.specialMask == p.master.specialMask && q.slave.specialMask == p.slave.specialMask
    && q.master.autoRotate == p.master.autoRotate && q.slave.autoRotate == p.slave.autoRotate
  }

  lemma CurrentIsBest(p: Pair)
    requires Coherent(p) && p.master.pending
    ensures var i := CurrentLine(p); Best(p.master) == Some(OwnLevel(i)) && (i >= 8 ==> Best(p.slave) == Some(i - 8))
  {
    hide Best, IsFirstLine;
    CurrentIsFirstLine(p);
  }

  lemma AckEffect(p: Pair)
    requires Coherent(p) && Cascaded(p) && p.master.pending && p.master.i86
    requires (!p.master.autoRotate || !p.master.autoEoi) && (!p.slave.autoRotate || !p.slave.autoEoi)
    ensures Wired(p) && !MissingSlave(p) && Acked(p, Interrupt(p).0)
  {
    CascadedHasSlave(p);
    hide Interrupt, Best, IsFirstLine, Done, AnswerFor;
    InterruptDelivers(p);
    AckKeepsModes(p);
    CurrentIsBest(p);
  }

  lemma AckNests(p: Pair, st: Stacks)
    requires Coherent(p) && BothNested(p, st) && p.master.pending && Cascaded(p) && p.master.i86
    ensures !MissingSlave(p) && BothNested(Interrupt(p).0, Track(p, Ack, st))
  {
    hide Interrupt, Best, Done, Coherent, Cascaded;
    AckEffect(p);
    var q := Interrupt(p).0;
    AckedNests(p, q, st);
  }

  lemma AckedNests(p: Pair, q: Pair, st: Stacks)
    requires Acked(p, q) && BothNested(p, st)
    ensures BothNested(q, Track(p, Ack, st))
  {
    hide Best, Nested, Done;
    var i := CurrentLine(p);
    AckedStack(p.master, OwnLevel(i), q.master, st.master);
    if i >= 8 {
      AckedStack(p.slave, i - 8, q.slave, st.slave);
    } else {
      NestedReads(p.slave, q.slave, st.slave);
    }
  }

  lemma SpecificNests(p: Pair, side: Side, eoi: bool, level: Level, st: Stacks)
    requires BothNested(p, st)
    ensures BothNested(Command(p, side, false, true, eoi, level), Track(p, Ocw2(side, false, true, eoi, level), st))
  {
    var s := if side == Master then st.master else st.slave;
    var c := p.Get(side);
    StruckIsNested(c, s, level);
    NestedReads(c, Ended(c, level, false, false), s);
    hide Nested, UpdatePending, Struck;
    UpdateKeepsNested(p.Put(side, Ended(c, level, eoi, false)), Track(p, Ocw2(side, false, true, eoi, level), st));
  }

  lemma CommandNests(p: Pair, side: Side, eoi: bool, level: Level, st: Stacks)
    requires BothNested(p, st)
    ensures BothNested(Command(p, side, false, false, eoi, level), Track(p, Ocw2(side, false, false, eoi, level), st))
  {
    var s := if side == Master then st.master else st.slave;
    var c := p.Get(side);
    if eoi {
      NonSpecificIsTop(c, s);
      if s != [] {
        EndedComesOffTop(c, s);
        hide Nested, NonSpecific, UpdatePending;
        UpdateKeepsNested(p.Put(side, Ended(c, s[|s| - 1], true, false)),
          Track(p, Ocw2(side, false, false, eoi, level), st));
      }
    } else {
      NestedReads(c, c.(autoRotate := false), s);
    }
  }

  lemma LinesKeepNested(p: Pair, num: set<LineNo>, raise: bool, st: Stacks)
    requires BothNested(p, st)
    ensures BothNested(SetRequests(p, num, raise), st)
  {
    hide UpdatePending;
    var q := WithRequests(p, num, raise);
    NestedReads(p.master, q.master, st.master);
    NestedReads(p.slave, q.slave, st.slave);
    UpdateKeepsNested(q, st);
  }

  lemma SharedKeepsNested(p: Pair, num: set<LineNo>, raise: bool, asserting: bool, st: Stacks)
    requires Wired(p) && BothNested(p, st)
    ensures BothNested(Shared(p, num, raise, asserting).0, st)
  {
    var reach := EdgeLines(p, num);
    var q := if asserting != raise then Counted(p, reach, raise) else p;
    NestedReads(p.master, q.master, st.master);
    NestedReads(p.slave, q.slave, st.slave);
    hide SetRequests, EdgeLines, Effective, Nested;
    LinesKeepNested(q, Effective(q, reach, raise, asserting != raise), raise, st);
  }

  lemma WritesKeepNested(p: Pair, side: Side, v: nat, st: Stacks)
    requires BothNested(p, st)
    ensures BothNested(WriteOdd(p, side, v), st)
  {
    var c := p.Get(side);
    var s := if side == Master then st.master else st.slave;
    NextWordKeeps(c, v);
    NestedReads(c, NextWord(c, v), s);
    NestedReads(c, c.(imr := Bits(v)), s);
    hide UpdatePending, Bits, NextWord, Nested;
    UpdateKeepsNested(p.Put(side, c.(imr := Bits(v))), st);
  }

  lemma ReinitNests(p: Pair, single: bool, levelMode: bool, wantsIcw4: bool, st: Stacks)
    requires Wired(p) && BothNested(p, st)
    ensures BothNested(Reinit(p, Master, single, levelMode, wantsIcw4), st.(master := []))
  {
    var c := Reinitialised(p.master, single, levelMode, wantsIcw4);
    assert Nested(c, []);
    hide UpdatePending, Nested, Reinitialised;
    UpdateKeepsNested(p.(master := c, acks := 0), st.(master := []));
  }

  lemma SpecialMaskOffNests(p: Pair, side: Side, st: Stacks)
    requires BothNested(p, st)
    ensures BothNested(SetSpecialMask(p, side, false), st)
  {
    var c := p.Get(side);
    assert c.(specialMask := false) == c;
  }

  lemma ApplyNests(p: Pair, op: Op, st: Stacks)
    requires Coherent(p) && BothNested(p, st) && FullyNested(p, op)
    ensures BothNested(Apply(p, op), Track(p, op, st))
  {
    hide Nested, SetRequests, Shared, Interrupt, Command, Reinit, WriteOdd, EdgeLines;
    match op
    case Lines(num, raise) => LinesKeepNested(p, EdgeLines(p, num), raise, st);
    case SharedLines(num, raise, asserting) => SharedKeepsNested(p, num, raise, asserting, st);
    case Ack => AckNests(p, st);
    case Ocw2(side, _, specific, eoi, level) =>
      if specific { SpecificNests(p, side, eoi, level, st); } else { CommandNests(p, side, eoi, level, st); }
    case SpecialMask(side, on) => SpecialMaskOffNests(p, side, st);
    case Icw1(_, single, levelMode, wantsIcw4) => ReinitNests(p, single, levelMode, wantsIcw4, st);
    case Odd(side, v) => WritesKeepNested(p, side, v, st);
  }

  predicate RunFullyNested(p: Pair, ops: seq<Op>)
    requires Wired(p)
    decreases |ops|
  {
    ops != [] ==>
      && FullyNested(p, ops[0])
      && (ApplyKeepsWired(p, ops[0]);
          RunFullyNested(Apply(p, ops[0]), ops[1..]))
  }

  function RunStacks(p: Pair, ops: seq<Op>, st: Stacks): Stacks
    requires Wired(p) && RunFullyNested(p, ops)
    decreases |ops|
  {
    if ops == [] then st else
      ApplyKeepsWired(p, ops[0]);
      RunStacks(Apply(p, ops[0]), ops[1..], Track(p, ops[0], st))
  }

  lemma NestedRunHead(p: Pair, ops: seq<Op>)
    requires Wired(p) && ops != [] && RunFullyNested(p, ops)
    ensures FullyNested(p, ops[0]) && KeepsSlave(p, ops[0])
    ensures Wired(Apply(p, ops[0])) && RunFullyNested(Apply(p, ops[0]), ops[1..])
  {
    ApplyKeepsWired(p, ops[0]);
  }

  /** Fully nested mode is a stack over whole runs: on each chip the levels in service
      are exactly the open services, each of strictly higher priority than the one it
      interrupted, and a non-specific end of interrupt always means the latest. */
  lemma {:induction false} NestingIsAStack(p: Pair, ops: seq<Op>, st: Stacks)
    requires Coherent(p) && BothNested(p, st) && RunFullyNested(p, ops)
    ensures Run(p, ops).Some?
    ensures var q := Run(p, ops).value; var open := RunStacks(p, ops, st);
      && Coherent(q) && BothNested(q, open)
      && NonSpecific(q.master) == (if open.master == [] then None else Some(open.master[|open.master| - 1]))
      && NonSpecific(q.slave) == (if open.slave == [] then None else Some(open.slave[|open.slave| - 1]))
    decreases |ops|
  {
    hide Apply, Track, NonSpecific;
    if ops == [] {
      NonSpecificIsTop(p.master, st.master);
      NonSpecificIsTop(p.slave, st.slave);
    } else {
      NestedRunHead(p, ops);
      hide Coherent, BothNested, FullyNested, KeepsSlave;
      ApplyKeepsCoherent(p, ops[0]);
      ApplyNests(p, ops[0], st);
      NestingIsAStack(Apply(p, ops[0]), ops[1..], Track(p, ops[0], st));
    }
  }

  // ---- Rotation on the two chips ----

  /** A chip that rotates at the end of every interrupt: the handler ends it, or the chip
      itself does and is set to rotate then. */
  predicate Rotates(c: Chip) {
    c.isr == {} && !c.specialMask && (c.autoEoi ==> c.autoRotate && c.i86)
  }

  /** The pair is about to serve a line, with nothing in service on either chip. */
  ghost predicate MayServe(p: Pair) {
    && Coherent(p) && Cascaded(p) && p.master.pending && p.master.i86 && Rotates(p.master) && Rotates(p.slave)
  }

  /** A line served: the acknowledge, and rotate-on-non-specific-EOI on the chips that
      have it in service then, the slave first. */
  function Served(p: Pair): Pair
    requires Wired(p) && !MissingSlave(p)
  {
    var q := Interrupt(p).0;
    var r := if CurrentLine(p) < 8 || p.slave.autoEoi then q else Rotated(q, Slave);
    if p.master.autoEoi then r else Rotated(r, Master)
  }

  function Rotated(p: Pair, side: Side): Pair {
    Command(p, side, true, false, true, 0)
  }

  lemma RotatedEffect(p: Pair, side: Side, j: Level)
    requires p.Get(side).isr == {j} && !p.Get(side).specialMask
    ensures var q := Rotated(p, side); var other := if side == Master then Slave else Master;
      && q.Get(side).isr == {} && q.Get(side).priority == (j + 1) % 8
      && q.Get(other).isr == p.Get(other).isr && q.Get(other).priority == p.Get(other).priority
      && q.Get(other).specialMask == p.Get(other).specialMask
  {
    hide NonSpecific, Command;
    OneInService(p.Get(side), j);
    PlainCommand(p, side, true, true, 0);
    EndKeepsMasks(p, side, j);
    assert p.Get(side).isr - {j} == {};
  }

  lemma OneInService(c: Chip, j: Level)
    requires c.isr == {j} && !c.specialMask
    ensures NonSpecific(c) == Some(j)
  {
    NonSpecificFromMeans(c, 0);
    hide NonSpecificFrom;
    assert j in c.isr;
  }

  lemma EndKeepsMasks(p: Pair, side: Side, j: Level)
    requires NonSpecific(p.Get(side)) == Some(j)
    ensures var q := Rotated(p, side);
      q.master.specialMask == p.master.specialMask && q.slave.specialMask == p.slave.specialMask
  {
    hide NonSpecific, UpdatePending;
    UpdateEffect(p.Put(side, Ended(p.Get(side), j, true, true)));
  }

  /** What the acknowledge leaves. */
  lemma Acknowledging(p: Pair)
    requires MayServe(p)
    ensures Wired(p) && !MissingSlave(p)
    ensures var q := Interrupt(p).0; var i := CurrentLine(p);
      && Best(p.master) == Some(OwnLevel(i)) && (i >= 8 ==> Best(p.slave) == Some(i - 8))
      && !q.master.specialMask && !q.slave.specialMask
      && q.master.isr == (if p.master.autoEoi then {} else {OwnLevel(i)})
      && q.master.priority == (if p.master.autoEoi then (OwnLevel(i) + 1) % 8 else p.master.priority)
      && q.slave.isr == (if i >= 8 && !p.slave.autoEoi then {i - 8} else {})
      && q.slave.priority == if i >= 8 && p.slave.autoEoi then (i - 8 + 1) % 8 else p.slave.priority
  {
    hide Interrupt, Best, Bits, Stays;
    CascadedHasSlave(p);
    PendingAtTwo(p);
    InterruptOnRegisters(p);
    InterruptKeepsMasks(p);
  }

  lemma InterruptKeepsMasks(p: Pair)
    requires Coherent(p) && p.master.i86 && !MissingSlave(p)
    ensures var q := Interrupt(p).0;
      q.master.specialMask == p.master.specialMask && q.slave.specialMask == p.slave.specialMask
  {
    hide Frozen, AckLater, Thawed, Interrupt, Best, Done, MissingSlave;
    InterruptInTwo(p);
    FrozenEffect(p);
    LaterEffect(Frozen(p), 1);
    ThawedKeeps(AckLater(Frozen(p), 1));
  }

  /** Serving a line leaves nothing in service and makes its levels the lowest. */
  lemma RotatingService(p: Pair)
    requires MayServe(p)
    ensures var q := Served(p); var i := CurrentLine(p);
      && q.master.isr == {} && q.slave.isr == {}
      && Best(p.master) == Some(OwnLevel(i)) && q.master.priority == (OwnLevel(i) + 1) % 8
      && (if i < 8 then q.slave.priority == p.slave.priority
          else Best(p.slave) == Some(i - 8) && q.slave.priority == (i - 8 + 1) % 8)
  {
    hide Interrupt, Coherent, Cascaded, Best, Rotated, MissingSlave;
    Acknowledging(p);
    var q := Interrupt(p).0;
    var i := CurrentLine(p);
    if i >= 8 && !p.slave.autoEoi { RotatedEffect(q, Slave, i - 8); }
    var r := if i < 8 || p.slave.autoEoi then q else Rotated(q, Slave);
    if !p.master.autoEoi { RotatedEffect(r, Master, OwnLevel(i)); }
  }

  /** Service after service; in between, lines and masks may change freely. */
  ghost predicate ServiceRun(ps: seq<Pair>) {
    && (forall k :: 0 <= k < |ps| ==> MayServe(ps[k]))
    && (forall k :: 0 < k < |ps| ==> Follows(ps[k - 1], ps[k]))
  }

  ghost predicate Follows(p: Pair, q: Pair)
    requires MayServe(p)
  {
    q.master.priority == Served(p).master.priority && q.slave.priority == Served(p).slave.priority
  }

  /** The line is requested and not masked, at the cascade either, and its chip is initialised. */
  predicate Waiting(p: Pair, i: LineNo) {
    LineRequested(p, i) && (i >= 8 ==> p.slave.state == Ready)
  }

  /** How many services can come before a line's own. */
  function Waits(p: Pair, i: LineNo): (n: nat)
    ensures n <= if i < 8 then 7 else 63
  {
    if i < 8 then Dist(p.master.priority, i)
    else 8 * Dist(p.slave.priority, i - 8) + Dist(p.master.priority, 2)
  }

  /** Every other service brings a waiting line closer. */
  lemma ServiceMovesUp(p: Pair, q: Pair, waiting: LineNo)
    requires MayServe(p) && Waiting(p, waiting) && CurrentLine(p) != waiting && Follows(p, q)
    ensures Waits(q, waiting) < Waits(p, waiting)
  {
    hide Served, Best, Requested, Coherent, Cascaded, Dist;
    var i := CurrentLine(p);
    RotatingService(p);
    WaitingIsRequested(p, waiting);
    if OwnLevel(i) != OwnLevel(waiting) {
      RotationMovesUp(p.master, OwnLevel(i), OwnLevel(waiting));
    } else {
      RotationMovesUp(p.slave, i - 8, waiting - 8);
    }
  }

  lemma ReadyIfBest(c: Chip)
    requires Best(c).Some?
    ensures c.state == Ready
  {
    BestIsFirstDeliverable(c, Best(c).value);
  }

  lemma BestIfRequested(c: Chip, j: Level)
    requires c.isr == {} && c.state == Ready && j in Requested(c)
    ensures Best(c).Some?
  {
    BestIsFirstDeliverable(c, j);
    assert Deliverable(c, j);
  }

  lemma WaitingIsRequested(p: Pair, i: LineNo)
    requires MayServe(p) && Waiting(p, i)
    ensures p.master.state == Ready && OwnLevel(i) in Requested(p.master)
    ensures i >= 8 ==> i - 8 in Requested(p.slave)
  {
    hide Best;
    ReadyIfBest(p.master);
    if i >= 8 { BestIfRequested(p.slave, i - 8); }
  }

  /** A line that keeps waiting is served after at most 7 other services, or 63 if it is
      the slave's. */
  lemma {:induction false} EveryLineIsServed(ps: seq<Pair>, waiting: LineNo)
    requires ServiceRun(ps) && |ps| > 0
    requires forall k :: 0 <= k < |ps| ==> Waiting(ps[k], waiting) && CurrentLine(ps[k]) != waiting
    ensures |ps| <= Waits(ps[0], waiting)
    decreases |ps|
  {
    hide MayServe, Served, Waiting, Waits;
    if |ps| == 1 {
      MayServeIsWired(ps[0]);
      ServiceMovesUp(ps[0], Served(ps[0]), waiting);
    } else {
      var rest := ps[1..];
      assert forall k :: 0 < k < |rest| ==> rest[k] == ps[k + 1] && rest[k - 1] == ps[k];
      EveryLineIsServed(rest, waiting);
      ServiceMovesUp(ps[0], ps[1], waiting);
    }
  }

  lemma MayServeIsWired(p: Pair)
    requires MayServe(p)
    ensures Wired(p) && !MissingSlave(p)
  {
    CascadedHasSlave(p);
  }
}
