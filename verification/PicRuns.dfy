/** Runs of the two chips together: the cascade stays coherent. */
module PicRuns {
  import opened Options
  import opened Pic
  import opened PicPriority
  import opened PicLines

  /** Between operations: no acknowledge is under way, the slave's request is up to
      date and relayed to level 2, and a pending master really has its request. */
  ghost predicate Coherent(p: Pair) {
    && Wired(p) && p.slave.icw3 == 2 && p.acks == 0
    && !p.master.current.frozen && !p.master.current.fromSlave
    && !p.slave.current.frozen
    && (p.slave.pending <==> Best(p.slave).Some?)
    && (p.slave.pending ==> Best(p.slave) == Some(p.slave.current.level))
    && (p.master.pending ==> Best(p.master) == Some(p.master.current.level) && !p.master.current.idle)
    && (2 in p.master.irr <==> p.slave.pending)
  }

  /** The master expects one slave, on level 2. */
  predicate Cascaded(p: Pair) {
    !p.master.single && Bits(p.master.icw3) == {2}
  }

  lemma CascadedHasSlave(p: Pair)
    requires Cascaded(p)
    ensures !MissingSlave(p)
  {
    hide Bits;
  }

  /** The parts of a chip that selecting an interrupt depends on. */
  predicate SameInputs(c: Chip, d: Chip) {
    c.irr == d.irr && c.isr == d.isr && c.imr == d.imr && c.priority == d.priority && c.state == d.state
  }

  lemma {:induction false} BestReadsInputs(c: Chip, d: Chip, i: nat)
    requires SameInputs(c, d) && i <= 8
    ensures BestFrom(c, i) == BestFrom(d, i)
    decreases 8 - i
  {
    if i < 8 { BestReadsInputs(c, d, i + 1); }
  }

  /** Recomputing makes any pair coherent, whatever happened before. */
  lemma UpdateMakesCoherent(p: Pair)
    requires Wired(p) && !p.master.current.frozen && p.slave.icw3 == 2 && p.acks == 0
    ensures Coherent(UpdatePending(p))
    ensures UpdatePending(p).master.pending <==> Best(UpdatePending(p).master).Some?
  {
    var s := Refreshed(p.slave);
    var m := Relay(p.master, s);
    BestReadsInputs(p.slave, s, 0);
    BestReadsInputs(m, Refreshed(m), 0);
    hide Best;
  }

  /** What a recomputation may change, and the one request bit it sets. */
  lemma UpdateEffect(p: Pair)
    ensures var q := UpdatePending(p);
      && q.slave == p.slave.(current := q.slave.current, pending := q.slave.pending)
      && q.master == p.master.(irr := q.master.irr, current := q.master.current, pending := q.master.pending)
      && q.elcrOn == p.elcrOn && q.acks == p.acks
      && forall j: Level :: j !in BitOf(p.slave.icw3) ==> (j in q.master.irr <==> j in p.master.irr)
  {
    hide Best, Refreshed, Relay;
    if !p.master.current.frozen {
      var s := Refreshed(p.slave);
      var m := Relay(p.master, s);
      RefreshedEffect(p.slave);
      RelayEffect(p.master, s);
      RefreshedEffect(m);
      OnlyRequests(p.master, m, Refreshed(m));
      assert s.icw3 == p.slave.icw3;
      assert UpdatePending(p) == p.(slave := s, master := Refreshed(m));
    }
  }

  lemma OnlyRequests(m: Chip, r: Chip, d: Chip)
    requires r == m.(irr := r.irr) && d == r.(current := d.current, pending := d.pending)
    ensures d == m.(irr := d.irr, current := d.current, pending := d.pending) && d.irr == r.irr
  {
  }

  lemma RefreshedEffect(c: Chip)
    ensures Refreshed(c) == c.(current := Refreshed(c).current, pending := Refreshed(c).pending)
  {
    hide Best;
  }

  lemma RelayEffect(m: Chip, s: Chip)
    ensures Relay(m, s) == m.(irr := Relay(m, s).irr)
    ensures forall j: Level :: j !in BitOf(s.icw3) ==> (j in Relay(m, s).irr <==> j in m.irr)
  {
  }

  // ---- Runs ----

  datatype Op =
    | Lines(num: set<LineNo>, raise: bool)
    | SharedLines(num: set<LineNo>, raise: bool, asserting: bool)
    | Ack
    | Ocw2(side: Side, rotate: bool, specific: bool, eoi: bool, level: Level)
    | SpecialMask(side: Side, on: bool)
    | Icw1(side: Side, single: bool, levelMode: bool, wantsIcw4: bool)
    | Odd(side: Side, v: nat)

  /** Only an acknowledge can crash. */
  predicate Crashes(p: Pair, op: Op) {
    op.Ack? && MissingSlave(p)
  }

  function Apply(p: Pair, op: Op): Pair
    requires Wired(p) && !Crashes(p, op)
  {
    match op
    case Lines(num, raise) => Edge(p, num, raise)
    case SharedLines(num, raise, asserting) => Shared(p, num, raise, asserting).0
    case Ack => Interrupt(p).0
    case Ocw2(side, rotate, specific, eoi, level) => Command(p, side, rotate, specific, eoi, level)
    case SpecialMask(side, on) => SetSpecialMask(p, side, on)
    case Icw1(side, single, levelMode, wantsIcw4) => Reinit(p, side, single, levelMode, wantsIcw4)
    case Odd(side, v) => WriteOdd(p, side, v)
  }

  /** Everything but re-initialising the slave; acknowledges come in 8086 mode, where
      two cycles are enough, and not at a missing slave (see AcknowledgeIsWhole). */
  predicate KeepsSlave(p: Pair, op: Op) {
    match op
    case Ack => p.master.i86 && !MissingSlave(p)
    case Icw1(side, _, _, _) => side == Master
    case Odd(side, _) => side == Master || p.slave.state == Ready
    case _ => true
  }

  /** d is c but for what acknowledging and ending interrupts may change. */
  predicate SameSetup(c: Chip, d: Chip) {
    d == c.(irr := d.irr, isr := d.isr, priority := d.priority, current := d.current, pending := d.pending)
  }

  predicate SameSetups(p: Pair, q: Pair) {
    SameSetup(p.master, q.master) && SameSetup(p.slave, q.slave) && p.elcrOn == q.elcrOn && p.acks == q.acks
  }

  /** An automatic end of interrupt on a frozen pair changes one chip only. */
  function AutoEnded(c: Chip): Chip {
    if c.autoEoi && NonSpecific(c).Some? then Ended(c, NonSpecific(c).value, true, c.autoRotate) else c
  }

  /** A chip after its part in a later cycle. */
  function Done(c: Chip, phase: nat): Chip {
    if Concludes(c, phase) then AutoEnded(c.(pending := false)) else c
  }

  lemma FrozenAutoEoi(p: Pair, side: Side)
    requires p.master.current.frozen
    ensures AutoEoi(p, side) == p.Put(side, AutoEnded(p.Get(side)))
    ensures SameSetups(p, AutoEoi(p, side)) && AutoEoi(p, side).master.current == p.master.current
    ensures AutoEoi(p, side).slave.current == p.slave.current
  {
    hide NonSpecific;
  }

  lemma Cycle0Effect(p: Pair)
    requires Wired(p)
    ensures var q := AckCycle0(p);
      && SameSetups(p, q) && q.master.current == p.master.current.(frozen := true)
      && q.slave.current == (if p.master.current.fromSlave then p.slave.current.(frozen := true) else p.slave.current)
      && q.master.isr == p.master.isr + {p.master.current.level} && q.master.priority == p.master.priority
      && q.slave.isr == p.slave.isr + (if p.master.current.fromSlave then {p.slave.current.level} else {})
      && q.slave.priority == p.slave.priority
  {
  }

  lemma DoneEffect(c: Chip, phase: nat)
    ensures var d := Done(c, phase); SameSetup(c, d) && d.current == c.current
  {
    hide NonSpecific;
  }

  lemma FrozenLater(p: Pair, phase: nat)
    requires p.master.current.frozen
    ensures AckLater(p, phase) ==
      p.(master := Done(p.master, phase), slave := if p.master.current.fromSlave then Done(p.slave, phase) else p.slave)
  {
    hide AutoEoi, AutoEnded;
    var q := if Concludes(p.master, phase) then p.(master := p.master.(pending := false)) else p;
    var s := q.(slave := q.slave.(pending := false));
    var slave := p.master.current.fromSlave && Concludes(p.slave, phase);
    FrozenAutoEoi(s, Slave);
    var r := if slave then AutoEoi(s, Slave) else q;
    assert r == if slave then q.(slave := AutoEnded(s.slave)) else q;
    if Concludes(p.master, phase) { FrozenAutoEoi(r, Master); }
  }

  lemma LaterEffect(p: Pair, phase: nat)
    requires Wired(p) && p.master.current.frozen
    ensures var q := AckLater(p, phase); var fromSlave := p.master.current.fromSlave;
      && Wired(q) && SameSetups(p, q) && q.master.current == p.master.current && q.slave.current == p.slave.current
      && q.master.isr == Done(p.master, phase).isr && q.master.priority == Done(p.master, phase).priority
      && q.slave.isr == (if fromSlave then Done(p.slave, phase).isr else p.slave.isr)
      && q.slave.priority == (if fromSlave then Done(p.slave, phase).priority else p.slave.priority)
  {
    hide AckLater, Done;
    FrozenLater(p, phase);
    DoneEffect(p.master, phase);
    DoneEffect(p.slave, phase);
  }

  /** A chip with another request. */
  function Requesting(c: Chip, pending: bool, current: Current): Chip {
    c.(pending := pending, current := current)
  }

  lemma RequestingSame(c: Chip)
    ensures Requesting(c, c.pending, c.current) == c
  {
  }

  lemma PreparedKeeps(p: Pair)
    ensures var q := Prepared(p);
      && q.master == Requesting(p.master, q.master.pending, q.master.current)
      && q.slave == Requesting(p.slave, q.slave.pending, q.slave.current) && q.elcrOn == p.elcrOn && q.acks == p.acks
  {
    RequestingSame(p.master);
    RequestingSame(p.slave);
    hide SlaveOn;
    if !p.master.pending {
    } else if !SlaveOn(p.master) {
    } else if !p.slave.pending {
    } else {
    }
  }

  lemma SetupsCompose(p: Pair, q: Pair, r: Pair)
    requires SameSetups(p, q) && SameSetups(q, r)
    ensures SameSetups(p, r)
  {
  }

  /** The pair after the first cycle of an acknowledge. */
  function Frozen(p: Pair): Pair
    requires Wired(p)
  {
    AckCycle0(Prepared(p)).(acks := 1)
  }

  lemma FrozenEffect(p: Pair)
    requires Wired(p)
    ensures var q := Frozen(p);
      Wired(q) && SameSetups(p.(acks := 1), q) && q.master.current.frozen
  {
    PreparedKeeps(p);
    var r := Prepared(p);
    hide Prepared;
    Cycle0Effect(r);
    var q := AckCycle0(r);
    hide AckCycle0;
    SetupsCompose(p, r, q);
  }

  /** In 8086 mode an interrupt is two cycles and a thaw. */
  lemma InterruptInTwo(p: Pair)
    requires Wired(p) && p.acks == 0 && p.master.i86 && !MissingSlave(p)
    ensures var q := Frozen(p);
      Wired(q) && q.master.i86 && Interrupt(p) == (Thawed(AckLater(q, 1)), Says(Answering(q), 1))
  {
    FrozenEffect(p);
    PreparedKeeps(p);
    StepKeepsWired(Prepared(p));
    hide Prepared, AckCycle0, AckLater, Thawed, Says, Answering;
    assert AckStep(Prepared(p)).0 == Frozen(p);
  }

  /** Otherwise it stops after two of the three. */
  lemma InterruptOfThree(p: Pair)
    requires Wired(p) && p.acks == 0 && !p.master.i86 && !MissingSlave(p)
    ensures var q := Frozen(p);
      Wired(q) && !q.master.i86 && Interrupt(p) == (AckLater(q, 1).(acks := 2), Says(Answering(q), 1))
  {
    FrozenEffect(p);
    PreparedKeeps(p);
    StepKeepsWired(Prepared(p));
    hide Prepared, AckCycle0, AckLater, Thawed, Says, Answering;
    assert AckStep(Prepared(p)).0 == Frozen(p);
  }

  lemma CoherentThroughUpdate(p: Pair, q: Pair)
    requires Coherent(p) && Wired(q) && q.slave.icw3 == 2 && !q.master.current.frozen && q.acks == 0
    ensures Coherent(UpdatePending(q))
  {
    hide Coherent;
    UpdateMakesCoherent(q);
  }

  /** Only the master's initialisation words change a chip without recomputing, and a
      master that is not initialised has no request pending. */
  lemma BookkeepingKeepsCoherent(p: Pair, side: Side, c: Chip)
    requires Coherent(p) && |c.lines| == 8 && (side == Slave ==> c.icw3 == 2)
    requires var d := p.Get(side);
      c.irr == d.irr && c.isr == d.isr && c.imr == d.imr && c.priority == d.priority
      && c.current == d.current && c.pending == d.pending
      && (c.state == d.state || (side == Master && d.state != Ready))
    ensures Coherent(p.Put(side, c))
  {
    var d := p.Get(side);
    if c.state == d.state {
      BestReadsInputs(c, d, 0);
    } else {
      BestIsFirstDeliverable(d, 0);
      BestIsFirstDeliverable(d, d.current.level);
    }
    hide Best;
  }

  lemma RequestsKeepCoherent(p: Pair, q: Pair, num: set<LineNo>, raise: bool)
    requires Coherent(p) && Coherent(q)
    ensures Coherent(SetRequests(q, num, raise))
  {
    hide Best;
    UpdateMakesCoherent(WithRequests(q, num, raise));
  }

  lemma SharedKeepsCoherent(p: Pair, num: set<LineNo>, raise: bool, asserting: bool)
    requires Coherent(p)
    ensures Coherent(Shared(p, num, raise, asserting).0)
  {
    var reach := EdgeLines(p, num);
    var q := if asserting != raise then Counted(p, reach, raise) else p;
    BookkeepingKeepsCoherent(p, Master, q.master);
    BookkeepingKeepsCoherent(p.(master := q.master), Slave, q.slave);
    assert q == p.(master := q.master).(slave := q.slave);
    hide Coherent;
    RequestsKeepCoherent(p, q, Effective(q, reach, raise, asserting != raise), raise);
  }

  lemma CommandKeepsCoherent(p: Pair, side: Side, rotate: bool, specific: bool, eoi: bool, level: Level)
    requires Coherent(p)
    ensures Coherent(Command(p, side, rotate, specific, eoi, level))
  {
    if specific || eoi {
      var irq := if specific then Some(level) else NonSpecific(p.Get(side));
      hide Best, NonSpecific;
      if irq.Some? { UpdateMakesCoherent(p.Put(side, Ended(p.Get(side), irq.value, eoi, rotate))); }
    } else {
      BookkeepingKeepsCoherent(p, side, p.Get(side).(autoRotate := rotate));
    }
  }

  /** A specific command: the named level leaves service exactly if the EOI bit is set, and
      becomes the lowest exactly if the rotate bit is set; nothing else is ended or rotated. */
  lemma SpecificCommand(p: Pair, side: Side, rotate: bool, eoi: bool, level: Level)
    ensures var q := Command(p, side, rotate, true, eoi, level); var other := if side == Master then Slave else Master;
      && q.Get(side).isr == (if eoi then p.Get(side).isr - {level} else p.Get(side).isr)
      && q.Get(side).priority == (if rotate then (level + 1) % 8 else p.Get(side).priority)
      && (rotate ==> Dist(q.Get(side).priority, level) == 7)
      && q.Get(other).isr == p.Get(other).isr && q.Get(other).priority == p.Get(other).priority
      && q.Get(side).autoRotate == p.Get(side).autoRotate
  {
    hide UpdatePending;
    UpdateEffect(p.Put(side, Ended(p.Get(side), level, eoi, rotate)));
  }

  /** Any other command: an end of interrupt means the level in service that comes first,
      unless special mask mode hides it, and rotates to it if told to; without one the
      command only says whether the chip rotates when it ends an interrupt by itself. */
  lemma PlainCommand(p: Pair, side: Side, rotate: bool, eoi: bool, level: Level)
    ensures var q := Command(p, side, rotate, false, eoi, level); var other := if side == Master then Slave else Master;
      var c, d := p.Get(side), q.Get(side);
      && d.isr == (if eoi && NonSpecific(c).Some? then c.isr - {NonSpecific(c).value} else c.isr)
      && d.priority == (if eoi && rotate && NonSpecific(c).Some? then (NonSpecific(c).value + 1) % 8 else c.priority)
      && d.autoRotate == (if eoi then c.autoRotate else rotate)
      && q.Get(other).isr == p.Get(other).isr && q.Get(other).priority == p.Get(other).priority
  {
    hide UpdatePending, NonSpecific;
    var j := NonSpecific(p.Get(side));
    if j.Some? { UpdateEffect(p.Put(side, Ended(p.Get(side), j.value, eoi, rotate))); }
  }

  lemma NextWordKeeps(c: Chip, v: nat)
    ensures var d := NextWord(c, v);
      d == c.(icw2 := d.icw2, icw3 := d.icw3, i86 := d.i86, autoEoi := d.autoEoi, state := d.state)
  {
    match c.state
    case Icw2 =>
    case Icw3 =>
    case Icw4 =>
    case Ready =>
  }

  lemma OddKeepsCoherent(p: Pair, side: Side, v: nat)
    requires Coherent(p) && (side == Slave ==> p.slave.state == Ready)
    ensures Coherent(WriteOdd(p, side, v))
  {
    hide Best, Bits, UpdatePending, NextWord;
    if p.Get(side).state == Ready {
      var q := p.Put(side, p.Get(side).(imr := Bits(v)));
      assert Wired(q) && !q.master.current.frozen && q.slave.icw3 == 2;
      hide Coherent;
      UpdateMakesCoherent(q);
    } else {
      NextWordKeeps(p.Get(side), v);
      BookkeepingKeepsCoherent(p, side, NextWord(p.Get(side), v));
    }
  }

  lemma ThawMakesCoherent(p: Pair)
    requires Wired(p) && p.slave.icw3 == 2
    ensures Coherent(Thawed(p))
  {
    hide Coherent, UpdatePending;
    var s := if p.master.current.fromSlave then p.slave.(current := IDLE) else p.slave;
    UpdateMakesCoherent(p.(slave := s, master := p.master.(current := IDLE), acks := 0));
  }

  /** An interrupt comes back with a coherent pair if and only if the master is in 8086
      mode and has not selected a missing slave. In another mode the acknowledge is still
      under way and the pair stays frozen; one more cycle ends it. */
  lemma AcknowledgeIsWhole(p: Pair)
    requires Coherent(p)
    ensures var (q, reply) := Acknowledged(p);
      && Wired(q) && (reply.Crashed? <==> MissingSlave(p))
      && (reply.Answered? && Coherent(q) <==> p.master.i86 && !MissingSlave(p))
      && (reply.Answered? && !p.master.i86 ==> q.master.current.frozen && q.acks == 2 && Coherent(AckStep(q).0))
  {
    if !MissingSlave(p) { AnswerIsWhole(p); }
  }

  lemma AnswerIsWhole(p: Pair)
    requires Coherent(p) && !MissingSlave(p)
    ensures var q := Interrupt(p).0;
      && Wired(q) && (Coherent(q) <==> p.master.i86)
      && (!p.master.i86 ==> q.master.current.frozen && q.acks == 2 && Coherent(AckStep(q).0))
  {
    FrozenEffect(p);
    var q := Frozen(p);
    hide Frozen;
    LaterEffect(q, 1);
    var r := AckLater(q, 1);
    if p.master.i86 {
      InterruptInTwo(p);
      hide AckLater, Best, Interrupt;
      ThawMakesCoherent(r);
    } else {
      InterruptOfThree(p);
      var t := r.(acks := 2);
      LaterEffect(t, 2);
      hide AckLater, Best, Interrupt;
      ThawMakesCoherent(AckLater(t, 2));
      assert AckStep(t).0 == Thawed(AckLater(t, 2));
    }
  }

  lemma ApplyKeepsCoherent(p: Pair, op: Op)
    requires Coherent(p) && KeepsSlave(p, op)
    ensures Coherent(Apply(p, op))
  {
    match op
    case Ack => AnswerIsWhole(p);
    case Lines(num, raise) =>
      if EdgeLines(p, num) != {} { RequestsKeepCoherent(p, p, EdgeLines(p, num), raise); }
    case SharedLines(num, raise, asserting) => SharedKeepsCoherent(p, num, raise, asserting);
    case Ocw2(side, rotate, specific, eoi, level) =>
      CommandKeepsCoherent(p, side, rotate, specific, eoi, level);
    case SpecialMask(side, on) => BookkeepingKeepsCoherent(p, side, p.Get(side).(specialMask := on));
    case Icw1(side, single, levelMode, wantsIcw4) =>
      hide Best, Coherent;
      CoherentThroughUpdate(p, p.(master := Reinitialised(p.master, single, levelMode, wantsIcw4), acks := 0));
    case Odd(side, v) => OddKeepsCoherent(p, side, v);
  }

  predicate RunKeepsSlave(p: Pair, ops: seq<Op>)
    requires Wired(p)
    decreases |ops|
  {
    ops != [] ==>
      && KeepsSlave(p, ops[0])
      && (ApplyKeepsWired(p, ops[0]);
          RunKeepsSlave(Apply(p, ops[0]), ops[1..]))
  }

  lemma AckKeepsWired(p: Pair)
    requires Wired(p) && !MissingSlave(p)
    ensures Wired(Interrupt(p).0)
    ensures Interrupt(p).0.master.icw3 == p.master.icw3
  {
    PreparedKeeps(p);
    hide Prepared, AckStep;
    StepKeepsWired(Prepared(p));
    StepKeepsWired(AckStep(Prepared(p)).0);
  }

  lemma SharedKeepsWired(p: Pair, num: set<LineNo>, raise: bool, asserting: bool)
    requires Wired(p)
    ensures Wired(Shared(p, num, raise, asserting).0)
    ensures Shared(p, num, raise, asserting).0.master.icw3 == p.master.icw3
  {
    hide UpdatePending, Effective, EdgeLines, Translated;
    var q := if asserting != raise then Counted(p, EdgeLines(p, num), raise) else p;
    UpdateKeepsWired(WithRequests(q, Effective(q, EdgeLines(p, num), raise, asserting != raise), raise));
  }

  lemma EdgeKeepsWired(p: Pair, num: set<LineNo>, raise: bool)
    requires Wired(p)
    ensures Wired(Edge(p, num, raise))
    ensures Edge(p, num, raise).master.icw3 == p.master.icw3
  {
    hide UpdatePending, EdgeLines;
    UpdateKeepsWired(WithRequests(p, EdgeLines(p, num), raise));
  }

  lemma CommandKeepsWired(p: Pair, side: Side, rotate: bool, specific: bool, eoi: bool, level: Level)
    requires Wired(p)
    ensures Wired(Command(p, side, rotate, specific, eoi, level))
    ensures Command(p, side, rotate, specific, eoi, level).master.icw3 == p.master.icw3
  {
    hide UpdatePending, NonSpecific;
    var irq := if specific then Some(level) else NonSpecific(p.Get(side));
    if irq.Some? { UpdateKeepsWired(p.Put(side, Ended(p.Get(side), irq.value, eoi, rotate))); }
  }

  lemma WritesKeepWired(p: Pair, side: Side, v: nat)
    requires Wired(p)
    ensures Wired(WriteOdd(p, side, v))
  {
    hide UpdatePending, Bits, NextWord;
    NextWordKeeps(p.Get(side), v);
    UpdateKeepsWired(p.Put(side, p.Get(side).(imr := Bits(v))));
  }

  lemma ReinitKeepsWired(p: Pair, side: Side, single: bool, levelMode: bool, wantsIcw4: bool)
    requires Wired(p)
    ensures Wired(Reinit(p, side, single, levelMode, wantsIcw4))
  {
    hide UpdatePending, Asserted;
    var q := p.Put(side, Reinitialised(p.Get(side), single, levelMode, wantsIcw4));
    UpdateKeepsWired(if side == Master then q.(acks := 0) else q);
  }

  lemma ApplyKeepsWired(p: Pair, op: Op)
    requires Wired(p) && !Crashes(p, op)
    ensures Wired(Apply(p, op))
  {
    hide Edge, Shared, Interrupt, Command, Reinit, WriteOdd;
    match op
    case Lines(num, raise) => EdgeKeepsWired(p, num, raise);
    case SharedLines(num, raise, asserting) => SharedKeepsWired(p, num, raise, asserting);
    case Ack => AckKeepsWired(p);
    case Ocw2(side, rotate, specific, eoi, level) => CommandKeepsWired(p, side, rotate, specific, eoi, level);
    case SpecialMask(side, on) =>
    case Icw1(side, single, levelMode, wantsIcw4) => ReinitKeepsWired(p, side, single, levelMode, wantsIcw4);
    case Odd(side, v) => WritesKeepWired(p, side, v);
  }

  /** The pair after a run, unless an acknowledge crashes. */
  function Run(p: Pair, ops: seq<Op>): Option<Pair>
    requires Wired(p)
    decreases |ops|
  {
    if ops == [] then Some(p)
    else if Crashes(p, ops[0]) then None
    else
      ApplyKeepsWired(p, ops[0]);
      Run(Apply(p, ops[0]), ops[1..])
  }

  /** Cascade coherence over whole runs: as long as the slave is not re-initialised, a
      master that selects its cascade input has a slave with a request, so the branch
      that invents a level 7 on the slave is never taken. */
  lemma {:induction false} RepairIsUnreachable(p: Pair, ops: seq<Op>)
    requires Coherent(p) && RunKeepsSlave(p, ops)
    ensures Run(p, ops).Some?
    ensures var q := Run(p, ops).value;
      Coherent(q) && (q.master.pending && SlaveOn(q.master) && !MissingSlave(q) ==> q.slave.pending)
    decreases |ops|
  {
    if ops == [] {
      BestIsFirstDeliverable(p.master, p.master.current.level);
    } else {
      ApplyKeepsCoherent(p, ops[0]);
      RepairIsUnreachable(Apply(p, ops[0]), ops[1..]);
    }
  }
}
