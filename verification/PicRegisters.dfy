/** What acknowledges, commands, lines and initialisation words do to the registers. */
module PicRegisters {
  import opened Options
  import opened Pic
  import opened PicPriority
  import opened PicLines
  import opened PicRuns

  // ---- Acknowledging ----

  /** The master's selected level belongs to a slave. */
  predicate ByCascade(p: Pair) {
    !p.master.single && p.master.current.level in Bits(p.master.icw3)
  }

  /** The request at the level stays after it has been acknowledged: it is level-triggered,
      by its own bit where the chips have edge/level registers and otherwise by ICW1, and
      some source still asserts it. */
  predicate Stays(p: Pair, c: Chip, j: Level) {
    (if p.elcrOn then j in c.elcr else c.levelMode) && j < |c.lines| && c.lines[j] > 0
  }

  /** A level that the resolver has selected ends itself. */
  lemma SelectedEndsItself(c: Chip, j: Level)
    requires Best(c) == Some(j)
    ensures j !in c.isr && NonSpecific(c.(isr := c.isr + {j})) == Some(j)
  {
    BestIsFirstDeliverable(c, j);
    var d := c.(isr := c.isr + {j});
    NonSpecificFromMeans(d, 0);
    var e := NonSpecific(d);
    assert j in d.isr && j !in d.imr;
    assert e.Some?;
    DistIsInjective(c.priority, e.value, j);
  }

  /** One chip's part: c before the first cycle, d after it with level j in service. */
  lemma PartEnds(c: Chip, d: Chip, j: Level, phase: nat)
    requires Best(c) == Some(j)
    requires d == c.(irr := d.irr, isr := c.isr + {j}, current := d.current, pending := d.pending)
    ensures var e := Done(d, phase); var ends := c.autoEoi && (c.i86 || phase == 2);
      && e.isr == (if ends then c.isr else c.isr + {j})
      && e.priority == (if ends && c.autoRotate then (j + 1) % 8 else c.priority)
      && e.irr == d.irr
  {
    SelectedEndsItself(c, j);
    var b := d.(pending := false);
    SameEnd(c.(isr := c.isr + {j}), b, 0);
    assert c.isr + {j} - {j} == c.isr;
    hide NonSpecificFrom, Best;
  }

  lemma {:induction false} SameEnd(c: Chip, d: Chip, i: nat)
    requires i <= 8 && c.isr == d.isr && c.imr == d.imr && c.priority == d.priority && c.specialMask == d.specialMask
    ensures NonSpecificFrom(c, i) == NonSpecificFrom(d, i)
    decreases 8 - i
  {
    if i < 8 { SameEnd(c, d, i + 1); }
  }

  /** A chip with its level j in service and the request gone or kept. */
  function Taken(c: Chip, j: Level, stays: bool): Chip {
    c.(isr := c.isr + {j}, irr := if stays then c.irr else c.irr - {j})
  }

  lemma AcknowledgeTakes(p: Pair, side: Side)
    requires Wired(p)
    ensures var c := p.Get(side); var j := c.current.level;
      Acknowledge(p, side) == p.Put(side, Taken(c, j, Stays(p, c, j)))
  {
  }

  lemma PendingAtTwo(p: Pair)
    requires Coherent(p) && p.master.pending
    ensures Best(p.master) == Some(p.master.current.level)
    ensures p.master.current.level == 2 ==> p.slave.pending && Best(p.slave) == Some(p.slave.current.level)
  {
    BestIsFirstDeliverable(p.master, p.master.current.level);
  }

  lemma PreparedIs(p: Pair)
    requires Coherent(p) && p.master.pending && !MissingSlave(p)
    ensures Prepared(p) == p.(master := p.master.(current := p.master.current.(fromSlave := ByCascade(p))))
    ensures ByCascade(p) ==> p.master.current.level == 2 && p.slave.pending
  {
    PendingAtTwo(p);
    hide Best, Bits;
  }

  /** In any state of the pair, an acknowledge takes a request for the slave's if the slave
      has one and the master, in a cascade, has selected a level of its ICW3 that is neither
      idle nor already being acknowledged. */
  lemma MarksSlave(p: Pair)
    requires p.master.pending && p.slave.pending
    ensures var c := p.master.current;
      Prepared(p).master.current.fromSlave
        == (c.fromSlave || (!p.master.single && !c.idle && !c.frozen && c.level in Bits(p.master.icw3)))
    ensures Prepared(p).slave == p.slave
  {
    hide Bits;
  }

  /** A chip as the first cycle leaves it. */
  function FirstCycle(c: Chip, fromSlave: bool, stays: bool): Chip {
    Freeze(Taken(c.(current := c.current.(fromSlave := fromSlave)), c.current.level, stays))
  }

  lemma FrozenRegisters(p: Pair)
    requires Coherent(p) && p.master.pending && !MissingSlave(p)
    ensures var q := Frozen(p);
      && Wired(q)
      && q.master == FirstCycle(p.master, ByCascade(p), Stays(p, p.master, p.master.current.level))
      && q.slave == (if ByCascade(p)
                     then FirstCycle(p.slave, p.slave.current.fromSlave, Stays(p, p.slave, p.slave.current.level))
                     else p.slave)
  {
    hide Best, Bits, Prepared, Acknowledge;
    PreparedIs(p);
    FrozenEffect(p);
    var r := Prepared(p);
    var a := r.(master := Freeze(r.master));
    AcknowledgeTakes(a, Master);
    var b := Acknowledge(a, Master);
    AcknowledgeTakes(b.(slave := Freeze(b.slave)), Slave);
  }

  /** The registers that the later cycle decides. */
  lemma InterruptParts(p: Pair)
    requires Coherent(p) && p.master.pending && p.master.i86 && !MissingSlave(p)
    ensures var q, f := Interrupt(p).0, Frozen(p);
      var d := Done(f.master, 1);
      var e := if ByCascade(p) then Done(f.slave, 1) else p.slave;
      && q.master.isr == d.isr && q.master.priority == d.priority
      && (forall l: Level :: l != 2 ==> (l in q.master.irr <==> l in d.irr))
      && q.slave.isr == e.isr && q.slave.priority == e.priority && q.slave.irr == e.irr
  {
    FrozenRegisters(p);
    InterruptInTwo(p);
    var f := Frozen(p);
    FrozenLater(f, 1);
    DoneEffect(f.slave, 1);
    ThawKeepsRegisters(AckLater(f, 1));
    hide Frozen, AckLater, Best, Done, Thawed, Bits, Stays, Interrupt;
  }

  lemma MasterPart(p: Pair, phase: nat)
    requires Coherent(p) && p.master.pending && !MissingSlave(p)
    ensures var m := p.master; var j := m.current.level; var d := Done(Frozen(p).master, phase);
      var ends := m.autoEoi && (m.i86 || phase == 2);
      && d.isr == (if ends then m.isr else m.isr + {j})
      && d.priority == (if ends && m.autoRotate then (j + 1) % 8 else m.priority)
      && forall l: Level :: l in d.irr <==> l in m.irr && (l == j ==> Stays(p, m, j))
  {
    FrozenRegisters(p);
    PendingAtTwo(p);
    PartEnds(p.master, Frozen(p).master, p.master.current.level, phase);
    hide Frozen, Best, Done, Bits, Stays, Prepared, Coherent, SlaveOn;
  }

  lemma SlavePart(p: Pair, phase: nat)
    requires Coherent(p) && p.master.pending && !MissingSlave(p) && ByCascade(p)
    ensures var s := p.slave; var k := s.current.level; var e := Done(Frozen(p).slave, phase);
      var ends := s.autoEoi && (s.i86 || phase == 2);
      && e.isr == (if ends then s.isr else s.isr + {k})
      && e.priority == (if ends && s.autoRotate then (k + 1) % 8 else s.priority)
      && forall l: Level :: l in e.irr <==> l in s.irr && (l == k ==> Stays(p, s, k))
  {
    FrozenRegisters(p);
    PreparedIs(p);
    PendingAtTwo(p);
    PartEnds(p.slave, Frozen(p).slave, p.slave.current.level, phase);
    hide Frozen, Best, Done, Bits, Stays, Prepared, Coherent, SlaveOn;
  }

  /** The pair after an interrupt in 8086 mode. The selected level goes into service, and
      with the cascade the slave's selected level with it; a chip that ends interrupts by
      itself takes it out again, and makes it the lowest if it rotates then. A request is
      kept exactly if its line is level-triggered and still asserted; every other request
      and service stays as it is. */
  lemma InterruptOnRegisters(p: Pair)
    requires Coherent(p) && p.master.pending && p.master.i86 && !MissingSlave(p)
    ensures var q := Interrupt(p).0; var m, s := p.master, p.slave; var j, k := m.current.level, s.current.level;
      var ends := s.autoEoi && s.i86;
      && q.master.isr == (if m.autoEoi then m.isr else m.isr + {j})
      && q.master.priority == (if m.autoEoi && m.autoRotate then (j + 1) % 8 else m.priority)
      && (forall l: Level :: l != 2 ==> (l in q.master.irr <==> l in m.irr && (l == j ==> Stays(p, m, j))))
      && q.slave.isr == (if ByCascade(p) && !ends then s.isr + {k} else s.isr)
      && q.slave.priority == (if ByCascade(p) && ends && s.autoRotate then (k + 1) % 8 else s.priority)
      && (forall l: Level :: l in q.slave.irr <==> l in s.irr && (ByCascade(p) && l == k ==> Stays(p, s, k)))
  {
    hide Frozen, Interrupt, Best, Done, Bits, Stays, Prepared;
    InterruptParts(p);
    MasterPart(p, 1);
    if ByCascade(p) { SlavePart(p, 1); }
  }

  lemma ThawKeepsRegisters(p: Pair)
    requires p.slave.icw3 == 2
    ensures var q := Thawed(p);
      && q.master.isr == p.master.isr && q.master.priority == p.master.priority
      && q.slave.isr == p.slave.isr && q.slave.priority == p.slave.priority && q.slave.irr == p.slave.irr
      && forall l: Level :: l != 2 ==> (l in q.master.irr <==> l in p.master.irr)
  {
    hide UpdatePending;
    var s := if p.master.current.fromSlave then p.slave.(current := IDLE) else p.slave;
    UpdateEffect(p.(slave := s, master := p.master.(current := IDLE), acks := 0));
  }

  /** An acknowledge that nothing caused answers level 7 of the master and, without
      automatic end of interrupt, leaves it in service; the slave is not touched. */
  lemma SpuriousIsSeven(p: Pair)
    requires Coherent(p) && !p.master.pending && p.master.i86
    ensures var (q, answer) := Interrupt(p); var m := p.master;
      && answer == Vector(7 + m.icw2 / 8 * 8)
      && (!m.autoEoi ==> q.master.isr == m.isr + {7} && q.master.priority == m.priority)
      && q.slave.isr == p.slave.isr && q.slave.priority == p.slave.priority && q.slave.irr == p.slave.irr
  {
    InterruptInTwo(p);
    SpuriousFrozen(p);
    var f := Frozen(p);
    FrozenLater(f, 1);
    SpuriousEnds(p.master, f.master);
    ThawKeepsRegisters(AckLater(f, 1));
    hide Frozen, AckLater, Best, Thawed, Done, Interrupt;
  }

  lemma SpuriousEnds(c: Chip, d: Chip)
    requires d.autoEoi == c.autoEoi
    ensures !c.autoEoi ==> Done(d, 1).isr == d.isr && Done(d, 1).priority == d.priority
  {
  }

  lemma SpuriousFrozen(p: Pair)
    requires Coherent(p) && !p.master.pending
    ensures var q := Frozen(p);
      && Wired(q) && q.slave == p.slave && q.master.current == Current(7, false, true, false)
      && q.master.isr == p.master.isr + {7} && q.master.priority == p.master.priority
      && SameSetup(p.master, q.master)
  {
    FrozenEffect(p);
    var r := Prepared(p);
    assert r == p.(master := p.master.(pending := true, current := Current(7, false, false, false)));
    hide Best, Coherent, Prepared;
  }

  /** The pair after n cycles of an acknowledge, and what cycle n answers, counted from zero. */
  function CycledFrom(p: Pair, n: nat): (q: Pair)
    requires Wired(p)
    ensures Wired(q)
  {
    if n == 0 then p else
      StepKeepsWired(CycledFrom(p, n - 1));
      AckStep(CycledFrom(p, n - 1)).0
  }

  function Cycled(p: Pair, n: nat): (q: Pair)
    requires Wired(p)
    ensures Wired(q)
  {
    PreparedIsWired(p);
    CycledFrom(Prepared(p), n)
  }

  lemma PreparedIsWired(p: Pair)
    requires Wired(p)
    ensures Wired(Prepared(p))
  {
    PreparedKeeps(p);
    hide Prepared;
  }

  function Said(p: Pair, n: nat): Answer
    requires Wired(p)
  {
    AckStep(Cycled(p, n)).1
  }

  /** The error-correction branch: a slave that the master has selected but that has no
      request is given level 7 to answer, which does not go into service; the master's level
      does. */
  lemma RepairSelectsSeven(p: Pair)
    requires Wired(p) && p.master.pending && SlaveOn(p.master) && !p.slave.pending
    ensures var q := Frozen(p);
      && q.slave.pending && q.slave.current == Current(7, false, false, false) && q.slave.isr == p.slave.isr
      && q.master.isr == p.master.isr + {p.master.current.level} && !q.master.current.fromSlave
  {
    hide Bits;
  }

  /** Outside 8086 mode an acknowledge takes three cycles. They answer the opcode of a CALL,
      its low byte by the level, and its high byte; the chip whose line it is answers all
      three, unless it is a slave that is itself in 8086 mode, which answers nothing in
      particular and then its vector, twice. */
  lemma CallInThree(p: Pair)
    requires Coherent(p) && p.master.pending && !p.master.i86 && !MissingSlave(p)
    ensures var c := if ByCascade(p) then p.slave else p.master; var j := c.current.level;
      var vector := Vector(j + c.icw2 / 8 * 8);
      && Said(p, 0) == (if c.i86 then Filler else CallOpcode)
      && Said(p, 1) == (if c.i86 then vector else CallLow(j))
      && Said(p, 2) == (if c.i86 then vector else CallHigh(c.icw2))
  {
    hide AckStep, Best, Bits, Prepared, Frozen;
    PreparedIsWired(p);
    PreparedIs(p);
    var r, f := Prepared(p), Frozen(p);
    var c := if ByCascade(p) then p.slave else p.master;
    FirstOfThree(p);
    LaterOfThree(f);
    CycledOnce(r);
    CycledOnce(f);
    assert Cycled(p, 2) == AckStep(f).0;
    AnswersSame(c, Answering(r));
    AnswersSame(c, Answering(f));
    AnswersSame(c, Answering(AckStep(f).0));
  }

  lemma CycledOnce(p: Pair)
    requires Wired(p)
    ensures CycledFrom(p, 0) == p && CycledFrom(p, 1) == AckStep(p).0
  {
    hide AckStep;
  }

  /** What a chip answers depends on its mode, its vectors and its selected level alone. */
  predicate SameAnswers(c: Chip, d: Chip) {
    c.i86 == d.i86 && c.icw2 == d.icw2 && c.current.level == d.current.level
  }

  lemma AnswersSame(c: Chip, d: Chip)
    requires SameAnswers(c, d)
    ensures Says(d, 0) == (if c.i86 then Filler else CallOpcode)
    ensures Says(d, 1) == (if c.i86 then Vector(c.current.level + c.icw2 / 8 * 8) else CallLow(c.current.level))
    ensures Says(d, 2) == (if c.i86 then Vector(c.current.level + c.icw2 / 8 * 8) else CallHigh(c.icw2))
  {
  }

  lemma FirstOfThree(p: Pair)
    requires Coherent(p) && p.master.pending && !p.master.i86 && !MissingSlave(p)
    ensures var f := Frozen(p); var c := if ByCascade(p) then p.slave else p.master;
      && Wired(Prepared(p)) && AckStep(Prepared(p)) == (f, Says(Answering(Prepared(p)), 0))
      && Wired(f) && f.acks == 1 && !f.master.i86 && f.master.current.frozen
      && SameAnswers(c, Answering(Prepared(p))) && SameAnswers(c, Answering(f))
  {
    PreparedIs(p);
    FrozenRegisters(p);
    PreparedKeeps(p);
    hide Frozen, Best, Bits, Says, Stays;
    FrozenSteps(p);
  }

  lemma FrozenSteps(p: Pair)
    requires Wired(p) && p.acks == 0 && !p.master.i86
    ensures Wired(Prepared(p)) && AckStep(Prepared(p)) == (Frozen(p), Says(Answering(Prepared(p)), 0))
    ensures Frozen(p).acks == 1
  {
    PreparedKeeps(p);
    hide Prepared, AckCycle0, Says, Answering;
  }

  lemma LaterOfThree(f: Pair)
    requires Wired(f) && f.acks == 1 && !f.master.i86 && f.master.current.frozen
    ensures var (g, second) := AckStep(f);
      && Wired(g) && second == Says(Answering(f), 1) && AckStep(g).1 == Says(Answering(g), 2)
      && SameAnswers(Answering(f), Answering(g))
  {
    LaterEffect(f, 1);
    hide AckLater, Says, Done, Thawed;
    assert AckStep(f).0 == AckLater(f, 1).(acks := 2);
  }

  /** With both chips outside 8086 mode the selected levels are in service after two cycles,
      and it is the third that ends them, in the chips that end interrupts by themselves. */
  lemma CallOnRegisters(p: Pair)
    requires Coherent(p) && p.master.pending && !p.master.i86 && !p.slave.i86 && !MissingSlave(p)
    ensures var r, q := Cycled(p, 2), Cycled(p, 3); var m, s := p.master, p.slave;
      var j, k := m.current.level, s.current.level;
      && r.master.isr == m.isr + {j} && r.master.priority == m.priority
      && r.slave.isr == (if ByCascade(p) then s.isr + {k} else s.isr) && r.slave.priority == s.priority
      && q.master.isr == (if m.autoEoi then m.isr else m.isr + {j})
      && q.master.priority == (if m.autoEoi && m.autoRotate then (j + 1) % 8 else m.priority)
      && q.slave.isr == (if ByCascade(p) && !s.autoEoi then s.isr + {k} else s.isr)
      && q.slave.priority == (if ByCascade(p) && s.autoEoi && s.autoRotate then (k + 1) % 8 else s.priority)
  {
    hide Frozen, Best, Bits, Stays, Prepared, Thawed, Cycled, Done, AckLater;
    CallSteps(p);
    var f := Frozen(p);
    NotDone(f.master);
    NotDone(f.slave);
    MasterPart(p, 1);
    MasterPart(p, 2);
    if ByCascade(p) {
      SlavePart(p, 1);
      SlavePart(p, 2);
    } else {
      FrozenRegisters(p);
    }
    var r := f.(acks := 2);
    FrozenLater(r, 2);
    LaterEffect(r, 2);
    ThawKeepsRegisters(AckLater(r, 2));
  }

  lemma NotDone(c: Chip)
    requires !c.i86
    ensures Done(c, 1) == c
  {
  }

  lemma CallSteps(p: Pair)
    requires Coherent(p) && p.master.pending && !p.master.i86 && !p.slave.i86 && !MissingSlave(p)
    ensures var f := Frozen(p);
      && Wired(f) && f.master.current.frozen && !f.master.i86 && !f.slave.i86 && f.slave.icw3 == 2
      && f.master.current.fromSlave == ByCascade(p)
      && Cycled(p, 2) == f.(acks := 2) && Cycled(p, 3) == Thawed(AckLater(f.(acks := 2), 2))
  {
    hide Best, Bits, Stays, Prepared, Frozen, Thawed, AckLater, Done, Says;
    PreparedIsWired(p);
    FrozenSteps(p);
    FrozenEffect(p);
    FrozenRegisters(p);
    var r, f := Prepared(p), Frozen(p);
    FrozenLater(f, 1);
    NotDone(f.master);
    NotDone(f.slave);
    CycledOnce(r);
    assert AckStep(f).0 == f.(acks := 2);
    assert Cycled(p, 2) == f.(acks := 2);
    assert AckStep(f.(acks := 2)).0 == Thawed(AckLater(f.(acks := 2), 2));
  }

  /** A slave in 8086 mode under a master that is not ends interrupts by itself in the second
      cycle and in the third: it loses another service, unless all that it has open are
      hidden by special mask mode. */
  lemma MixedModesEndTwice(p: Pair)
    requires Coherent(p) && p.master.pending && !p.master.i86 && p.slave.i86 && p.slave.autoEoi
    requires !MissingSlave(p) && ByCascade(p)
    ensures var s, q := p.slave, Cycled(p, 3).slave;
      && (q.isr == s.isr <==> forall j: Level :: j in s.isr ==> s.specialMask && j in s.imr)
      && (q.isr == s.isr || exists j: Level :: j in s.isr && q.isr == s.isr - {j})
  {
    hide Frozen, Best, Bits, Stays, Prepared, Thawed, Cycled, Done, AckLater, NonSpecific, MissingSlave, ByCascade;
    MixedSteps(p);
    SlavePart(p, 1);
    var f := Frozen(p);
    var e := Done(f.slave, 1);
    DoneEffect(f.slave, 1);
    var r := f.(slave := e, acks := 2);
    FrozenLater(r, 2);
    LaterEffect(r, 2);
    ThawKeepsRegisters(AckLater(r, 2));
    EndsOnceMore(e);
  }

  lemma MixedSteps(p: Pair)
    requires Coherent(p) && p.master.pending && !p.master.i86 && !MissingSlave(p) && ByCascade(p)
    ensures var f := Frozen(p); var r := f.(slave := Done(f.slave, 1), acks := 2);
      && Wired(f) && Wired(r) && f.slave.icw3 == 2 && f.master.current.frozen && f.master.current.fromSlave
      && SameSetup(p.slave, f.slave) && r.slave.icw3 == 2
      && Cycled(p, 3) == Thawed(AckLater(r, 2))
  {
    hide Best, Bits, Stays, Prepared, Frozen, Thawed, AckLater, Done, Says, MissingSlave, ByCascade;
    PreparedIsWired(p);
    FrozenSteps(p);
    FrozenEffect(p);
    FrozenRegisters(p);
    var f := Frozen(p);
    FrozenLater(f, 1);
    DoneEffect(f.slave, 1);
    NotDone(f.master);
    CycledOnce(Prepared(p));
    var r := f.(slave := Done(f.slave, 1), acks := 2);
    assert AckStep(f).0 == r;
    assert Cycled(p, 2) == r;
    assert AckStep(r).0 == Thawed(AckLater(r, 2));
  }

  lemma EndsOnceMore(c: Chip)
    requires c.i86 && c.autoEoi
    ensures var d := Done(c, 2);
      && (d.isr == c.isr <==> forall j: Level :: j in c.isr ==> c.specialMask && j in c.imr)
      && (d.isr == c.isr || exists j: Level :: j in c.isr && d.isr == c.isr - {j})
  {
    var b := c.(pending := false);
    NonSpecificFromMeans(b, 0);
    hide NonSpecificFrom;
  }

  // ---- Commands ----

  /** Which level an end of interrupt without a level means, under special mask mode and
      without: it takes out of service the first one in rotated order, passing over masked
      ones exactly in that mode; if there is none, nothing. */
  lemma EndUnderMask(p: Pair, side: Side, on: bool, rotate: bool, level: Level)
    ensures var q := Command(SetSpecialMask(p, side, on), side, rotate, false, true, level);
      var c := p.Get(side); var open := if on then c.isr - c.imr else c.isr;
      if open == {} then q.Get(side).isr == c.isr && q.Get(side).priority == c.priority
      else exists j: Level :: j in open && q.Get(side).isr == c.isr - {j}
             && (forall k: Level :: k in open ==> Dist(c.priority, j) <= Dist(c.priority, k))
             && q.Get(side).priority == if rotate then (j + 1) % 8 else c.priority
  {
    var r := SetSpecialMask(p, side, on);
    var c, d := p.Get(side), r.Get(side);
    PlainCommand(r, side, rotate, true, level);
    NonSpecificFromMeans(d, 0);
    hide Command, NonSpecificFrom;
    var open := if on then c.isr - c.imr else c.isr;
    if open == {} {
      assert NonSpecific(d).None?;
    } else {
      var k :| k in open;
      assert k in d.isr && (!d.specialMask || k !in d.imr);
      assert NonSpecific(d).value in open;
    }
  }

  // ---- Lines ----

  /** The lines that picint reaches: not those that ICW3 gives to slaves, except that
      line 2 then stands for line 9; and only the master's if ICW3 names no slave. */
  predicate Reaches(m: Chip, num: set<LineNo>, i: LineNo) {
    && ((i in num && !(i < 8 && i in Bits(m.icw3))) || (i == 9 && 2 in num && 2 in Bits(m.icw3)))
    && (i >= 8 ==> Bits(m.icw3) != {})
  }

  /** Raising or lowering lines sets or clears just the request bits they reach. */
  lemma EdgeOnRegisters(p: Pair, num: set<LineNo>, raise: bool, i: LineNo)
    requires i < 8 ==> i !in BitOf(p.slave.icw3)
    ensures var q := Edge(p, num, raise); var reached := Reaches(p.master, num, i);
      && (i < 8 ==> (i in q.master.irr <==> if reached then raise else i in p.master.irr))
      && (i >= 8 ==> (i - 8 in q.slave.irr <==> if reached then raise else i - 8 in p.slave.irr))
  {
    hide UpdatePending, Bits;
    var lines := EdgeLines(p, num);
    EdgeReaches(p, num, i);
    UpdateEffect(WithRequests(p, lines, raise));
    if i >= 8 { assert SlaveLine(i - 8) == i; }
    hide EdgeLines, Reaches;
  }

  lemma EdgeReaches(p: Pair, num: set<LineNo>, i: LineNo)
    ensures i in EdgeLines(p, num) <==> Reaches(p.master, num, i)
  {
    hide Bits;
  }

  // ---- Initialisation ----

  /** The initialisation words after ICW1: ICW3 only with a cascade, ICW4 only if asked for. */
  function Words(single: bool, wantsIcw4: bool, icw2: nat, icw3: nat, icw4: nat): seq<nat> {
    [icw2] + (if single then [] else [icw3]) + if wantsIcw4 then [icw4] else []
  }

  function WriteAll(p: Pair, side: Side, words: seq<nat>): Pair
    decreases |words|
  {
    if words == [] then p else WriteAll(WriteOdd(p, side, words[0]), side, words[1..])
  }

  lemma OneWord(p: Pair, side: Side, v: nat)
    ensures WriteAll(p, side, [v]) == WriteOdd(p, side, v)
    ensures WriteAll(p, side, []) == p
  {
    assert [v][1..] == [];
  }

  lemma MoreWords(p: Pair, side: Side, v: nat, words: seq<nat>)
    ensures WriteAll(p, side, [v] + words) == WriteAll(WriteOdd(p, side, v), side, words)
  {
    assert ([v] + words)[1..] == words;
  }

  /** ICW1 and the words it asks for set a chip up: its vectors, its cascade, its mode;
      nothing masked, in service or special; and the next word is a mask. */
  lemma SetUpOnRegisters(p: Pair, side: Side, single: bool, levelMode: bool, wantsIcw4: bool,
                         icw2: nat, icw3: nat, icw4: nat, mask: nat)
    requires Wired(p)
    ensures var q := WriteAll(Reinit(p, side, single, levelMode, wantsIcw4), side,
                              Words(single, wantsIcw4, icw2, icw3, icw4));
      var c, was := q.Get(side), p.Get(side);
      && c.state == Ready && c.icw2 == icw2 && c.icw3 == (if single then 0 else icw3)
      && c.single == single && c.levelMode == levelMode
      && c.i86 == (wantsIcw4 && icw4 % 2 == 1) && c.autoEoi == (wantsIcw4 && icw4 / 2 % 2 == 1)
      && c.isr == {} && c.imr == {} && c.priority == 0 && !c.specialMask && !c.autoRotate && c.lines == was.lines
      && WriteOdd(q, side, mask).Get(side).imr == Bits(mask)
  {
    hide Reinit, Bits, UpdatePending, WriteAll, WriteOdd;
    var r := Reinit(p, side, single, levelMode, wantsIcw4);
    ReinitRegisters(p, side, single, levelMode, wantsIcw4);
    var r2 := WriteOdd(r, side, icw2);
    WordWritten(r, side, icw2);
    var r3 := if single then r2 else WriteOdd(r2, side, icw3);
    if !single { WordWritten(r2, side, icw3); }
    var r4 := if wantsIcw4 then WriteOdd(r3, side, icw4) else r3;
    if wantsIcw4 { WordWritten(r3, side, icw4); }
    var w3 := if single then [] else [icw3];
    var w4 := if wantsIcw4 then [icw4] else [];
    assert Words(single, wantsIcw4, icw2, icw3, icw4) == [icw2] + (w3 + w4);
    MoreWords(r, side, icw2, w3 + w4);
    if single { assert w3 + w4 == w4; } else { MoreWords(r2, side, icw3, w4); }
    OneWord(r3, side, icw4);
    MaskWritten(r4, side, mask);
  }

  lemma WordWritten(p: Pair, side: Side, v: nat)
    requires p.Get(side).state != Ready
    ensures WriteOdd(p, side, v).Get(side) == NextWord(p.Get(side), v)
  {
    hide UpdatePending, Bits;
  }

  lemma MaskWritten(p: Pair, side: Side, v: nat)
    requires p.Get(side).state == Ready
    ensures WriteOdd(p, side, v).Get(side).imr == Bits(v)
  {
    hide Bits, UpdatePending;
    UpdateEffect(p.Put(side, p.Get(side).(imr := Bits(v))));
  }

  /** A slave that is re-initialised while an acknowledge is under way has no request. */
  lemma ReinitInAcknowledge(p: Pair, single: bool, levelMode: bool, wantsIcw4: bool)
    requires Wired(p) && p.master.current.frozen
    ensures var q := Reinit(p, Slave, single, levelMode, wantsIcw4);
      !q.slave.pending && q.slave.current == IDLE && q.slave.irr == Asserted(p.slave.lines) && q.master == p.master
  {
    hide Asserted;
  }

  lemma ReinitRegisters(p: Pair, side: Side, single: bool, levelMode: bool, wantsIcw4: bool)
    requires Wired(p)
    ensures var c, was := Reinit(p, side, single, levelMode, wantsIcw4).Get(side), p.Get(side);
      && c.state == Icw2 && c.single == single && c.levelMode == levelMode && c.wantsIcw4 == wantsIcw4
      && (!wantsIcw4 ==> !c.i86 && !c.autoEoi) && c.icw2 == 0 && c.icw3 == 0
      && c.isr == {} && c.imr == {} && c.priority == 0 && !c.specialMask && !c.autoRotate && c.lines == was.lines
  {
    hide UpdatePending, Asserted;
    var q := p.Put(side, Reinitialised(p.Get(side), single, levelMode, wantsIcw4));
    UpdateEffect(if side == Master then q.(acks := 0) else q);
  }
}
