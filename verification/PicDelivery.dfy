/** Which of the fifteen lines an interrupt delivers. */
module PicDelivery {
  import opened Pic
  import opened PicPriority
  import opened PicLines
  import opened PicRuns

  // ---- The combined order of the fifteen lines ----

  function OwnLevel(i: LineNo): Level {
    if i < 8 then i else 2
  }

  predicate LineRequested(p: Pair, i: LineNo) {
    if i < 8 then i != 2 && i in Requested(p.master)
    else i - 8 in Requested(p.slave) && 2 !in p.master.imr
  }

  /** Something of the line's own or higher priority is in service; a service of the
      master's level 2 blocks the whole slave. */
  ghost predicate LineBlocked(p: Pair, i: LineNo) {
    || (exists k: Level :: k in p.master.isr && Dist(p.master.priority, k) <= Dist(p.master.priority, OwnLevel(i)))
    || (i >= 8 && exists k: Level :: k in p.slave.isr && Dist(p.slave.priority, k) <= Dist(p.slave.priority, i - 8))
  }

  ghost predicate LineDeliverable(p: Pair, i: LineNo) {
    p.master.state == Ready && (i >= 8 ==> p.slave.state == Ready) && LineRequested(p, i) && !LineBlocked(p, i)
  }

  /** The slave's eight lines stand together in the place of the master's level 2. */
  function Rank(p: Pair, i: LineNo): nat {
    8 * Dist(p.master.priority, OwnLevel(i)) + if i < 8 then 0 else Dist(p.slave.priority, i - 8)
  }

  ghost predicate IsFirstLine(p: Pair, i: LineNo) {
    LineDeliverable(p, i) && forall k: LineNo :: LineDeliverable(p, k) ==> Rank(p, i) <= Rank(p, k)
  }

  lemma FirstLineIsUnique(p: Pair, i: LineNo, k: LineNo)
    requires IsFirstLine(p, i) && IsFirstLine(p, k)
    ensures i == k
  {
    assert Rank(p, i) == Rank(p, k);
    DistIsInjective(p.master.priority, OwnLevel(i), OwnLevel(k));
    if i >= 8 && k >= 8 { DistIsInjective(p.slave.priority, i - 8, k - 8); }
  }

  lemma LineOnItsChip(p: Pair, i: LineNo)
    requires Coherent(p)
    ensures LineDeliverable(p, i) ==> Deliverable(p.master, OwnLevel(i))
    ensures LineDeliverable(p, i) && i >= 8 ==> Deliverable(p.slave, i - 8)
    ensures i < 8 && i != 2 && Deliverable(p.master, i) ==> LineDeliverable(p, i)
    ensures i >= 8 && Deliverable(p.slave, i - 8) && Deliverable(p.master, 2) ==> LineDeliverable(p, i)
  {
    if LineDeliverable(p, i) && i >= 8 {
      forall k: Level | k in p.slave.isr
        ensures Dist(p.slave.priority, i - 8) < Dist(p.slave.priority, k) {}
      assert Deliverable(p.slave, i - 8);
      BestIsFirstDeliverable(p.slave, i - 8);
    }
    forall k: Level | LineDeliverable(p, i) && k in p.master.isr
      ensures Dist(p.master.priority, OwnLevel(i)) < Dist(p.master.priority, k) {}
  }

  /** The line a pending pair is about to deliver. */
  function CurrentLine(p: Pair): LineNo {
    if p.master.current.level == 2 then 8 + p.slave.current.level else p.master.current.level
  }

  lemma CurrentIsFirstLine(p: Pair)
    requires Coherent(p) && p.master.pending
    ensures IsFirstLine(p, CurrentLine(p))
    ensures p.master.current.level == 2 ==> p.slave.pending
  {
    var m, s := p.master, p.slave;
    BestIsFirstDeliverable(m, m.current.level);
    BestIsFirstDeliverable(s, s.current.level);
    var c := CurrentLine(p);
    LineOnItsChip(p, c);
    forall k: LineNo | LineDeliverable(p, k) ensures Rank(p, c) <= Rank(p, k) {
      LineOnItsChip(p, k);
      hide LineDeliverable, Deliverable, Best;
      if OwnLevel(k) == OwnLevel(c) {
        DistIsInjective(m.priority, OwnLevel(k), OwnLevel(c));
      } else if Dist(m.priority, OwnLevel(k)) == Dist(m.priority, OwnLevel(c)) {
        DistIsInjective(m.priority, OwnLevel(k), OwnLevel(c));
      }
    }
  }

  /** After any recomputation, the processor is asked for an interrupt exactly when
      some line can be delivered. */
  lemma PendingIffDeliverable(p: Pair)
    requires Wired(p) && !p.master.current.frozen && p.slave.icw3 == 2
    ensures var q := UpdatePending(p); q.master.pending <==> exists i: LineNo :: LineDeliverable(q, i)
  {
    var p0 := p.(acks := 0);
    UpdateMakesCoherent(p0);
    var q, q0 := UpdatePending(p), UpdatePending(p0);
    assert q0 == q.(acks := 0);
    hide UpdatePending;
    forall i: LineNo
      ensures LineDeliverable(q, i) == LineDeliverable(q0, i)
    {
      assert LineBlocked(q, i) == LineBlocked(q0, i);
    }
    hide LineDeliverable;
    CoherentPending(q0);
  }

  lemma CoherentPending(q: Pair)
    requires Coherent(q) && (q.master.pending <==> Best(q.master).Some?)
    ensures q.master.pending <==> exists i: LineNo :: LineDeliverable(q, i)
  {
    if q.master.pending { CurrentIsFirstLine(q); }
    BestIsFirstDeliverable(q.master, 0);
    forall i: LineNo | LineDeliverable(q, i) ensures q.master.pending { LineOnItsChip(q, i); }
  }

  lemma PreparedMarksSlave(p: Pair)
    requires Coherent(p) && Cascaded(p) && p.master.pending
    ensures var slave := p.master.current.level == 2;
      && Prepared(p) == p.(master := p.master.(current := p.master.current.(fromSlave := slave)))
      && (SlaveOn(p.master) <==> slave)
  {
    CurrentIsFirstLine(p);
    hide Best, IsFirstLine;
  }

  lemma ThawedKeeps(p: Pair)
    ensures Thawed(p).master.isr == p.master.isr && Thawed(p).slave.isr == p.slave.isr
    ensures Thawed(p).master.priority == p.master.priority && Thawed(p).slave.priority == p.slave.priority
    ensures Thawed(p).master.specialMask == p.master.specialMask && Thawed(p).slave.specialMask == p.slave.specialMask
    ensures Thawed(p).master.autoRotate == p.master.autoRotate && Thawed(p).slave.autoRotate == p.slave.autoRotate
  {
    hide Best;
  }

  /** What a chip says when its level j is the one acknowledged. */
  function AnswerFor(c: Chip, j: Level): Answer {
    if c.i86 then Vector(j + c.icw2 / 8 * 8) else CallLow(j)
  }

  /** What an acknowledge does, with the master in 8086 mode: it delivers the first
      deliverable line, by its vector if that line's chip is in 8086 mode, and puts that
      line's level, and the cascade level with a slave's line, into service; a chip in
      8086 mode then ends it if it does so by itself. */
  lemma InterruptDelivers(p: Pair)
    requires Coherent(p) && Cascaded(p) && p.master.pending && p.master.i86
    ensures !MissingSlave(p)
    ensures var (q, answer) := Interrupt(p); var i := CurrentLine(p);
      && IsFirstLine(p, i)
      && answer == (if i < 8 then AnswerFor(p.master, i) else AnswerFor(p.slave, i - 8))
      && q.master.isr == Done(p.master.(isr := p.master.isr + {OwnLevel(i)}), 1).isr
      && q.slave.isr == if i >= 8 then Done(p.slave.(isr := p.slave.isr + {i - 8}), 1).isr else p.slave.isr
  {
    hide Prepared, AckCycle0, AckLater, IsFirstLine, Thawed, Done, Best, Frozen;
    CurrentIsFirstLine(p);
    CascadedHasSlave(p);
    InterruptInTwo(p);
    FrozenIs(p);
    var q := Frozen(p);
    LaterEffect(q, 1);
    ThawedKeeps(AckLater(q, 1));
    var i := CurrentLine(p);
    DoneReads(q.master, p.master.(isr := p.master.isr + {OwnLevel(i)}), 1);
    if i >= 8 { DoneReads(q.slave, p.slave.(isr := p.slave.isr + {i - 8}), 1); }
  }

  /** After the first cycle. */
  lemma FrozenIs(p: Pair)
    requires Coherent(p) && Cascaded(p) && p.master.pending
    ensures var q := Frozen(p); var i := CurrentLine(p);
      && Wired(q) && SameSetups(p.(acks := 1), q) && q.master.current.frozen
      && q.master.current.level == p.master.current.level && q.slave.current.level == p.slave.current.level
      && q.master.current.fromSlave == (i >= 8)
      && q.master.isr == p.master.isr + {OwnLevel(i)} && q.master.priority == p.master.priority
      && q.slave.isr == p.slave.isr + (if i >= 8 then {i - 8} else {}) && q.slave.priority == p.slave.priority
  {
    hide Prepared, AckCycle0, IsFirstLine, Best;
    FrozenEffect(p);
    CurrentIsFirstLine(p);
    PreparedMarksSlave(p);
    Cycle0Effect(Prepared(p));
  }

  lemma {:induction false} NonSpecificReads(c: Chip, d: Chip, i: nat)
    requires i <= 8 && c.isr == d.isr && c.imr == d.imr && c.priority == d.priority && c.specialMask == d.specialMask
    ensures NonSpecificFrom(c, i) == NonSpecificFrom(d, i)
    decreases 8 - i
  {
    if i < 8 { NonSpecificReads(c, d, i + 1); }
  }

  lemma EndedParts(c: Chip, irq: Level, rotate: bool)
    ensures Ended(c, irq, true, rotate).isr == c.isr - {irq}
    ensures Ended(c, irq, true, rotate).priority == if rotate then (irq + 1) % 8 else c.priority
  {
  }

  lemma AutoEndedReads(c: Chip, d: Chip)
    requires c.isr == d.isr && c.imr == d.imr && c.priority == d.priority && c.specialMask == d.specialMask
    requires c.autoEoi == d.autoEoi && c.autoRotate == d.autoRotate
    ensures AutoEnded(c).isr == AutoEnded(d).isr && AutoEnded(c).priority == AutoEnded(d).priority
  {
    hide NonSpecificFrom, Ended;
    NonSpecificReads(c, d, 0);
    if c.autoEoi && NonSpecific(c).Some? {
      EndedParts(c, NonSpecific(c).value, c.autoRotate);
      EndedParts(d, NonSpecific(c).value, c.autoRotate);
    }
  }

  lemma DoneReads(c: Chip, d: Chip, phase: nat)
    requires c.isr == d.isr && c.imr == d.imr && c.priority == d.priority && c.specialMask == d.specialMask
    requires c.autoEoi == d.autoEoi && c.autoRotate == d.autoRotate && c.i86 == d.i86
    ensures Done(c, phase).isr == Done(d, phase).isr && Done(c, phase).priority == Done(d, phase).priority
  {
    hide AutoEnded;
    AutoEndedReads(c.(pending := false), d.(pending := false));
  }
}
