/** Level-triggered lines shared by several sources: the chips' counters and request
    bits never drift from what the sources assert. */
module PicSharing {
  import opened Options
  import opened Pic
  import opened PicPriority
  import opened PicLines
  import opened PicRuns

  /** A source attached to some lines, asserting them or not. */
  datatype Source = Source(lines: set<LineNo>, asserting: bool)

  /** With the usual cascade, line 2 leads to the slave's line 9. */
  predicate Attached(lines: set<LineNo>, i: LineNo) {
    (i != 2 && i in lines) || (i == 9 && 2 in lines)
  }

  /** How many sources assert line i. */
  function Count(sources: seq<Source>, i: LineNo): nat {
    if sources == [] then 0 else
      (if sources[0].asserting && Attached(sources[0].lines, i) then 1 else 0) + Count(sources[1..], i)
  }

  ghost predicate CountersMatch(p: Pair, sources: seq<Source>)
    requires Wired(p)
  {
    forall i: LineNo {:trigger Counter(p, i)} :: i != 2 ==> Counter(p, i) == Count(sources, i)
  }

  /** A level-triggered line is requested exactly while its counter is positive, but for
      some lines set apart: the cascade line among them. */
  ghost predicate RequestsMatch(p: Pair, apart: set<LineNo>)
    requires Wired(p)
  {
    forall i: LineNo {:trigger Asking(p, i)} ::
      i !in apart && IsLevel(p, i) ==> (Asking(p, i) <==> Counter(p, i) > 0)
  }

  /** The slave's own word for its level, which names the master's request that every
      recomputation overwrites, is one of the lines set apart. */
  ghost predicate Steady(p: Pair, apart: set<LineNo>) {
    Wired(p) && p.slave.icw3 in apart && RequestsMatch(p, apart)
  }

  lemma {:induction false} CountBounded(sources: seq<Source>, i: LineNo)
    ensures Count(sources, i) <= |sources|
  {
    if sources != [] { CountBounded(sources[1..], i); }
  }

  lemma {:induction false} CountChanges(sources: seq<Source>, k: nat, on: bool, i: LineNo)
    requires k < |sources|
    ensures var s := sources[k];
      Count(sources[k := s.(asserting := on)], i) ==
      Count(sources, i) + (if !Attached(s.lines, i) || s.asserting == on then 0 else if on then 1 else -1)
    ensures sources[k].asserting && Attached(sources[k].lines, i) ==> Count(sources, i) > 0
  {
    var t := sources[k := sources[k].(asserting := on)];
    if k > 0 {
      CountChanges(sources[1..], k - 1, on, i);
      assert t[1..] == sources[1..][k - 1 := sources[1..][k - 1].(asserting := on)];
    } else {
      assert t[1..] == sources[1..];
    }
  }

  lemma ReachIsAttached(p: Pair, lines: set<LineNo>, i: LineNo)
    requires Cascaded(p)
    ensures i in EdgeLines(p, lines) <==> Attached(lines, i)
    ensures EdgeLines(p, lines) == Translated(p.master, lines)
  {
    hide Bits;
  }

  lemma CounterAfter(p: Pair, reach: set<LineNo>, raise: bool, i: LineNo)
    requires Wired(p)
    ensures Wired(Counted(p, reach, raise))
    ensures Counter(Counted(p, reach, raise), i) ==
      if i in reach then StepCount(Counter(p, i), raise) else Counter(p, i)
  {
    hide StepCount;
    if i < 8 {
      assert LevelOf(i) == i && (i in reach <==> LevelOf(i) in MasterLines(reach));
    } else {
      assert LevelOf(i) == i - 8 && SlaveLine(LevelOf(i)) == i;
      assert i in reach <==> LevelOf(i) in SlaveLines(reach);
    }
  }

  lemma AskingAfter(p: Pair, num: set<LineNo>, raise: bool, i: LineNo)
    requires Wired(p) && i !in BitOf(p.slave.icw3)
    ensures var q := SetRequests(p, num, raise);
      Wired(q) && (Asking(q, i) <==> if i in num then raise else Asking(p, i))
      && Counter(q, i) == Counter(p, i) && IsLevel(q, i) == IsLevel(p, i)
  {
    hide UpdatePending;
    var w := WithRequests(p, num, raise);
    UpdateEffect(w);
    if i < 8 {
      assert LevelOf(i) == i && (LevelOf(i) in MasterLines(num) <==> i in num);
    } else {
      assert LevelOf(i) == i - 8 && SlaveLine(LevelOf(i)) == i;
      assert LevelOf(i) in SlaveLines(num) <==> i in num;
    }
  }

  /** A source that asserts or releases its lines keeps counters and requests right. */
  lemma SharedConserves(p: Pair, sources: seq<Source>, k: nat, raise: bool, apart: set<LineNo>)
    requires Steady(p, apart) && 2 in apart && Cascaded(p) && k < |sources| < WORD
    requires CountersMatch(p, sources)
    ensures var (q, on) := Shared(p, sources[k].lines, raise, sources[k].asserting);
      Steady(q, apart) && CountersMatch(q, sources[k := sources[k].(asserting := on)])
  {
    var s := sources[k];
    var (q, on) := Shared(p, s.lines, raise, s.asserting);
    SharedKeepsWired(p, s.lines, raise, s.asserting);
    SharedKeepsIcw3(p, s.lines, raise, s.asserting);
    hide Shared;
    forall i: LineNo | i != 2
      ensures Counter(q, i) == Count(sources[k := s.(asserting := on)], i)
      ensures i !in apart && IsLevel(q, i) ==> (Asking(q, i) <==> Counter(q, i) > 0)
    {
      SharedOnLine(p, sources, k, raise, i, apart);
    }
  }

  /** The counters after one source has changed. */
  function CountedFor(p: Pair, lines: set<LineNo>, raise: bool, changed: bool): Pair {
    if changed then Counted(p, EdgeLines(p, lines), raise) else p
  }

  lemma CountedOnLine(p: Pair, sources: seq<Source>, k: nat, raise: bool, i: LineNo)
    requires Wired(p) && Cascaded(p) && k < |sources| < WORD && i != 2
    requires CountersMatch(p, sources)
    ensures var s := sources[k]; var c := CountedFor(p, s.lines, raise, s.asserting != raise);
      && Wired(c) && c.slave.icw3 == p.slave.icw3
      && Counter(c, i) == Count(sources[k := s.(asserting := raise)], i)
      && Counter(c, i)
           == Counter(p, i) + (if !Attached(s.lines, i) || s.asserting == raise then 0 else if raise then 1 else -1)
      && IsLevel(c, i) == IsLevel(p, i) && Asking(c, i) == Asking(p, i)
  {
    hide Counter, EdgeLines, Attached, Count, Stepped, StepCount;
    var s := sources[k];
    ReachIsAttached(p, s.lines, i);
    CounterAfter(p, EdgeLines(p, s.lines), raise, i);
    CountChanges(sources, k, raise, i);
    CountBounded(sources[k := s.(asserting := raise)], i);
    assert Counter(p, i) == Count(sources, i);
    CountedKeepsBits(p, EdgeLines(p, s.lines), raise, i);
    hide Counted, IsLevel, Asking;
    StepInRange(Counter(p, i), raise);
    if Attached(s.lines, i) && s.asserting != raise {} else {}
  }

  lemma StepInRange(n: nat, raise: bool)
    ensures raise && n + 1 < WORD ==> StepCount(n, raise) == n + 1
    ensures !raise && 0 < n <= WORD ==> StepCount(n, raise) == n - 1
  {
  }

  lemma CountedKeepsBits(p: Pair, reach: set<LineNo>, raise: bool, i: LineNo)
    requires Wired(p)
    ensures var c := Counted(p, reach, raise);
      Wired(c) && c.slave.icw3 == p.slave.icw3 && IsLevel(c, i) == IsLevel(p, i) && Asking(c, i) == Asking(p, i)
  {
    hide Stepped;
  }

  lemma SharedOnLine(p: Pair, sources: seq<Source>, k: nat, raise: bool, i: LineNo, apart: set<LineNo>)
    requires Steady(p, apart) && Cascaded(p) && k < |sources| < WORD && i != 2
    requires CountersMatch(p, sources)
    ensures var (q, on) := Shared(p, sources[k].lines, raise, sources[k].asserting);
      && Wired(q) && Counter(q, i) == Count(sources[k := sources[k].(asserting := on)], i)
      && (i !in apart && IsLevel(q, i) ==> (Asking(q, i) <==> Counter(q, i) > 0))
  {
    var s := sources[k];
    assert i !in apart && IsLevel(p, i) ==> (Asking(p, i) <==> Counter(p, i) > 0);
    assert Counter(p, i) == Count(sources, i);
    hide Counter, IsLevel, Asking, Attached, Count, Cascaded, Counted, CountersMatch, RequestsMatch, Translated;
    if Translated(p.master, s.lines) == {} {
      assert sources[k := s.(asserting := s.asserting)] == sources;
    } else {
      CountedOnLine(p, sources, k, raise, i);
      var c := CountedFor(p, s.lines, raise, s.asserting != raise);
      var on := Effective(c, EdgeLines(p, s.lines), raise, s.asserting != raise);
      CountChanges(sources, k, raise, i);
      EffectiveOnLine(p, c, s.lines, raise, s.asserting != raise, i);
      hide EdgeLines, Effective, SetRequests;
      SetOnLine(c, on, raise, i);
    }
  }

  lemma SetOnLine(p: Pair, num: set<LineNo>, raise: bool, i: LineNo)
    requires Wired(p)
    ensures var q := if num == {} then p else SetRequests(p, num, raise);
      && Wired(q) && Counter(q, i) == Counter(p, i) && IsLevel(q, i) == IsLevel(p, i)
      && (i != p.slave.icw3 ==> (Asking(q, i) <==> if i in num then raise else Asking(p, i)))
  {
    hide SetRequests, Counter, IsLevel, Asking;
    RequestsKeepCounters(p, num, raise, i);
    if i != p.slave.icw3 { AskingAfter(p, num, raise, i); }
  }

  lemma EffectiveOnLine(p: Pair, c: Pair, lines: set<LineNo>, raise: bool, changed: bool, i: LineNo)
    requires Wired(c) && Cascaded(p)
    ensures i in Effective(c, EdgeLines(p, lines), raise, changed) <==>
      Attached(lines, i) && (!IsLevel(c, i) || (changed && Counter(c, i) == if raise then 1 else 0))
  {
    hide EdgeLines, Attached, Cascaded;
    ReachIsAttached(p, lines, i);
  }

  lemma SharedKeepsIcw3(p: Pair, num: set<LineNo>, raise: bool, asserting: bool)
    requires Wired(p)
    ensures Shared(p, num, raise, asserting).0.slave.icw3 == p.slave.icw3
  {
    hide UpdatePending, Effective, EdgeLines, Translated, Stepped;
    var q := if asserting != raise then Counted(p, EdgeLines(p, num), raise) else p;
    UpdateEffect(WithRequests(q, Effective(q, EdgeLines(p, num), raise, asserting != raise), raise));
  }

  lemma RequestsKeepCounters(p: Pair, num: set<LineNo>, raise: bool, i: LineNo)
    requires Wired(p)
    ensures var q := SetRequests(p, num, raise);
      Wired(q) && Counter(q, i) == Counter(p, i) && IsLevel(q, i) == IsLevel(p, i) && q.slave.icw3 == p.slave.icw3
  {
    hide UpdatePending;
    UpdateEffect(WithRequests(p, num, raise));
  }

  /** Recomputing, acknowledging, ending interrupts, and programming the master leave
      counters alone and requests right. */
  lemma UpdateKeepsRequests(p: Pair, apart: set<LineNo>)
    requires Steady(p, apart)
    ensures Wired(UpdatePending(p)) && RequestsMatch(UpdatePending(p), apart)
    ensures forall i: LineNo :: Counter(UpdatePending(p), i) == Counter(p, i)
  {
    hide UpdatePending;
    var q := UpdatePending(p);
    UpdateEffect(p);
    forall i: LineNo
      ensures i !in apart ==> Asking(q, i) == Asking(p, i)
      ensures IsLevel(q, i) == IsLevel(p, i) && Counter(q, i) == Counter(p, i)
    {
      assert i >= 8 || LevelOf(i) == i;
    }
  }

  /** An acknowledge clears a request only where nothing holds it up. */
  lemma AcknowledgeKeepsRequests(p: Pair, side: Side, apart: set<LineNo>)
    requires Wired(p) && RequestsMatch(p, apart)
    ensures Wired(Acknowledge(p, side)) && RequestsMatch(Acknowledge(p, side), apart)
  {
    var q := Acknowledge(p, side);
    forall i: LineNo | i !in apart && IsLevel(q, i) ensures Asking(q, i) <==> Counter(q, i) > 0 {
      assert Asking(p, i) <==> Counter(p, i) > 0;
    }
  }

  /** The parts of a pair that counters and requests depend on. */
  predicate SameLines(p: Pair, q: Pair) {
    && p.elcrOn == q.elcrOn
    && p.master.lines == q.master.lines && p.slave.lines == q.slave.lines
    && p.master.irr == q.master.irr && p.slave.irr == q.slave.irr
    && p.master.elcr == q.master.elcr && p.slave.elcr == q.slave.elcr
    && p.master.levelMode == q.master.levelMode && p.slave.levelMode == q.slave.levelMode
  }

  lemma SameLinesKeep(p: Pair, q: Pair, apart: set<LineNo>)
    requires Wired(p) && RequestsMatch(p, apart) && SameLines(p, q)
    ensures Wired(q) && RequestsMatch(q, apart)
    ensures forall i: LineNo :: Counter(q, i) == Counter(p, i)
  {
    forall i: LineNo ensures Asking(q, i) == Asking(p, i) && IsLevel(q, i) == IsLevel(p, i) {}
  }

  /** Counters are the same, and requests still match them. */
  ghost predicate Kept(p: Pair, q: Pair, apart: set<LineNo>)
    requires Wired(p)
  {
    Steady(q, apart) && forall i: LineNo :: Counter(q, i) == Counter(p, i)
  }

  lemma UpdateKeeps(p: Pair, apart: set<LineNo>)
    requires Steady(p, apart)
    ensures Kept(p, UpdatePending(p), apart)
  {
    hide UpdatePending, RequestsMatch;
    UpdateKeepsRequests(p, apart);
    UpdateEffect(p);
  }

  lemma SameLinesKept(p: Pair, q: Pair, apart: set<LineNo>)
    requires Wired(p) && RequestsMatch(p, apart) && SameLines(p, q) && q.slave.icw3 in apart
    ensures Kept(p, q, apart)
  {
    hide RequestsMatch;
    SameLinesKeep(p, q, apart);
  }

  lemma ActKeeps(p: Pair, side: Side, irq: Option<Level>, eoi: bool, rotate: bool, apart: set<LineNo>)
    requires Steady(p, apart)
    ensures Kept(p, Act(p, side, irq, eoi, rotate), apart)
  {
    hide UpdatePending, RequestsMatch;
    if irq.Some? {
      var q := p.Put(side, Ended(p.Get(side), irq.value, eoi, rotate));
      SameLinesKept(p, q, apart);
      UpdateKeeps(q, apart);
    } else {
      SameLinesKept(p, p, apart);
    }
  }

  lemma AutoEoiKeeps(p: Pair, side: Side, apart: set<LineNo>)
    requires Steady(p, apart)
    ensures Kept(p, AutoEoi(p, side), apart)
  {
    hide Act, RequestsMatch, NonSpecific;
    var c := p.Get(side);
    ActKeeps(p, side, NonSpecific(c), true, c.autoRotate, apart);
    SameLinesKept(p, p, apart);
  }

  lemma DroppedKeeps(p: Pair, side: Side, apart: set<LineNo>)
    requires Steady(p, apart)
    ensures Kept(p, p.Put(side, p.Get(side).(pending := false)), apart)
  {
    hide RequestsMatch;
    SameLinesKept(p, p.Put(side, p.Get(side).(pending := false)), apart);
  }

  lemma SlaveEndKeeps(p: Pair, apart: set<LineNo>)
    requires Steady(p, apart)
    ensures Kept(p, AutoEoi(p.(slave := p.slave.(pending := false)), Slave), apart)
  {
    hide AutoEoi, RequestsMatch;
    DroppedKeeps(p, Slave, apart);
    AutoEoiKeeps(p.(slave := p.slave.(pending := false)), Slave, apart);
  }

  lemma KeptTwice(p: Pair, q: Pair, r: Pair, apart: set<LineNo>)
    requires Wired(p) && Kept(p, q, apart) && Kept(q, r, apart)
    ensures Kept(p, r, apart)
  {
  }

  lemma LaterKeeps(p: Pair, phase: nat, apart: set<LineNo>)
    requires Steady(p, apart)
    ensures Kept(p, AckLater(p, phase), apart)
  {
    hide AutoEoi, RequestsMatch, Counter;
    var slave := p.master.current.fromSlave && Concludes(p.slave, phase);
    if Concludes(p.master, phase) {
      var q := p.(master := p.master.(pending := false));
      DroppedKeeps(p, Master, apart);
      SlaveEndKeeps(q, apart);
      var r := if slave then AutoEoi(q.(slave := q.slave.(pending := false)), Slave) else q;
      KeptTwice(p, q, r, apart);
      AutoEoiKeeps(r, Master, apart);
      KeptTwice(p, r, AutoEoi(r, Master), apart);
    } else if slave {
      SlaveEndKeeps(p, apart);
    } else {
      assert AckLater(p, phase) == p;
    }
  }

  lemma FreezeKeeps(p: Pair, side: Side, apart: set<LineNo>)
    requires Steady(p, apart)
    ensures Kept(p, p.Put(side, Freeze(p.Get(side))), apart)
  {
    hide RequestsMatch;
    SameLinesKept(p, p.Put(side, Freeze(p.Get(side))), apart);
  }

  lemma AcknowledgeKeeps(p: Pair, side: Side, apart: set<LineNo>)
    requires Steady(p, apart)
    ensures Kept(p, Acknowledge(p, side), apart)
  {
    hide RequestsMatch;
    AcknowledgeKeepsRequests(p, side, apart);
  }

  lemma Cycle0Keeps(p: Pair, apart: set<LineNo>)
    requires Steady(p, apart)
    ensures Kept(p, AckCycle0(p), apart)
  {
    hide RequestsMatch, Acknowledge, Freeze;
    FreezeKeeps(p, Master, apart);
    var a := p.(master := Freeze(p.master));
    AcknowledgeKeeps(a, Master, apart);
    var b := Acknowledge(a, Master);
    FreezeKeeps(b, Slave, apart);
    AcknowledgeKeeps(b.(slave := Freeze(b.slave)), Slave, apart);
  }

  lemma ThawKeeps(p: Pair, apart: set<LineNo>)
    requires Steady(p, apart)
    ensures Kept(p, Thawed(p), apart)
  {
    hide UpdatePending, RequestsMatch;
    var s := if p.master.current.fromSlave then p.slave.(current := IDLE) else p.slave;
    var q := p.(slave := s, master := p.master.(current := IDLE), acks := 0);
    SameLinesKept(p, q, apart);
    UpdateKeeps(q, apart);
  }

  lemma StepKeeps(p: Pair, apart: set<LineNo>)
    requires Steady(p, apart)
    ensures Kept(p, AckStep(p).0, apart)
  {
    hide AckCycle0, AckLater, Thawed, RequestsMatch;
    var q := if p.acks == 0 then AckCycle0(p) else AckLater(p, p.acks);
    if p.acks == 0 { Cycle0Keeps(p, apart); } else { LaterKeeps(p, p.acks, apart); }
    var n := (p.acks + 1) % Cycles(p.master);
    ThawKeeps(q, apart);
    SameLinesKept(q, q.(acks := n), apart);
  }

  /** An interrupt that is answered keeps counters and requests right, in any mode. */
  lemma InterruptKeepsRequests(p: Pair, apart: set<LineNo>)
    requires Steady(p, apart) && !MissingSlave(p)
    ensures Kept(p, Interrupt(p).0, apart)
  {
    hide AckStep, RequestsMatch;
    PreparedKeeps(p);
    var q := Prepared(p);
    hide Prepared;
    SameLinesKept(p, q, apart);
    StepKeeps(q, apart);
    StepKeeps(AckStep(q).0, apart);
  }

  lemma AssertedMatches(p: Pair, side: Side, c: Chip, apart: set<LineNo>)
    requires Wired(p) && RequestsMatch(p, apart) && c.lines == p.Get(side).lines && c.irr == Asserted(c.lines)
    ensures Wired(p.Put(side, c)) && RequestsMatch(p.Put(side, c), apart)
    ensures forall i: LineNo :: Counter(p.Put(side, c), i) == Counter(p, i)
  {
    var q := p.Put(side, c);
    forall i: LineNo | i !in apart && IsLevel(q, i) ensures Asking(q, i) <==> Counter(q, i) > 0 {
      if SideOf(i) != side { assert IsLevel(p, i) && (Asking(p, i) <==> Counter(p, i) > 0); }
    }
  }

  /** ICW1 takes the requests anew from the counters, whatever trigger mode it sets. On
      the slave it wipes the slave's own level to 0. */
  lemma ReinitKeepsRequests(p: Pair, side: Side, single: bool, levelMode: bool, wantsIcw4: bool, apart: set<LineNo>)
    requires Steady(p, apart) && (side == Slave ==> 0 in apart)
    ensures Kept(p, Reinit(p, side, single, levelMode, wantsIcw4), apart)
  {
    var c := Reinitialised(p.Get(side), single, levelMode, wantsIcw4);
    AssertedMatches(p, side, c, apart);
    hide Asserted, RequestsMatch, UpdatePending;
    var q := p.Put(side, c);
    SameLinesKept(q, q.(acks := 0), apart);
    UpdateKeeps(if side == Master then q.(acks := 0) else q, apart);
  }

  lemma SlaveReinitEffect(p: Pair, single: bool, levelMode: bool, wantsIcw4: bool)
    requires Wired(p) && !p.master.current.frozen
    ensures var q := Reinit(p, Slave, single, levelMode, wantsIcw4);
      && q.elcrOn == p.elcrOn && q.master.irr == p.master.irr - {0}
      && q.master.lines == p.master.lines && q.master.elcr == p.master.elcr && q.master.levelMode == p.master.levelMode
      && q.slave.irr == Asserted(p.slave.lines) && q.slave.lines == p.slave.lines
  {
    var c := Reinitialised(p.slave, single, levelMode, wantsIcw4);
    BestIsFirstDeliverable(c, 0);
    if Best(c).Some? { BestIsFirstDeliverable(c, Best(c).value); }
    hide Best;
  }

  /** On the slave it also clears the master's request 0 in passing: requests stay
      right exactly when line 0 is edge-triggered or nobody asserts it. */
  lemma SlaveReinitRequests(p: Pair, single: bool, levelMode: bool, wantsIcw4: bool)
    requires Wired(p) && !p.master.current.frozen && RequestsMatch(p, {2})
    ensures var q := Reinit(p, Slave, single, levelMode, wantsIcw4);
      && Wired(q) && (forall i: LineNo :: Counter(q, i) == Counter(p, i))
      && (RequestsMatch(q, {2}) <==> !(IsLevel(p, 0) && Counter(p, 0) > 0))
  {
    var q := Reinit(p, Slave, single, levelMode, wantsIcw4);
    SlaveReinitEffect(p, single, levelMode, wantsIcw4);
    hide Reinit;
    assert !Asking(q, 0) && IsLevel(q, 0) == IsLevel(p, 0) && Counter(q, 0) == Counter(p, 0);
    forall i: LineNo | i != 2 && i != 0
      ensures IsLevel(q, i) ==> (Asking(q, i) <==> Counter(q, i) > 0)
    {
      if i < 8 {
        assert LevelOf(i) == i && (Asking(q, i) <==> Asking(p, i)) && IsLevel(q, i) == IsLevel(p, i);
      }
    }
  }

  // ---- Before the master knows of its slave ----

  lemma OnlyMasterReached(p: Pair, lines: set<LineNo>)
    requires Bits(p.master.icw3) == {}
    ensures Translated(p.master, lines) == lines
    ensures forall i :: i in EdgeLines(p, lines) <==> i in lines && i < 8
  {
    hide Bits;
  }

  lemma MissedOnLine(p: Pair, sources: seq<Source>, k: nat, raise: bool, i: LineNo)
    requires Wired(p) && Bits(p.master.icw3) == {} && k < |sources| < WORD && i != 2
    requires CountersMatch(p, sources) && sources[k].asserting != raise && sources[k].lines != {}
    ensures var q := Shared(p, sources[k].lines, raise, sources[k].asserting).0;
      && Wired(q)
      && (Counter(q, i) == Count(sources[k := sources[k].(asserting := raise)], i)
          <==> !(i >= 8 && Attached(sources[k].lines, i)))
  {
    hide Count, Attached, Bits, Counted, StepCount, SetRequests, Effective, EdgeLines, Translated, Counter;
    var s := sources[k];
    OnlyMasterReached(p, s.lines);
    var reach := EdgeLines(p, s.lines);
    CounterAfter(p, reach, raise, i);
    SharedCounter(p, s.lines, raise, s.asserting, i);
    CountChanges(sources, k, raise, i);
    CountBounded(sources[k := s.(asserting := raise)], i);
    assert Counter(p, i) == Count(sources, i);
    StepInRange(Counter(p, i), raise);
    BelowIsAttached(s.lines, i);
  }

  lemma BelowIsAttached(lines: set<LineNo>, i: LineNo)
    ensures i < 8 && i != 2 ==> (Attached(lines, i) <==> i in lines)
  {
  }

  /** Recomputing moves no counter. */
  lemma SharedCounter(p: Pair, lines: set<LineNo>, raise: bool, asserting: bool, i: LineNo)
    requires Wired(p) && Translated(p.master, lines) != {} && asserting != raise
    ensures Wired(Counted(p, EdgeLines(p, lines), raise)) && Wired(Shared(p, lines, raise, asserting).0)
    ensures Counter(Shared(p, lines, raise, asserting).0, i) == Counter(Counted(p, EdgeLines(p, lines), raise), i)
  {
    hide UpdatePending, Effective, EdgeLines, Translated, Stepped;
    var q := Counted(p, EdgeLines(p, lines), raise);
    UpdateEffect(WithRequests(q, Effective(q, EdgeLines(p, lines), raise, true), raise));
  }

  /** While the master has not been told of its slave, a source that changes is recorded as
      changed, but its lines on the slave, and line 2, are not counted: the counters go on
      matching the sources if and only if it has no such line. */
  lemma UninitialisedMasterMissesSources(p: Pair, sources: seq<Source>, k: nat, raise: bool)
    requires Wired(p) && Bits(p.master.icw3) == {} && k < |sources| < WORD
    requires CountersMatch(p, sources) && sources[k].asserting != raise && sources[k].lines != {}
    ensures var s := sources[k]; var (q, on) := Shared(p, s.lines, raise, s.asserting);
      && on == raise && Wired(q)
      && (CountersMatch(q, sources[k := s.(asserting := raise)]) <==> forall i :: i in s.lines ==> i < 8 && i != 2)
  {
    hide Count, Bits, Counter, Counted, SetRequests, Effective, EdgeLines, Translated;
    var s := sources[k];
    var q := Shared(p, s.lines, raise, s.asserting).0;
    OnlyMasterReached(p, s.lines);
    SharedKeepsWired(p, s.lines, raise, s.asserting);
    var t := sources[k := s.(asserting := raise)];
    hide Shared, Attached;
    if i :| i in s.lines && !(i < 8 && i != 2) {
      var far: LineNo := if i == 2 then 9 else i;
      MissedOnLine(p, sources, k, raise, far);
      FarIsAttached(s.lines, i);
      assert Counter(q, far) != Count(t, far);
    } else {
      forall i: LineNo | i != 2
        ensures Counter(q, i) == Count(t, i)
      {
        MissedOnLine(p, sources, k, raise, i);
        NearIsNotAttached(s.lines, i);
      }
    }
  }

  lemma FarIsAttached(lines: set<LineNo>, i: LineNo)
    requires i in lines
    ensures Attached(lines, if i == 2 then 9 else i)
  {
  }

  lemma NearIsNotAttached(lines: set<LineNo>, i: LineNo)
    requires forall j :: j in lines ==> j < 8 && j != 2
    ensures i >= 8 ==> !Attached(lines, i)
  {
  }

  function ResetChip(icw3: nat): Chip {
    Chip({}, {}, {}, {}, [0, 0, 0, 0, 0, 0, 0, 0], 0, IDLE, false, Ready, false, false, false, 0, icw3, false, false,
         false, false)
  }

  /** So it happens after a reset: a source on line 9 asserts, and no counter knows. */
  lemma ResetPairMissesSource()
    ensures var p := Pair(ResetChip(0), ResetChip(0), false, 0); var sources := [Source({9}, false)];
      var (q, on) := Shared(p, {9}, true, false);
      && Wired(p) && CountersMatch(p, sources)
      && on && Wired(q) && Counter(q, 9) == 0 && Count([Source({9}, true)], 9) == 1
      && !CountersMatch(q, [Source({9}, true)])
  {
    var p := Pair(ResetChip(0), ResetChip(0), false, 0);
    var sources := [Source({9}, false)];
    assert Bits(0) == {};
    assert sources[0 := Source({9}, true)] == [Source({9}, true)];
    assert 9 in sources[0].lines && sources[1..] == [];
    assert forall i: LineNo :: Counter(p, i) == 0 && Count(sources, i) == 0;
    hide Bits, Shared;
    UninitialisedMasterMissesSources(p, sources, 0, true);
    OnlyMasterReached(p, {9});
    CounterAfter(p, EdgeLines(p, {9}), true, 9);
    SharedCounter(p, {9}, true, false, 9);
  }

  // ---- Runs ----

  datatype LineOp = Change(k: nat, raise: bool) | Chips(op: Op)

  /** Sources change only while the master is initialised; plain requests are for
      edge-triggered lines; the slave is told of no level but those set apart; and no
      acknowledge crashes. */
  ghost predicate Allowed(p: Pair, sources: seq<Source>, lineOp: LineOp, apart: set<LineNo>) {
    match lineOp
    case Change(k, _) => k < |sources| && Cascaded(p)
    case Chips(Lines(num, _)) => forall i :: i in EdgeLines(p, num) && i !in apart ==> !IsLevel(p, i)
    case Chips(SharedLines(_, _, _)) => false
    case Chips(Icw1(Slave, _, _, _)) => 0 in apart
    case Chips(Odd(Slave, v)) => p.slave.state == Icw3 ==> v in apart
    case Chips(op) => !Crashes(p, op)
  }

  function Next(p: Pair, sources: seq<Source>, lineOp: LineOp): (Pair, seq<Source>)
    requires Wired(p) && if lineOp.Change? then lineOp.k < |sources| else !Crashes(p, lineOp.op)
  {
    match lineOp
    case Change(k, raise) =>
      var (q, on) := Shared(p, sources[k].lines, raise, sources[k].asserting);
      (q, sources[k := sources[k].(asserting := on)])
    case Chips(op) => (Apply(p, op), sources)
  }

  ghost predicate Conserved(p: Pair, sources: seq<Source>, apart: set<LineNo>) {
    Steady(p, apart) && CountersMatch(p, sources)
  }

  lemma EdgeKeepsRequests(p: Pair, num: set<LineNo>, raise: bool, apart: set<LineNo>)
    requires Steady(p, apart)
    requires forall i :: i in num && i !in apart ==> !IsLevel(p, i)
    ensures Kept(p, SetRequests(p, num, raise), apart)
  {
    var q := SetRequests(p, num, raise);
    hide SetRequests;
    forall i: LineNo
      ensures Wired(q) && Counter(q, i) == Counter(p, i) && IsLevel(q, i) == IsLevel(p, i)
      ensures i !in apart ==> (Asking(q, i) <==> if i in num then raise else Asking(p, i))
      ensures q.slave.icw3 == p.slave.icw3
    {
      RequestsKeepCounters(p, num, raise, i);
      if i !in apart { AskingAfter(p, num, raise, i); }
    }
    hide IsLevel, Asking, Counter;
    assert RequestsMatch(q, apart);
  }

  lemma CommandKeepsRequests(p: Pair, side: Side, rotate: bool, specific: bool, eoi: bool, level: Level,
      apart: set<LineNo>)
    requires Steady(p, apart)
    ensures Kept(p, Command(p, side, rotate, specific, eoi, level), apart)
  {
    hide NonSpecific, Act, RequestsMatch;
    ActKeeps(p, side, if specific then Some(level) else NonSpecific(p.Get(side)), eoi, rotate, apart);
    SameLinesKept(p, p.Put(side, p.Get(side).(autoRotate := rotate)), apart);
  }

  lemma MaskKeeps(p: Pair, side: Side, imr: set<Level>, apart: set<LineNo>)
    requires Steady(p, apart)
    ensures Kept(p, WriteMask(p, side, imr), apart)
  {
    hide RequestsMatch, UpdatePending;
    var q := p.Put(side, p.Get(side).(imr := imr));
    SameLinesKept(p, q, apart);
    UpdateKeeps(q, apart);
  }

  lemma WritesKeepRequests(p: Pair, side: Side, v: nat, apart: set<LineNo>)
    requires Steady(p, apart) && (side == Slave && p.slave.state == Icw3 ==> v in apart)
    ensures Kept(p, WriteOdd(p, side, v), apart)
  {
    hide NextWord, Bits, RequestsMatch, WriteMask;
    if p.Get(side).state == Ready {
      MaskKeeps(p, side, Bits(v), apart);
    } else {
      NextWordKeeps(p.Get(side), v);
      NextWordNames(p.Get(side), v);
      SameLinesKept(p, p.Put(side, NextWord(p.Get(side), v)), apart);
    }
  }

  lemma NextWordNames(c: Chip, v: nat)
    ensures NextWord(c, v).icw3 == if c.state == Icw3 then v else c.icw3
  {
    match c.state
    case Icw2 =>
    case Icw3 =>
    case Icw4 =>
    case Ready =>
  }

  lemma ChipsKeepRequests(p: Pair, sources: seq<Source>, op: Op, apart: set<LineNo>)
    requires Steady(p, apart) && Allowed(p, sources, Chips(op), apart)
    ensures Kept(p, Apply(p, op), apart)
  {
    hide SetRequests, Interrupt, Command, Reinit, WriteOdd, EdgeLines, RequestsMatch, Counter;
    match op
    case Lines(num, raise) =>
      EdgeKeepsRequests(p, EdgeLines(p, num), raise, apart);
      SameLinesKept(p, p, apart);
    case Ack => InterruptKeepsRequests(p, apart);
    case Ocw2(side, rotate, specific, eoi, level) => CommandKeepsRequests(p, side, rotate, specific, eoi, level, apart);
    case SpecialMask(side, on) => SameLinesKept(p, p.Put(side, p.Get(side).(specialMask := on)), apart);
    case Icw1(side, single, levelMode, wantsIcw4) => ReinitKeepsRequests(p, side, single, levelMode, wantsIcw4, apart);
    case Odd(side, v) => WritesKeepRequests(p, side, v, apart);
  }

  lemma NextConserves(p: Pair, sources: seq<Source>, lineOp: LineOp, apart: set<LineNo>)
    requires Conserved(p, sources, apart) && 2 in apart && |sources| < WORD && Allowed(p, sources, lineOp, apart)
    ensures var (q, t) := Next(p, sources, lineOp); Conserved(q, t, apart) && |t| == |sources|
  {
    hide RequestsMatch, Shared, Apply;
    match lineOp
    case Change(k, raise) => SharedConserves(p, sources, k, raise, apart);
    case Chips(op) =>
      ChipsKeepRequests(p, sources, op, apart);
      assert forall i: LineNo :: i != 2 ==> Counter(p, i) == Count(sources, i);
  }

  ghost predicate RunAllowed(p: Pair, sources: seq<Source>, ops: seq<LineOp>, apart: set<LineNo>)
    requires Conserved(p, sources, apart) && 2 in apart && |sources| < WORD
    decreases |ops|
  {
    ops != [] ==>
      && Allowed(p, sources, ops[0], apart)
      && (NextConserves(p, sources, ops[0], apart);
          RunAllowed(Next(p, sources, ops[0]).0, Next(p, sources, ops[0]).1, ops[1..], apart))
  }

  ghost function RunLines(p: Pair, sources: seq<Source>, ops: seq<LineOp>, apart: set<LineNo>): (Pair, seq<Source>)
    requires Conserved(p, sources, apart) && 2 in apart && |sources| < WORD && RunAllowed(p, sources, ops, apart)
    decreases |ops|
  {
    if ops == [] then (p, sources) else
      NextConserves(p, sources, ops[0], apart);
      RunLines(Next(p, sources, ops[0]).0, Next(p, sources, ops[0]).1, ops[1..], apart)
  }

  // ---- On the registers themselves ----

  /** Line i is level-triggered: by its bit of the edge/level register where that is used,
      and by bit 3 of its chip's ICW1 otherwise. */
  predicate ByLevel(p: Pair, i: LineNo) {
    if p.elcrOn then if i < 8 then i in p.master.elcr else i - 8 in p.slave.elcr
    else if i < 8 then p.master.levelMode else p.slave.levelMode
  }

  predicate RequestOn(p: Pair, i: LineNo) {
    if i < 8 then i in p.master.irr else i - 8 in p.slave.irr
  }

  function Assertions(p: Pair, i: LineNo): nat
    requires Wired(p)
  {
    if i < 8 then p.master.lines[i] else p.slave.lines[i - 8]
  }

  lemma OnRegisters(p: Pair, i: LineNo)
    requires Wired(p)
    ensures IsLevel(p, i) == ByLevel(p, i) && Asking(p, i) == RequestOn(p, i) && Counter(p, i) == Assertions(p, i)
  {
    assert LevelOf(i) == if i < 8 then i else i - 8;
  }

  /** Shared lines are conserved over whole runs: every counter stays the number of
      attached sources that assert, and a level-triggered line is requested exactly
      while that number is positive. With nothing set apart but the cascade line, the
      slave is not re-initialised; with line 0 set apart as well, it may be at any time,
      and all other lines are conserved. */
  lemma {:induction false} SharedLinesAreConserved(p: Pair, sources: seq<Source>, ops: seq<LineOp>, apart: set<LineNo>)
    requires Conserved(p, sources, apart) && 2 in apart && |sources| < WORD && RunAllowed(p, sources, ops, apart)
    ensures var (q, t) := RunLines(p, sources, ops, apart);
      && Wired(q) && |t| == |sources|
      && (forall i: LineNo :: i != 2 ==> Assertions(q, i) == Count(t, i))
      && (forall i: LineNo :: i !in apart && ByLevel(q, i) ==> (RequestOn(q, i) <==> Count(t, i) > 0))
    decreases |ops|
  {
    if ops == [] {
      ConservedOnRegisters(p, sources, apart);
    } else {
      hide Conserved, Allowed, Next, Count, Assertions, ByLevel, RequestOn;
      NextConserves(p, sources, ops[0], apart);
      SharedLinesAreConserved(Next(p, sources, ops[0]).0, Next(p, sources, ops[0]).1, ops[1..], apart);
    }
  }

  lemma ConservedOnRegisters(p: Pair, sources: seq<Source>, apart: set<LineNo>)
    requires Conserved(p, sources, apart) && 2 in apart
    ensures forall i: LineNo :: i != 2 ==> Assertions(p, i) == Count(sources, i)
    ensures forall i: LineNo :: i !in apart && ByLevel(p, i) ==> (RequestOn(p, i) <==> Count(sources, i) > 0)
  {
    forall i: LineNo
      ensures i != 2 ==> Assertions(p, i) == Count(sources, i)
      ensures i !in apart && ByLevel(p, i) ==> (RequestOn(p, i) <==> Count(sources, i) > 0)
    {
      OnRegisters(p, i);
      hide IsLevel, ByLevel, Asking, RequestOn, Assertions, Count;
      assert Asking(p, i) == RequestOn(p, i);
      assert Counter(p, i) == Assertions(p, i);
    }
  }
}
