/** Where the cascade fails: a slave that is missing, and a slave that is re-initialised. */
module PicCascade {
  import opened Options
  import opened Pic
  import opened PicPriority
  import opened PicLines
  import opened PicRuns
  import opened PicDelivery
  import opened PicSharing

  // ---- A missing slave ----

  function IdleChip(irr: set<Level>, icw3: nat): Chip {
    Chip(irr, {}, {}, {}, [0, 0, 0, 0, 0, 0, 0, 0], 0, IDLE, false, Ready, false, false, true, 8, icw3, true, false,
         false, false)
  }

  /** A coherent pair in 8086 mode whose interrupt crashes: line 3 asks, and the master
      was told that a slave is on it. */
  lemma CoherentPairCrashes()
    ensures var p := UpdatePending(Pair(IdleChip({3}, 8), IdleChip({}, 2), false, 0));
      Coherent(p) && p.master.i86 && MissingSlave(p) && Acknowledged(p) == (p, Crashed)
  {
    var p0 := Pair(IdleChip({3}, 8), IdleChip({}, 2), false, 0);
    UpdateMakesCoherent(p0);
    assert 3 in Bits(8);
    BestIsFirstDeliverable(p0.slave, 0);
    var p := UpdatePending(p0);
    assert p.master.irr == {3};
    assert Deliverable(p.master, 3);
    BestIsFirstDeliverable(p.master, 3);
    hide Best, Bits;
  }

  /** The words a guest may write to get there: the master is re-initialised for a slave
      on level 3, and line 3 asks in between. */
  function GuestWrites(): seq<Op> {
    [Icw1(Master, false, false, true), Lines({3}, true), Odd(Master, 8), Odd(Master, 8), Odd(Master, 1), Odd(Master, 0),
     Ack]
  }

  /** The master during those writes. */
  function GuestChip(irr: set<Level>, state: InitState, icw2: nat, icw3: nat): Chip {
    IdleChip(irr, icw3).(state := state, icw2 := icw2)
  }

  lemma UninitialisedIsIdle(m: Chip, s: Chip)
    requires m.state != Ready && s.icw3 == 2 && s.irr == {} && 2 !in m.irr
    requires s.current == IDLE && !s.pending && m.current == IDLE && !m.pending
    ensures UpdatePending(Pair(m, s, false, 0)) == Pair(m, s, false, 0)
  {
    BestIsFirstDeliverable(s, 0);
    if Best(s).Some? { BestIsFirstDeliverable(s, Best(s).value); }
    var r := Relay(m, Refreshed(s));
    assert m.irr - {2} == m.irr;
    assert r == m;
    if Best(m).Some? { BestIsFirstDeliverable(m, Best(m).value); }
    hide Best;
  }

  lemma GuestStarts(s: Chip)
    requires s == IdleChip({}, 2)
    ensures var p := Pair(IdleChip({}, 4), s, false, 0); var q := Pair(GuestChip({}, Icw2, 0, 0), s, false, 0);
      Wired(p) && Apply(p, Icw1(Master, false, false, true)) == q
  {
    UninitialisedIsIdle(GuestChip({}, Icw2, 0, 0), s);
    assert Asserted(s.lines) == {};
    hide UpdatePending;
  }

  lemma GuestAsks(s: Chip)
    requires s == IdleChip({}, 2)
    ensures var p := Pair(GuestChip({}, Icw2, 0, 0), s, false, 0);
      var q := Pair(GuestChip({3}, Icw2, 0, 0), s, false, 0);
      Wired(p) && Apply(p, Lines({3}, true)) == q
  {
    var p := Pair(GuestChip({}, Icw2, 0, 0), s, false, 0);
    assert Bits(0) == {};
    assert EdgeLines(p, {3}) == {3};
    assert MasterLines({3}) == {3} && SlaveLines({3}) == {};
    UninitialisedIsIdle(GuestChip({3}, Icw2, 0, 0), s);
    hide UpdatePending, EdgeLines, MasterLines, SlaveLines;
    assert WithRequests(p, {3}, true) == Pair(GuestChip({3}, Icw2, 0, 0), s, false, 0);
  }

  lemma GuestSetsUp(s: Chip)
    requires |s.lines| == 8
    ensures var p := Pair(GuestChip({3}, Icw2, 0, 0), s, false, 0);
      var q := Pair(GuestChip({3}, Icw3, 8, 0), s, false, 0);
      Wired(p) && Wired(q) && Apply(p, Odd(Master, 8)) == q
      && Apply(q, Odd(Master, 8)) == Pair(GuestChip({3}, Icw4, 8, 8), s, false, 0)
    ensures var p := Pair(GuestChip({3}, Icw4, 8, 8), s, false, 0);
      Apply(p, Odd(Master, 1)) == Pair(GuestChip({3}, Ready, 8, 8), s, false, 0)
  {
  }

  lemma GuestUnmasks()
    ensures var p := Pair(IdleChip({3}, 8), IdleChip({}, 2), false, 0);
      Wired(p) && MissingSlave(Apply(p, Odd(Master, 0)))
  {
    CoherentPairCrashes();
    assert Bits(0) == {};
    hide UpdatePending;
  }

  /** From a pair in its usual set-up, with nothing requested, those writes end in the
      crash. */
  lemma GuestCrashes()
    ensures var p := Pair(IdleChip({}, 4), IdleChip({}, 2), false, 0);
      Coherent(p) && Cascaded(p) && Run(p, GuestWrites()) == None
  {
    SetUpIsCoherent();
    var s := IdleChip({}, 2);
    GuestStarts(s);
    GuestAsks(s);
    GuestSetsUp(s);
    GuestUnmasks();
    hide Apply, Coherent, Cascaded, MissingSlave;
    GuestBooted();
    var ops := GuestWrites();
    assert ops[1..][1..][1..] == [Odd(Master, 8), Odd(Master, 1), Odd(Master, 0), Ack];
  }

  lemma GuestBooted()
    ensures var p := Pair(GuestChip({3}, Icw3, 8, 0), IdleChip({}, 2), false, 0);
      Wired(p) && Run(p, [Odd(Master, 8), Odd(Master, 1), Odd(Master, 0), Ack]) == None
  {
    GuestSetsUp(IdleChip({}, 2));
    GuestUnmasks();
    hide Apply, MissingSlave;
    var ops := [Odd(Master, 8), Odd(Master, 1), Odd(Master, 0), Ack];
    assert ops[1..] == [Odd(Master, 1), Odd(Master, 0), Ack];
    assert ops[1..][1..] == [Odd(Master, 0), Ack];
    assert ops[1..][1..][1..] == [Ack];
  }

  lemma SetUpIsCoherent()
    ensures var p := Pair(IdleChip({}, 4), IdleChip({}, 2), false, 0); Coherent(p) && Cascaded(p)
  {
    assert Bits(4) == {2};
    BestIsFirstDeliverable(IdleChip({}, 2), 0);
    hide Bits, BestFrom;
  }

  // ---- Slaves named on level 2 only never crash ----

  /** An initialisation word for the cascade names no level but 2. */
  predicate NamesLevelTwo(p: Pair, op: Op) {
    op.Odd? && op.side == Master && p.master.state == Icw3 ==> Bits(op.v) <= {2}
  }

  predicate RunNamesLevelTwo(p: Pair, ops: seq<Op>)
    requires Wired(p)
    decreases |ops|
  {
    ops != [] && !Crashes(p, ops[0]) ==>
      && NamesLevelTwo(p, ops[0])
      && (ApplyKeepsWired(p, ops[0]);
          RunNamesLevelTwo(Apply(p, ops[0]), ops[1..]))
  }

  lemma ReinitNames(p: Pair, side: Side, single: bool, levelMode: bool, wantsIcw4: bool)
    requires Wired(p)
    ensures var q := Reinit(p, side, single, levelMode, wantsIcw4);
      q.master.icw3 == if side == Master then 0 else p.master.icw3
  {
    hide UpdatePending, Asserted;
    var q := p.Put(side, Reinitialised(p.Get(side), single, levelMode, wantsIcw4));
    UpdateKeepsWired(if side == Master then q.(acks := 0) else q);
  }

  lemma OddNames(p: Pair, side: Side, v: nat)
    requires Wired(p)
    ensures var q := WriteOdd(p, side, v);
      q.master.icw3 == if side == Master && p.master.state == Icw3 then v else p.master.icw3
  {
    hide UpdatePending, Bits;
    if p.Get(side).state == Ready { UpdateKeepsWired(p.Put(side, p.Get(side).(imr := Bits(v)))); }
  }

  lemma ApplyKeepsLevelTwo(p: Pair, op: Op)
    requires Wired(p) && Bits(p.master.icw3) <= {2} && NamesLevelTwo(p, op) && !Crashes(p, op)
    ensures Bits(Apply(p, op).master.icw3) <= {2}
  {
    assert Bits(0) == {};
    hide Edge, Shared, Interrupt, Command, Reinit, WriteOdd, Bits, Wired, MissingSlave;
    match op
    case Lines(num, raise) => EdgeKeepsWired(p, num, raise);
    case SharedLines(num, raise, asserting) => SharedKeepsWired(p, num, raise, asserting);
    case Ack => AckKeepsWired(p);
    case Ocw2(side, rotate, specific, eoi, level) => CommandKeepsWired(p, side, rotate, specific, eoi, level);
    case SpecialMask(side, on) =>
    case Icw1(side, single, levelMode, wantsIcw4) => ReinitNames(p, side, single, levelMode, wantsIcw4);
    case Odd(side, v) => OddNames(p, side, v);
  }

  /** Any run at all is safe, from any pair, if the master is never told of a slave on
      another level than 2: whatever is requested, ended or re-initialised, and in every
      mode. */
  lemma {:induction false} LevelTwoIsSafe(p: Pair, ops: seq<Op>)
    requires Wired(p) && Bits(p.master.icw3) <= {2} && RunNamesLevelTwo(p, ops)
    ensures Run(p, ops).Some?
    decreases |ops|
  {
    if ops != [] {
      assert !MissingSlave(p);
      ApplyKeepsLevelTwo(p, ops[0]);
      ApplyKeepsWired(p, ops[0]);
      hide Bits, Apply, MissingSlave;
      LevelTwoIsSafe(Apply(p, ops[0]), ops[1..]);
    }
  }

  // ---- Re-initialising the slave ----

  /** ICW1 on the slave recomputes with the slave's identity already wiped: bit 0 of
      the master's requests is cleared in place of the cascade bit. So the master goes
      on to select a slave that has no request, reaching the branch that gives the slave
      a level 7, exactly when level 2 would win without level 0; and a pending request
      on level 0 is lost. */
  lemma SlaveReinitReachesRepair(p: Pair, single: bool, levelMode: bool, wantsIcw4: bool)
    requires Coherent(p) && Cascaded(p)
    ensures var q := Reinit(p, Slave, single, levelMode, wantsIcw4);
      && (q.master.pending && SlaveOn(q.master) && !q.slave.pending
          <==> Best(p.master.(irr := p.master.irr - {0})) == Some(2))
      && 0 !in q.master.irr && q.master.irr == p.master.irr - {0}
  {
    var c := Reinitialised(p.slave, single, levelMode, wantsIcw4);
    var s := Refreshed(c);
    BestIsFirstDeliverable(c, 0);
    if Best(c).Some? { BestIsFirstDeliverable(c, Best(c).value); }
    var m := p.master.(irr := p.master.irr - {0});
    BestReadsInputs(Relay(p.master, s), m, 0);
    assert Relay(p.master, s) == m;
    hide BestFrom, Bits;
  }

  /** Such a pair exists: one request on the slave and none on the master. */
  lemma SlaveReinitCanReachRepair()
    ensures var p := UpdatePending(Pair(IdleChip({}, 4), IdleChip({1}, 2), false, 0));
      var q := Reinit(p, Slave, false, false, true);
      Coherent(p) && Cascaded(p) && q.master.pending && SlaveOn(q.master) && !q.slave.pending
  {
    var p0 := Pair(IdleChip({}, 4), IdleChip({1}, 2), false, 0);
    UpdateMakesCoherent(p0);
    var p := UpdatePending(p0);
    assert Bits(4) == {2};
    assert Deliverable(p0.slave, 1);
    BestIsFirstDeliverable(p0.slave, 1);
    var m := p.master.(irr := p.master.irr - {0});
    assert p.master.irr == {2};
    assert Deliverable(m, 2);
    BestIsFirstDeliverable(m, 2);
    hide Best, Bits;
    SlaveReinitReachesRepair(p, false, false, true);
  }

  /** The repair does not mark the request as the slave's, so the processor gets the
      vector of the master's level 2, and the slave has nothing in service. At any other
      level there is no slave to repair. */
  lemma RepairDeliversMaster(p: Pair)
    requires Wired(p) && p.acks == 0 && p.master.i86
    requires p.master.pending && SlaveOn(p.master) && !p.slave.pending
    ensures var (q, reply) := Acknowledged(p);
      && (reply.Crashed? <==> p.master.current.level != 2)
      && (reply.Answered? ==> reply.answer == Vector(2 + p.master.icw2 / 8 * 8) && q.slave.isr == p.slave.isr)
  {
    hide Prepared, AckStep, Interrupt;
    if p.master.current.level == 2 { RepairAnswers(p); }
  }

  lemma RepairAnswers(p: Pair)
    requires Wired(p) && p.acks == 0 && p.master.i86
    requires p.master.pending && SlaveOn(p.master) && !p.slave.pending && !MissingSlave(p)
    ensures var (q, answer) := Interrupt(p);
      answer == Vector(p.master.current.level + p.master.icw2 / 8 * 8) && q.slave.isr == p.slave.isr
  {
    InterruptInTwo(p);
    FrozenEffect(p);
    RepairFreezes(p);
    var q := Frozen(p);
    hide Frozen, Prepared, AckCycle0, Done, SlaveOn;
    LaterEffect(q, 1);
    hide AckLater, Thawed, Interrupt;
    ThawedKeeps(AckLater(q, 1));
  }

  lemma RepairFreezes(p: Pair)
    requires Wired(p) && p.master.pending && SlaveOn(p.master) && !p.slave.pending
    ensures var q := Frozen(p);
      !q.master.current.fromSlave && q.master.current.level == p.master.current.level && q.slave.isr == p.slave.isr
  {
    Cycle0Effect(Prepared(p));
    hide AckCycle0, SlaveOn;
  }

  // ---- The whole set-up of the slave ----

  /** ICW1 to ICW4, the third naming the slave's level on the master, and the mask. */
  function SlaveWords(levelMode: bool, wantsIcw4: bool, icw2: nat, icw4: nat, mask: nat): seq<Op> {
    [Icw1(Slave, false, levelMode, wantsIcw4), Odd(Slave, icw2), Odd(Slave, 2)]
      + (if wantsIcw4 then [Odd(Slave, icw4)] else []) + [Odd(Slave, mask)]
  }

  /** The slave is being set up: the master's request 0 is gone, and everything else that
      counters and requests depend on is as it was. */
  ghost predicate SettingUp(p: Pair, q: Pair, state: InitState, wantsIcw4: bool)
    requires Wired(p)
  {
    && Kept(p, q, {0, 2}) && !Asking(q, 0) && IsLevel(q, 0) == IsLevel(p, 0)
    && !q.master.current.frozen && q.acks == p.acks
    && q.slave.state == state && !q.slave.single && q.slave.wantsIcw4 == wantsIcw4
    && (state != Icw2 && state != Icw3 ==> q.slave.icw3 == 2)
  }

  lemma SetsApart(p: Pair)
    requires Steady(p, {2})
    ensures Steady(p, {0, 2})
  {
  }

  lemma SetUpBegins(p: Pair, levelMode: bool, wantsIcw4: bool)
    requires Steady(p, {2}) && !p.master.current.frozen
    ensures SettingUp(p, Reinit(p, Slave, false, levelMode, wantsIcw4), Icw2, wantsIcw4)
  {
    SetsApart(p);
    ReinitKeepsRequests(p, Slave, false, levelMode, wantsIcw4, {0, 2});
    SlaveReinitEffect(p, false, levelMode, wantsIcw4);
    var c := Reinitialised(p.slave, false, levelMode, wantsIcw4);
    UpdateEffect(p.(slave := c));
    UpdateNotFrozen(p.(slave := c));
    hide UpdatePending, Asserted, RequestsMatch;
  }

  lemma UpdateNotFrozen(p: Pair)
    requires !p.master.current.frozen
    ensures !UpdatePending(p).master.current.frozen
  {
    hide Best;
  }

  lemma SetUpGoesOn(p: Pair, q: Pair, v: nat, wantsIcw4: bool)
    requires Wired(p) && q.slave.state != Ready && SettingUp(p, q, q.slave.state, wantsIcw4)
    requires q.slave.state == Icw3 ==> v == 2
    ensures SettingUp(p, WriteOdd(q, Slave, v), NextWord(q.slave, v).state, wantsIcw4)
  {
    var c := NextWord(q.slave, v);
    NextWordKeeps(q.slave, v);
    NextWordNames(q.slave, v);
    WritesKeepRequests(q, Slave, v, {0, 2});
    hide NextWord, RequestsMatch, Counter;
    assert q.slave.state == Icw2 || q.slave.state == Icw3 || q.slave.icw3 == 2;
  }

  lemma NextState(c: Chip, v: nat)
    ensures NextWord(c, v).state ==
      if c.state == Icw2 && !c.single then Icw3
      else if c.state == Icw4 || c.state == Ready || !c.wantsIcw4 then Ready
      else Icw4
  {
    match c.state
    case Icw2 =>
    case Icw3 =>
    case Icw4 =>
    case Ready =>
  }

  lemma SetUpEnds(p: Pair, q: Pair, mask: nat, wantsIcw4: bool)
    requires Wired(p) && SettingUp(p, q, Ready, wantsIcw4) && p.acks == 0
    ensures var r := WriteOdd(q, Slave, mask);
      && Kept(p, r, {0, 2}) && !Asking(r, 0) && IsLevel(r, 0) == IsLevel(p, 0) && Coherent(r) && r.slave.state == Ready
  {
    hide UpdatePending, Bits, RequestsMatch, Coherent, Counter;
    MaskKeeps(q, Slave, Bits(mask), {0, 2});
    var w := q.(slave := q.slave.(imr := Bits(mask)));
    UpdateEffect(w);
    UpdateMakesCoherent(w);
    assert 0 !in w.master.irr && 0 !in BitOf(w.slave.icw3);
  }

  /** Setting up the slave anew makes the pair coherent again and keeps all counters, and
      the requests of every line but 0. It keeps them all if and only if line 0 is
      edge-triggered or nobody asserts it. */
  lemma SlaveSetUpConserves(p: Pair, sources: seq<Source>, levelMode: bool, wantsIcw4: bool, icw2: nat, icw4: nat,
      mask: nat)
    requires Coherent(p) && Conserved(p, sources, {2})
    ensures var o := Run(p, SlaveWords(levelMode, wantsIcw4, icw2, icw4, mask));
      && o.Some? && Coherent(o.value) && o.value.slave.state == Ready && Conserved(o.value, sources, {0, 2})
      && !Asking(o.value, 0) && (Conserved(o.value, sources, {2}) <==> !(IsLevel(p, 0) && Counter(p, 0) > 0))
  {
    hide Steady, Coherent, RequestsMatch, UpdatePending, Conserved;
    CoherentParts(p, sources);
    var ops := SlaveWords(levelMode, wantsIcw4, icw2, icw4, mask);
    SetUpBegins(p, levelMode, wantsIcw4);
    var q1 := Reinit(p, Slave, false, levelMode, wantsIcw4);
    hide Reinit, SettingUp, NextWord, WriteOdd;
    SetUpRuns(p, q1, wantsIcw4, icw2, icw4, mask);
    assert ops[1..] == SlaveWords(false, wantsIcw4, icw2, icw4, mask)[1..];
    var r := Run(q1, ops[1..]).value;
    SetUpResult(p, r, sources);
  }

  lemma CoherentParts(p: Pair, sources: seq<Source>)
    requires Coherent(p) && Conserved(p, sources, {2})
    ensures Steady(p, {2}) && !p.master.current.frozen && p.acks == 0 && Wired(p)
  {
  }

  lemma RunWord(p: Pair, v: nat, rest: seq<Op>)
    requires Wired(p) && Wired(WriteOdd(p, Slave, v))
    ensures Run(p, [Odd(Slave, v)] + rest) == Run(WriteOdd(p, Slave, v), rest)
  {
    hide WriteOdd;
    assert ([Odd(Slave, v)] + rest)[1..] == rest;
  }

  /** What SlaveSetUpConserves needs of the pair at the end. */
  ghost predicate SetUp(p: Pair, o: Option<Pair>)
    requires Wired(p)
  {
    o.Some? && var r := o.value;
      && Kept(p, r, {0, 2}) && !Asking(r, 0) && IsLevel(r, 0) == IsLevel(p, 0) && Coherent(r) && r.slave.state == Ready
  }

  lemma MaskRuns(p: Pair, q: Pair, wantsIcw4: bool, mask: nat)
    requires Wired(p) && SettingUp(p, q, Ready, wantsIcw4) && p.acks == 0
    ensures Wired(q) && SetUp(p, Run(q, [Odd(Slave, mask)]))
  {
    SetUpEnds(p, q, mask, wantsIcw4);
    hide WriteOdd, RequestsMatch, Coherent;
    RunWord(q, mask, []);
    assert [Odd(Slave, mask)] + [] == [Odd(Slave, mask)];
  }

  lemma SetUpRuns(p: Pair, q: Pair, wantsIcw4: bool, icw2: nat, icw4: nat, mask: nat)
    requires Wired(p) && SettingUp(p, q, Icw2, wantsIcw4) && p.acks == 0
    ensures Wired(q) && SetUp(p, Run(q, SlaveWords(false, wantsIcw4, icw2, icw4, mask)[1..]))
  {
    hide Kept, Asking, IsLevel, Run, WriteOdd, NextWord, SetUp;
    NextState(q.slave, icw2);
    SetUpGoesOn(p, q, icw2, wantsIcw4);
    var q2 := WriteOdd(q, Slave, icw2);
    NextState(q2.slave, 2);
    SetUpGoesOn(p, q2, 2, wantsIcw4);
    var q3 := WriteOdd(q2, Slave, 2);
    KeptIsWired(p, q);
    KeptIsWired(p, q2);
    KeptIsWired(p, q3);
    var rest := (if wantsIcw4 then [Odd(Slave, icw4)] else []) + [Odd(Slave, mask)];
    RunWord(q, icw2, [Odd(Slave, 2)] + rest);
    RunWord(q2, 2, rest);
    assert SlaveWords(false, wantsIcw4, icw2, icw4, mask)[1..] == [Odd(Slave, icw2)] + ([Odd(Slave, 2)] + rest);
    if wantsIcw4 {
      NextState(q3.slave, icw4);
      SetUpGoesOn(p, q3, icw4, wantsIcw4);
      var q4 := WriteOdd(q3, Slave, icw4);
      KeptIsWired(p, q4);
      RunWord(q3, icw4, [Odd(Slave, mask)]);
      MaskRuns(p, q4, wantsIcw4, mask);
    } else {
      assert rest == [Odd(Slave, mask)];
      MaskRuns(p, q3, wantsIcw4, mask);
    }
  }

  lemma KeptIsWired(p: Pair, q: Pair)
    requires Wired(p) && Kept(p, q, {0, 2})
    ensures Wired(q)
  {
  }

  lemma SetUpResult(p: Pair, r: Pair, sources: seq<Source>)
    requires Conserved(p, sources, {2}) && Kept(p, r, {0, 2}) && Coherent(r)
    requires !Asking(r, 0) && IsLevel(r, 0) == IsLevel(p, 0)
    ensures Conserved(r, sources, {0, 2})
    ensures Conserved(r, sources, {2}) <==> !(IsLevel(p, 0) && Counter(p, 0) > 0)
  {
    hide IsLevel, Asking, Counter, Count;
    assert forall i: LineNo :: i != 2 ==> Counter(p, i) == Count(sources, i);
    if !(IsLevel(p, 0) && Counter(p, 0) > 0) {
      forall i: LineNo | i != 2 && IsLevel(r, i) ensures Asking(r, i) <==> Counter(r, i) > 0 {
        assert i == 0 || i !in {0, 2};
      }
    } else {
      assert Asking(r, 0) || !(Counter(r, 0) == 0);
    }
  }

  /** A coherent pair in level mode on which it loses a request: a source holds line 0. */
  lemma SlaveSetUpLosesRequest(wantsIcw4: bool, icw2: nat, icw4: nat, mask: nat)
    ensures var p := UpdatePending(HeldPair()); var sources := [Source({0}, true)];
      && Coherent(p) && Cascaded(p) && Conserved(p, sources, {2})
      && var o := Run(p, SlaveWords(false, wantsIcw4, icw2, icw4, mask));
         && o.Some? && Wired(o.value) && !Conserved(o.value, sources, {2})
         && !Asking(o.value, 0) && Counter(o.value, 0) == 1
  {
    HeldIsConserved();
    hide UpdatePending, Coherent, Cascaded, Run, RequestsMatch;
    var p := UpdatePending(HeldPair());
    var sources := [Source({0}, true)];
    SlaveSetUpConserves(p, sources, false, wantsIcw4, icw2, icw4, mask);
    var r := Run(p, SlaveWords(false, wantsIcw4, icw2, icw4, mask)).value;
    assert Counter(r, 0) == Count(sources, 0) == 1;
  }

  function HeldPair(): Pair {
    Pair(IdleChip({0}, 4).(levelMode := true, lines := [1, 0, 0, 0, 0, 0, 0, 0]), IdleChip({}, 2), false, 0)
  }

  lemma HeldIsConserved()
    ensures var p := UpdatePending(HeldPair()); var sources := [Source({0}, true)];
      Coherent(p) && Cascaded(p) && Conserved(p, sources, {2}) && IsLevel(p, 0) && Counter(p, 0) == 1
      && Count(sources, 0) == 1
  {
    var p := HeldPair();
    var sources := [Source({0}, true)];
    hide UpdatePending, Coherent;
    assert Bits(4) == {2};
    assert sources[1..] == [];
    assert Count(sources[1..], 0) == 0;
    forall i: LineNo | i != 2
      ensures Counter(p, i) == Count(sources, i) && (IsLevel(p, i) ==> (Asking(p, i) <==> Counter(p, i) > 0))
    {
      assert Counter(p, i) == (if i == 0 then 1 else 0) && (IsLevel(p, i) <==> i < 8) && (Asking(p, i) <==> i == 0);
    }
    UpdateKeeps(p, {2});
    UpdateMakesCoherent(p);
    UpdateEffect(p);
  }
}
