/** The two controllers as the emulator keeps them: records updated in place, scanned
    by loops over eight levels or sixteen lines. */
module PicChips {
  import opened Options
  import opened Pic
  import opened PicLines
  import opened PicRuns

  class PicChip {
    var irr: set<Level>
    var isr: set<Level>
    var imr: set<Level>
    var elcr: set<Level>
    var lines: seq<nat>
    var priority: Level
    var current: Current
    var pending: bool
    var state: InitState
    var single: bool
    var levelMode: bool
    var wantsIcw4: bool
    var icw2: nat
    var icw3: nat
    var i86: bool
    var autoEoi: bool
    var autoRotate: bool
    var specialMask: bool

    constructor ()
      ensures State() == Chip({}, {}, {}, {}, [0, 0, 0, 0, 0, 0, 0, 0], 0, IDLE, false, Ready, false, false, false,
                              0, 0, false, false, false, false)
    {
      irr, isr, imr, elcr := {}, {}, {}, {};
      lines := [0, 0, 0, 0, 0, 0, 0, 0];
      priority, current, pending, state := 0, IDLE, false, Ready;
      single, levelMode, wantsIcw4, icw2, icw3 := false, false, false, 0, 0;
      i86, autoEoi, autoRotate, specialMask := false, false, false, false;
    }

    function State(): Chip
      reads this
    {
      Chip(irr, isr, imr, elcr, lines, priority, current, pending, state, single, levelMode, wantsIcw4, icw2, icw3, i86,
           autoEoi, autoRotate, specialMask)
    }

    /** find_best_interrupt: whether there is one, which becomes the current one. */
    method FindBest() returns (found: bool)
      modifies `current
      ensures found <==> Best(old(State())).Some?
      ensures State() == old(State()).(current := Selected(Best(old(State()))))
    {
      ghost var c := State();
      var best := None;
      var i := 0;
      while i < 8
        invariant 0 <= i <= 8 && best == None && BestFrom(c, 0) == BestFrom(c, i)
      {
        var j := At(priority, i);
        if j in isr {
          break;
        } else if state == Ready && j in irr - imr {
          best := Some(j);
          break;
        }
        i := i + 1;
      }
      current := if best.None? then IDLE else Current(best.value, false, false, false);
      found := best.Some?;
    }

    method Restart(single: bool, levelMode: bool, wantsIcw4: bool)
      requires |lines| == 8
      modifies this
      ensures State() == Reinitialised(old(State()), single, levelMode, wantsIcw4)
    {
      hide Asserted, Reinitialised;
      ghost var c := State();
      ReinitialisedParts(c, single, levelMode, wantsIcw4);
      var asserted := AssertedLevels();
      SetUp(single, levelMode, wantsIcw4);
      ClearRegisters(asserted);
    }

    method SetUp(single: bool, levelMode: bool, wantsIcw4: bool)
      modifies `single, `levelMode, `wantsIcw4, `icw2, `icw3, `i86, `autoEoi, `state
      ensures this.single == single && this.levelMode == levelMode && this.wantsIcw4 == wantsIcw4
      ensures icw2 == 0 && icw3 == 0 && state == Icw2
      ensures i86 == (wantsIcw4 && old(i86)) && autoEoi == (wantsIcw4 && old(autoEoi))
    {
      this.single, this.levelMode, this.wantsIcw4 := single, levelMode, wantsIcw4;
      icw2, icw3, state := 0, 0, Icw2;
      if !wantsIcw4 { i86, autoEoi := false, false; }
    }

    method ClearRegisters(requests: set<Level>)
      modifies `irr, `imr, `isr, `priority, `autoRotate, `specialMask, `current, `pending
      ensures irr == requests && imr == {} && isr == {} && priority == 0
      ensures !autoRotate && !specialMask && current == IDLE && !pending
    {
      irr, imr, isr := requests, {}, {};
      priority, autoRotate, specialMask := 0, false, false;
      current, pending := IDLE, false;
    }

    /** The next initialisation word. */
    method TakeWord(v: nat)
      requires state != Ready
      modifies `icw2, `icw3, `i86, `autoEoi, `state
      ensures State() == NextWord(old(State()), v)
      ensures lines == old(lines)
    {
      match state {
        case Icw2 =>
          icw2 := v;
          state := if !single then Icw3 else if wantsIcw4 then Icw4 else Ready;
        case Icw3 =>
          icw3 := v;
          state := if wantsIcw4 then Icw4 else Ready;
        case Icw4 =>
          i86, autoEoi, state := v % 2 == 1, v / 2 % 2 == 1, Ready;
      }
    }

    /** The levels some source asserts. */
    method AssertedLevels() returns (r: set<Level>)
      requires |lines| == 8
      ensures r == Asserted(lines)
    {
      r := {};
      var i := 0;
      while i < 8
        invariant 0 <= i <= 8 && r == set j: Level | 0 <= j < i && lines[j] > 0
      {
        if lines[i] > 0 {
          r := r + {i};
        }
        i := i + 1;
      }
    }

    /** The level that a non-specific end of interrupt means. */
    method NonSpecificFind() returns (irq: Option<Level>)
      ensures irq == NonSpecific(State())
    {
      irq := None;
      var i := 0;
      while i < 8
        invariant 0 <= i <= 8 && irq == None && NonSpecificFrom(State(), 0) == NonSpecificFrom(State(), i)
      {
        var j := At(priority, i);
        if j in isr && (!specialMask || j !in imr) {
          return Some(j);
        }
        i := i + 1;
      }
    }
  }

  lemma ReinitialisedParts(c: Chip, single: bool, levelMode: bool, wantsIcw4: bool)
    requires |c.lines| == 8
    ensures Reinitialised(c, single, levelMode, wantsIcw4)
         == Chip(Asserted(c.lines), {}, {}, c.elcr, c.lines, 0, IDLE, false, Icw2, single, levelMode, wantsIcw4, 0, 0,
                 wantsIcw4 && c.i86, wantsIcw4 && c.autoEoi, false, false)
  {
    hide Asserted;
  }

  class PicPair {
    const master: PicChip
    const slave: PicChip
    var elcrOn: bool
    var acks: nat

    constructor ()
      ensures Valid() && fresh(master) && fresh(slave)
    {
      master := new PicChip();
      slave := new PicChip();
      elcrOn, acks := false, 0;
    }

    ghost predicate Valid()
      reads this, master, slave
    {
      master != slave && Wired(Abs())
    }

    function Abs(): Pair
      reads this, master, slave
    {
      Pair(master.State(), slave.State(), elcrOn, acks)
    }

    function ChipOf(side: Side): PicChip {
      if side == Master then master else slave
    }

    method Refresh(c: PicChip)
      modifies c`current, c`pending
      ensures c.State() == Refreshed(old(c.State()))
    {
      var found := c.FindBest();
      c.pending := found;
    }

    method Update()
      requires Valid()
      modifies master, slave
      ensures Valid() && Abs() == UpdatePending(old(Abs()))
    {
      if !master.current.frozen {
        hide Best;
        Refresh(slave);
        if slave.pending {
          master.irr := master.irr + BitOf(slave.icw3);
        } else {
          master.irr := master.irr - BitOf(slave.icw3);
        }
        Refresh(master);
      }
    }

    method Acknowledge(side: Side)
      requires Valid()
      modifies ChipOf(side)`isr, ChipOf(side)`irr
      ensures Valid() && Abs() == Pic.Acknowledge(old(Abs()), side)
    {
      var c := ChipOf(side);
      var j := c.current.level;
      var level := if elcrOn then j in c.elcr else c.levelMode;
      c.isr := c.isr + {j};
      if !level || c.lines[j] == 0 {
        c.irr := c.irr - {j};
      }
    }

    method Act(side: Side, irq: Option<Level>, eoi: bool, rotate: bool)
      requires Valid()
      modifies master, slave
      ensures Valid() && Abs() == Pic.Act(old(Abs()), side, irq, eoi, rotate)
    {
      if irq.Some? {
        hide UpdatePending;
        End(side, irq.value, eoi, rotate);
        Update();
      }
    }

    method End(side: Side, irq: Level, eoi: bool, rotate: bool)
      requires Valid()
      modifies ChipOf(side)`isr, ChipOf(side)`priority
      ensures Valid() && Abs() == old(Abs()).Put(side, Ended(old(Abs()).Get(side), irq, eoi, rotate))
    {
      var c := ChipOf(side);
      if eoi {
        c.isr := c.isr - {irq};
      }
      if rotate {
        c.priority := (irq + 1) % 8;
      }
    }

    method AutoEoi(side: Side)
      requires Valid()
      modifies master, slave
      ensures Valid() && Abs() == Pic.AutoEoi(old(Abs()), side)
    {
      var c := ChipOf(side);
      if c.autoEoi {
        hide NonSpecific, Pic.Act;
        var irq := c.NonSpecificFind();
        Act(side, irq, true, c.autoRotate);
      }
    }

    /** OCW2. */
    method Command(side: Side, rotate: bool, specific: bool, eoi: bool, level: Level)
      requires Valid()
      modifies master, slave
      ensures Valid() && Abs() == Pic.Command(old(Abs()), side, rotate, specific, eoi, level)
    {
      hide NonSpecific, Pic.Act;
      var c := ChipOf(side);
      if specific {
        Act(side, Some(level), eoi, rotate);
      } else if eoi {
        var irq := c.NonSpecificFind();
        Act(side, irq, eoi, rotate);
      } else {
        c.autoRotate := rotate;
      }
    }

    /** One cycle of an acknowledge, the slave's after the master's own. */
    method AckCycle0()
      requires Valid()
      modifies master, slave
      ensures Valid() && Abs() == Pic.AckCycle0(old(Abs()))
    {
      hide Pic.Acknowledge;
      var fromSlave := master.current.fromSlave;
      master.current := master.current.(frozen := true);
      Acknowledge(Master);
      if fromSlave {
        slave.current := slave.current.(frozen := true);
        Acknowledge(Slave);
      }
    }

    method DropRequest(side: Side)
      requires Valid()
      modifies ChipOf(side)`pending
      ensures Valid() && Abs() == old(Abs()).Put(side, old(Abs()).Get(side).(pending := false))
    {
      ChipOf(side).pending := false;
    }

    /** A later cycle: a chip in 8086 mode, or in the third cycle, drops its request and
        ends the interrupt if it does so by itself. */
    method AckLater(phase: nat)
      requires Valid()
      modifies master, slave
      ensures Valid() && Abs() == Pic.AckLater(old(Abs()), phase)
    {
      hide Pic.AutoEoi;
      var concludes := master.i86 || phase == 2;
      var slaveConcludes := master.current.fromSlave && (slave.i86 || phase == 2);
      if concludes {
        DropRequest(Master);
      }
      if slaveConcludes {
        DropRequest(Slave);
        AutoEoi(Slave);
      }
      if concludes {
        AutoEoi(Master);
      }
    }

    /** The byte that the chip being acknowledged puts on the bus. */
    method Say(phase: nat) returns (answer: Answer)
      requires Valid()
      ensures answer == Says(Answering(Abs()), phase)
    {
      var c := if master.current.fromSlave then slave else master;
      if phase == 0 {
        answer := if c.i86 then Filler else CallOpcode;
      } else if c.i86 {
        answer := Vector(c.current.level + c.icw2 / 8 * 8);
      } else {
        answer := if phase == 1 then CallLow(c.current.level) else CallHigh(c.icw2);
      }
    }

    method Thaw()
      requires Valid()
      modifies this`acks, master, slave
      ensures Valid() && Abs() == Thawed(old(Abs()))
    {
      hide UpdatePending;
      if master.current.fromSlave {
        slave.current := IDLE;
      }
      master.current := IDLE;
      acks := 0;
      Update();
    }

    /** One cycle of an acknowledge. */
    method AckStep() returns (answer: Answer)
      requires Valid()
      modifies this`acks, master, slave
      ensures Valid() && (Abs(), answer) == Pic.AckStep(old(Abs()))
    {
      hide Pic.AckCycle0, Pic.AckLater, Thawed, Says, Answering;
      answer := Say(acks);
      var next := (acks + 1) % (if master.i86 then 2 else 3);
      if acks == 0 { AckCycle0(); } else { AckLater(acks); }
      if next == 0 { Thaw(); } else { acks := next; }
    }

    /** What precedes the acknowledge cycles. */
    method Prepare()
      requires Valid()
      modifies master, slave
      ensures Valid() && Abs() == Prepared(old(Abs()))
    {
      hide Bits;
      if master.pending {
        if SlaveOn(master.State()) {
          if !slave.pending {
            slave.pending := true;
            slave.current := Current(7, false, false, false);
          } else {
            master.current := master.current.(fromSlave := true);
          }
        }
      } else {
        master.pending := true;
        master.current := Current(7, false, false, false);
      }
    }

    /** picinterrupt */
    method Interrupt() returns (reply: Reply)
      requires Valid()
      modifies this`acks, master, slave
      ensures Valid() && (Abs(), reply) == Acknowledged(old(Abs()))
    {
      hide Prepared, Pic.AckStep, SlaveOn;
      if master.pending && SlaveOn(master.State()) && master.current.level != 2 {
        return Crashed;
      }
      Prepare();
      var answer := AckStep();
      answer := AckStep();
      reply := Answered(answer);
    }

    /** OCW3 without a poll command. */
    method SetSpecialMask(side: Side, on: bool)
      requires Valid()
      modifies ChipOf(side)`specialMask
      ensures Valid() && Abs() == Pic.SetSpecialMask(old(Abs()), side, on)
    {
      ChipOf(side).specialMask := on;
    }

    /** ICW1. */
    method Reinit(side: Side, single: bool, levelMode: bool, wantsIcw4: bool)
      requires Valid()
      modifies this`acks, master, slave
      ensures Valid() && Abs() == Pic.Reinit(old(Abs()), side, single, levelMode, wantsIcw4)
    {
      hide UpdatePending, Reinitialised;
      ReinitialisedKeepsLines(ChipOf(side).State(), single, levelMode, wantsIcw4);
      ChipOf(side).Restart(single, levelMode, wantsIcw4);
      if side == Master { acks := 0; }
      Update();
    }

    lemma ReinitialisedKeepsLines(c: Chip, single: bool, levelMode: bool, wantsIcw4: bool)
      requires |c.lines| == 8
      ensures Reinitialised(c, single, levelMode, wantsIcw4).lines == c.lines
    {
    }

    /** A write to the odd port. */
    method WriteOdd(side: Side, v: nat)
      requires Valid()
      modifies master, slave
      ensures Valid() && Abs() == Pic.WriteOdd(old(Abs()), side, v)
    {
      hide UpdatePending, Bits, NextWord;
      var c := ChipOf(side);
      if c.state == Ready {
        c.imr := Bits(v);
        Update();
      } else {
        c.TakeWord(v);
      }
    }

    /** Drops the lines that are taken by slaves, and counts the slaves. */
    method Translate(num: set<LineNo>) returns (r: set<LineNo>, slaves: nat)
      requires Valid()
      ensures r == Translated(Abs().master, num)
      ensures slaves == 0 <==> Bits(master.icw3) == {}
    {
      var mask := Bits(master.icw3);
      hide Bits;
      r, slaves := num, 0;
      var i := 0;
      while i < 8
        invariant 0 <= i <= 8
        invariant r == (set x: LineNo | x in num && !(x < i && x in mask))
                       + if i > 2 && 2 in num && 2 in mask then {9} else {}
        invariant slaves == 0 <==> forall x: Level :: x in mask ==> x >= i
      {
        if i in mask {
          slaves := slaves + 1;
          if i in r {
            r := r - {i};
            if i == 2 {
              r := r + {9};
            }
          }
        }
        i := i + 1;
      }
    }

    /** Sets or clears request bits, then recomputes. */
    method SetRequests(num: set<LineNo>, raise: bool)
      requires Valid()
      modifies master, slave
      ensures Valid() && Abs() == PicLines.SetRequests(old(Abs()), num, raise)
    {
      hide UpdatePending;
      if raise {
        slave.irr := slave.irr + SlaveLines(num);
        master.irr := master.irr + MasterLines(num);
      } else {
        slave.irr := slave.irr - SlaveLines(num);
        master.irr := master.irr - MasterLines(num);
      }
      Update();
    }

    /** picint and picintc. */
    method Edge(num: set<LineNo>, raise: bool)
      requires Valid()
      modifies master, slave
      ensures Valid() && Abs() == PicLines.Edge(old(Abs()), num, raise)
    {
      hide UpdatePending, Bits, Translated;
      var r, slaves := Translate(num);
      if slaves == 0 {
        r := Below(r, 8);
      }
      if r != {} {
        SetRequests(r, raise);
      }
    }

    /** picintlevel and picintclevel for a source that was asserting or not; returns
        whether it asserts afterwards. */
    method Shared(num: set<LineNo>, raise: bool, asserting: bool) returns (on: bool)
      requires Valid()
      modifies master, slave
      ensures Valid() && (Abs(), on) == PicLines.Shared(old(Abs()), num, raise, asserting)
    {
      hide UpdatePending, Bits, Translated;
      var r, slaves := Translate(num);
      on := asserting;
      if r == {} {
        return;
      }
      var max := if slaves == 0 then 8 else 16;
      var lines := CountLines(r, max, raise, asserting);
      assert Below(r, max) == Reachable(old(Abs()).master, r);
      on := raise;
      if lines != {} {
        SetRequests(lines, raise);
      }
    }

    /** The loop over the lines: it moves the counters and collects the lines whose
        request bit follows. */
    method CountLines(num: set<LineNo>, max: nat, raise: bool, asserting: bool) returns (lines: set<LineNo>)
      requires Valid() && max <= 16
      modifies master`lines, slave`lines
      ensures Valid()
      ensures var reach := Below(num, max);
        && Abs() == (if asserting != raise then Counted(old(Abs()), reach, raise) else old(Abs()))
        && lines == Effective(Abs(), reach, raise, asserting != raise)
    {
      hide Counted, Effective, Below, PicLines.Follows, StepOne;
      lines := {};
      ghost var p := Abs();
      CountNothing(p, num, raise, asserting != raise);
      var i := 0;
      while i < max
        invariant 0 <= i <= max && Valid()
        invariant Abs() == if asserting != raise then Counted(p, Below(num, i), raise) else p
        invariant lines == Effective(Abs(), Below(num, i), raise, asserting != raise)
      {
        CountedOneMore(p, num, i, raise);
        ghost var q := Abs();
        if i in num {
          if asserting != raise {
            CountLine(i, raise);
          }
          var follows := LineFollows(i, raise, asserting != raise);
          if follows {
            lines := lines + {i};
          }
        }
        EffectiveOneMore(q, Abs(), num, i, raise, asserting != raise);
        i := i + 1;
      }
    }

    method CountLine(i: LineNo, raise: bool)
      requires Valid()
      modifies ChipOf(SideOf(i))`lines
      ensures Valid() && Abs() == StepOne(old(Abs()), i, raise)
    {
      var c := ChipOf(SideOf(i));
      var b := LevelOf(i);
      c.lines := c.lines[b := if raise then (c.lines[b] + 1) % WORD else (c.lines[b] + WORD - 1) % WORD];
    }

    method LineFollows(i: LineNo, raise: bool, changed: bool) returns (follows: bool)
      requires Valid()
      ensures follows == PicLines.Follows(Abs(), i, raise, changed)
    {
      var c := ChipOf(SideOf(i));
      var b := LevelOf(i);
      var level := if elcrOn then b in c.elcr else c.levelMode;
      follows := !level || (changed && c.lines[b] == if raise then 1 else 0);
    }

    /** One operation, unless it crashes. */
    method Perform(op: Op) returns (ok: bool)
      requires Valid()
      modifies this`acks, master, slave
      ensures Valid() && (ok <==> !Crashes(old(Abs()), op))
      ensures Abs() == if ok then Apply(old(Abs()), op) else old(Abs())
    {
      hide PicLines.Edge, PicLines.Shared, Pic.Interrupt, Pic.Command, Pic.Reinit, Pic.WriteOdd, MissingSlave;
      ok := true;
      match op {
        case Lines(num, raise) => Edge(num, raise);
        case SharedLines(num, raise, asserting) =>
          var on := Shared(num, raise, asserting);
        case Ack =>
          var reply := Interrupt();
          ok := reply.Answered?;
        case Ocw2(side, rotate, specific, eoi, level) => Command(side, rotate, specific, eoi, level);
        case SpecialMask(side, on) => SetSpecialMask(side, on);
        case Icw1(side, single, levelMode, wantsIcw4) => Reinit(side, single, levelMode, wantsIcw4);
        case Odd(side, v) => WriteOdd(side, v);
      }
    }

    /** Operation after operation, until one crashes. */
    method RunAll(ops: seq<Op>) returns (ok: bool)
      requires Valid()
      modifies this`acks, master, slave
      ensures Valid() && (ok <==> Run(old(Abs()), ops).Some?)
      ensures ok ==> Run(old(Abs()), ops) == Some(Abs())
    {
      hide Apply, Crashes, Wired;
      ok := true;
      var i := 0;
      while i < |ops|
        invariant 0 <= i <= |ops| && Valid()
        invariant Run(old(Abs()), ops) == Run(Abs(), ops[i..])
      {
        ghost var p := Abs();
        ok := Perform(ops[i]);
        if !ok {
          return;
        }
        assert ops[i..][1..] == ops[i + 1..];
        i := i + 1;
      }
    }
  }
}
