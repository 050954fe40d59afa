/** The pair of 8259A interrupt controllers of an AT, on values. A chip's eight-bit
    registers are sets of levels; the pair's lines are 0-7 on the master and 8-15 on
    the slave, which is cascaded into the master's level 2. */
module Pic {
  import opened Options

  type Level = x: nat | x < 8

  /** Where a chip is in its initialisation sequence. */
  datatype InitState = Ready | Icw2 | Icw3 | Icw4

  /** The chip's current interrupt: bits 0-2, 0x10 (nothing selected), 0x20 (frozen
      while it is being acknowledged) and 0x40 (it comes from the slave). */
  datatype Current = Current(level: Level, idle: bool, frozen: bool, fromSlave: bool)

  const IDLE := Current(7, true, false, false)

  datatype Chip = Chip(
    irr: set<Level>, isr: set<Level>, imr: set<Level>, elcr: set<Level>,
    lines: seq<nat>,       // how many sources assert each level
    priority: Level,       // the level with the highest priority
    current: Current,
    pending: bool,
    state: InitState,
    single: bool,          // ICW1 bit 1: no cascade
    levelMode: bool,       // ICW1 bit 3
    wantsIcw4: bool,       // ICW1 bit 0
    icw2: nat, icw3: nat,
    i86: bool,             // ICW4 bit 0
    autoEoi: bool,         // ICW4 bit 1
    autoRotate: bool,
    specialMask: bool)

  datatype Side = Master | Slave

  /** acks counts the acknowledge cycles under way. */
  datatype Pair = Pair(master: Chip, slave: Chip, elcrOn: bool, acks: nat)
  {
    function Get(side: Side): Chip {
      if side == Master then master else slave
    }

    function Put(side: Side, c: Chip): Pair {
      if side == Master then this.(master := c) else this.(slave := c)
    }
  }

  function Pow2(j: Level): nat {
    if j == 0 then 1 else if j == 1 then 2 else if j == 2 then 4 else if j == 3 then 8
    else if j == 4 then 16 else if j == 5 then 32 else if j == 6 then 64 else 128
  }

  /** The levels whose bits are set in a byte. */
  function Bits(v: nat): set<Level> {
    set j: Level | 0 <= j < 8 && v / Pow2(j) % 2 == 1
  }

  // ---- Priorities ----

  /** The level at rotated place i, and the rotated place of a level. */
  function At(priority: Level, i: nat): Level {
    (i + priority) % 8
  }

  function Dist(priority: Level, j: Level): Level {
    (j + 8 - priority) % 8
  }

  function Requested(c: Chip): set<Level> {
    c.irr - c.imr
  }

  /** The scan for the best interrupt from rotated place i on: a level in service
      ends it. */
  function BestFrom(c: Chip, i: nat): Option<Level>
    requires i <= 8
    decreases 8 - i
  {
    if i == 8 then None else
      var j := At(c.priority, i);
      if j in c.isr then None
      else if c.state == Ready && j in Requested(c) then Some(j)
      else BestFrom(c, i + 1)
  }

  function Best(c: Chip): Option<Level> {
    BestFrom(c, 0)
  }

  function Selected(best: Option<Level>): Current {
    if best.None? then IDLE else Current(best.value, false, false, false)
  }

  /** find_best_interrupt and the pending flag its callers derive from it. */
  function Refreshed(c: Chip): Chip {
    c.(current := Selected(Best(c)), pending := Best(c).Some?)
  }

  /** The bit 1 << v of an eight-bit register. */
  function BitOf(v: nat): set<Level> {
    if v < 8 then {v} else {}
  }

  function Relay(m: Chip, s: Chip): Chip {
    m.(irr := if s.pending then m.irr + BitOf(s.icw3) else m.irr - BitOf(s.icw3))
  }

  function UpdatePending(p: Pair): Pair {
    if p.master.current.frozen then p else
      var s := Refreshed(p.slave);
      p.(slave := s, master := Refreshed(Relay(p.master, s)))
  }

  // ---- Acknowledging ----

  predicate LevelTriggered(p: Pair, side: Side, j: Level) {
    if p.elcrOn then j in p.Get(side).elcr else p.Get(side).levelMode
  }

  predicate SlaveOn(m: Chip) {
    !m.single && !m.current.idle && !m.current.frozen && !m.current.fromSlave && m.current.level in Bits(m.icw3)
  }

  /** The master has selected a level at which ICW3 names a slave and there is none:
      only level 2 has one. */
  predicate MissingSlave(p: Pair) {
    p.master.pending && SlaveOn(p.master) && p.master.current.level != 2
  }

  function Acknowledge(p: Pair, side: Side): Pair
    requires |p.Get(side).lines| == 8
  {
    var c := p.Get(side);
    var j := c.current.level;
    p.Put(side, c.(isr := c.isr + {j},
                   irr := if !LevelTriggered(p, side, j) || c.lines[j] == 0 then c.irr - {j} else c.irr))
  }

  /** The level a non-specific EOI means: the first in service in rotated order that
      special mask mode does not hide. */
  function NonSpecificFrom(c: Chip, i: nat): Option<Level>
    requires i <= 8
    decreases 8 - i
  {
    if i == 8 then None else
      var j := At(c.priority, i);
      if j in c.isr && (!c.specialMask || j !in c.imr) then Some(j) else NonSpecificFrom(c, i + 1)
  }

  function NonSpecific(c: Chip): Option<Level> {
    NonSpecificFrom(c, 0)
  }

  function Ended(c: Chip, irq: Level, eoi: bool, rotate: bool): Chip {
    c.(isr := if eoi then c.isr - {irq} else c.isr, priority := if rotate then (irq + 1) % 8 else c.priority)
  }

  function Act(p: Pair, side: Side, irq: Option<Level>, eoi: bool, rotate: bool): Pair {
    if irq.None? then p else UpdatePending(p.Put(side, Ended(p.Get(side), irq.value, eoi, rotate)))
  }

  function AutoEoi(p: Pair, side: Side): Pair {
    var c := p.Get(side);
    if c.autoEoi then Act(p, side, NonSpecific(c), true, c.autoRotate) else p
  }

  /** What precedes the acknowledge cycles: mark a request that comes from the slave.
      The branch for a slave without a request gives it a level 7, without marking the
      master; the one for no request at all gives a level 7 to the master. */
  function Prepared(p: Pair): Pair {
    var m := p.master;
    if !m.pending then p.(master := m.(pending := true, current := Current(7, false, false, false)))
    else if !SlaveOn(m) then p
    else if !p.slave.pending then p.(slave := p.slave.(pending := true, current := Current(7, false, false, false)))
    else p.(master := m.(current := m.current.(fromSlave := true)))
  }

  function Freeze(c: Chip): Chip {
    c.(current := c.current.(frozen := true))
  }

  predicate Wired(p: Pair) {
    |p.master.lines| == 8 && |p.slave.lines| == 8
  }

  /** First cycle: freeze, and move the selected level into service. */
  function AckCycle0(p: Pair): Pair
    requires Wired(p)
  {
    var q := Acknowledge(p.(master := Freeze(p.master)), Master);
    if p.master.current.fromSlave then Acknowledge(q.(slave := Freeze(q.slave)), Slave) else q
  }

  function VectorOf(c: Chip): nat {
    c.current.level + c.icw2 / 8 * 8
  }

  /** What a chip puts on the bus: in 8086 mode nothing in particular and then the
      vector, otherwise the three bytes of a CALL. */
  datatype Answer = Filler | CallOpcode | Vector(number: nat) | CallLow(level: Level) | CallHigh(icw2: nat)

  function Says(c: Chip, phase: nat): Answer {
    if phase == 0 then if c.i86 then Filler else CallOpcode
    else if c.i86 then Vector(VectorOf(c))
    else if phase == 1 then CallLow(c.current.level)
    else CallHigh(c.icw2)
  }

  function Answering(p: Pair): Chip {
    if p.master.current.fromSlave then p.slave else p.master
  }

  /** The cycle in which a chip drops its request and ends an interrupt by itself. */
  predicate Concludes(c: Chip, phase: nat) {
    c.i86 || phase == 2
  }

  /** A later cycle, the slave's part inside the master's. */
  function AckLater(p: Pair, phase: nat): Pair {
    var q := if Concludes(p.master, phase) then p.(master := p.master.(pending := false)) else p;
    var r := if p.master.current.fromSlave && Concludes(p.slave, phase)
             then AutoEoi(q.(slave := q.slave.(pending := false)), Slave) else q;
    if Concludes(p.master, phase) then AutoEoi(r, Master) else r
  }

  function Thawed(p: Pair): Pair {
    var s := if p.master.current.fromSlave then p.slave.(current := IDLE) else p.slave;
    UpdatePending(p.(slave := s, master := p.master.(current := IDLE), acks := 0))
  }

  /** How many cycles an acknowledge takes. */
  function Cycles(m: Chip): nat {
    if m.i86 then 2 else 3
  }

  /** One cycle. The last one thaws the pair. */
  function AckStep(p: Pair): (Pair, Answer)
    requires Wired(p)
  {
    var q := if p.acks == 0 then AckCycle0(p) else AckLater(p, p.acks);
    var n := (p.acks + 1) % Cycles(p.master);
    (if n == 0 then Thawed(q) else q.(acks := n), Says(Answering(p), p.acks))
  }

  lemma UpdateKeepsWired(p: Pair)
    requires Wired(p)
    ensures Wired(UpdatePending(p))
    ensures UpdatePending(p).master.icw3 == p.master.icw3
  {
    hide Best;
  }

  lemma AutoEoiKeepsWired(p: Pair, side: Side)
    requires Wired(p)
    ensures Wired(AutoEoi(p, side))
    ensures AutoEoi(p, side).master.icw3 == p.master.icw3
  {
    hide NonSpecific, UpdatePending;
    var c := p.Get(side);
    var irq := NonSpecific(c);
    if irq.Some? { UpdateKeepsWired(p.Put(side, Ended(c, irq.value, true, c.autoRotate))); }
  }

  lemma LaterKeepsWired(p: Pair, phase: nat)
    requires Wired(p)
    ensures Wired(AckLater(p, phase))
    ensures AckLater(p, phase).master.icw3 == p.master.icw3
  {
    hide AutoEoi;
    var q := if Concludes(p.master, phase) then p.(master := p.master.(pending := false)) else p;
    var s := q.(slave := q.slave.(pending := false));
    AutoEoiKeepsWired(s, Slave);
    AutoEoiKeepsWired(q, Master);
    AutoEoiKeepsWired(AutoEoi(s, Slave), Master);
  }

  lemma StepKeepsWired(p: Pair)
    requires Wired(p)
    ensures Wired(AckStep(p).0)
    ensures AckStep(p).0.master.icw3 == p.master.icw3
  {
    hide AckLater, UpdatePending;
    LaterKeepsWired(p, p.acks);
    var q := if p.acks == 0 then AckCycle0(p) else AckLater(p, p.acks);
    var s := if q.master.current.fromSlave then q.slave.(current := IDLE) else q.slave;
    UpdateKeepsWired(q.(slave := s, master := q.master.(current := IDLE), acks := 0));
  }

  /** Two cycles, whatever the mode, and what the second one answers. */
  function Interrupt(p: Pair): (Pair, Answer)
    requires Wired(p) && !MissingSlave(p)
  {
    StepKeepsWired(Prepared(p));
    AckStep(AckStep(Prepared(p)).0)
  }

  datatype Reply = Crashed | Answered(answer: Answer)

  /** picinterrupt. It asks a slave for its request before it does anything else, and
      follows a null pointer where that slave is missing. */
  function Acknowledged(p: Pair): (Pair, Reply)
    requires Wired(p)
  {
    if MissingSlave(p) then (p, Crashed) else (Interrupt(p).0, Answered(Interrupt(p).1))
  }

  // ---- Register writes ----

  /** OCW2: its R, SL and EOI bits and its level. */
  function Command(p: Pair, side: Side, rotate: bool, specific: bool, eoi: bool, level: Level): Pair {
    if specific then Act(p, side, Some(level), eoi, rotate)
    else if eoi then Act(p, side, NonSpecific(p.Get(side)), eoi, rotate)
    else p.Put(side, p.Get(side).(autoRotate := rotate))
  }

  function WriteMask(p: Pair, side: Side, imr: set<Level>): Pair {
    UpdatePending(p.Put(side, p.Get(side).(imr := imr)))
  }

  function SetSpecialMask(p: Pair, side: Side, on: bool): Pair {
    p.Put(side, p.Get(side).(specialMask := on))
  }

  /** The levels some source asserts. */
  function Asserted(lines: seq<nat>): set<Level>
    requires |lines| == 8
  {
    set j: Level | 0 <= j < 8 && lines[j] > 0
  }

  function Reinitialised(c: Chip, single: bool, levelMode: bool, wantsIcw4: bool): Chip
    requires |c.lines| == 8
  {
    c.(single := single, levelMode := levelMode, wantsIcw4 := wantsIcw4, icw2 := 0, icw3 := 0,
       i86 := wantsIcw4 && c.i86, autoEoi := wantsIcw4 && c.autoEoi,
       irr := Asserted(c.lines), imr := {}, isr := {}, priority := 0,
       autoRotate := false, specialMask := false, current := IDLE, pending := false, state := Icw2)
  }

  /** ICW1. */
  function Reinit(p: Pair, side: Side, single: bool, levelMode: bool, wantsIcw4: bool): Pair
    requires Wired(p)
  {
    var q := p.Put(side, Reinitialised(p.Get(side), single, levelMode, wantsIcw4));
    UpdatePending(if side == Master then q.(acks := 0) else q)
  }

  /** The next initialisation word. */
  function NextWord(c: Chip, v: nat): Chip {
    match c.state
    case Icw2 => c.(icw2 := v, state := if !c.single then Icw3 else if c.wantsIcw4 then Icw4 else Ready)
    case Icw3 => c.(icw3 := v, state := if c.wantsIcw4 then Icw4 else Ready)
    case Icw4 => c.(i86 := v % 2 == 1, autoEoi := v / 2 % 2 == 1, state := Ready)
    case Ready => c
  }

  /** A write to the odd port: the next initialisation word, or the mask. */
  function WriteOdd(p: Pair, side: Side, v: nat): Pair {
    if p.Get(side).state == Ready then WriteMask(p, side, Bits(v)) else p.Put(side, NextWord(p.Get(side), v))
  }
}
