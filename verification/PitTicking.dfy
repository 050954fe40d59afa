/** The 8253/8254 counter that is clocked tick by tick, on values; binary counting. */
module PitTicking {

  import opened PitCount

  /** A counter. Every change of OUT leaves a mark: the tick at which it fell or rose. */
  datatype Ctr = Ctr(
    m: nat,               // mode, 0-5
    state: nat,           // 0 idle, 1 and 5 about to load, 2 counting, 3 past terminal count, 6 not triggered
    count: int,
    l: nat,               // the 16-bit value written
    gate: bool, out: bool, newcount: bool, nullCount: bool,
    latch: bool,          // a written value waits for the next falling clock edge
    incomplete: bool,
    highNext: bool,       // bit 7 of the write mode: the high byte comes next
    clock: bool, s1Det: nat, usingTimer: bool,
    ticks: nat, falls: seq<nat>, rises: seq<nat>)

  function SetOut(c: Ctr, out: bool): Ctr {
    c.(out := out,
       falls := if c.out && !out then c.falls + [c.ticks] else c.falls,
       rises := if !c.out && out then c.rises + [c.ticks] else c.rises)
  }

  function Decrease(count: int): int {
    (count - 1) % 0x10000
  }

  function LoadCount(c: Ctr): Ctr {
    var n := Initial(c.l);
    c.(count := n, nullCount := false, newcount := n % 2 == 1, incomplete := c.highNext)
  }

  /** A count that has run out is loaded again, with OUT at a level. */
  function Restarted(c: Ctr, state: nat, level: bool): Ctr {
    SetOut(LoadCount(c).(state := state), level)
  }

  /** One less; below the limit OUT goes to a level. */
  function CountDown(c: Ctr, limit: int, level: bool): Ctr {
    var d := c.(count := Decrease(c.count));
    if d.count < limit then SetOut(d.(state := 3), level) else d
  }

  function RunOn(c: Ctr): Ctr {
    c.(count := Decrease(c.count))
  }

  /** The tick that loads a written count; it starts the pulse of a triggered one-shot. */
  function Reload(c: Ctr): Ctr {
    Restarted(c, c.state + 1, c.out && !(c.m == 1 && c.state == 1))
  }

  /** One tick of the counter itself. */
  function Step(c: Ctr): Ctr {
    if c.state % 4 == 1 then
      Reload(c)
    else match c.m
      case 0 => Step0(c)
      case 1 => Step1(c)
      case 2 => Step2(c)
      case 3 => Step3(c)
      case _ => if c.gate || c.m != 4 then Step45(c) else c
  }

  /** Interrupt on terminal count. */
  function Step0(c: Ctr): Ctr {
    if c.state == 2 then if c.gate && c.count >= 1 then CountDown(c, 1, true) else c
    else if c.state == 3 then RunOn(c)
    else c
  }

  /** Hardware retriggerable one-shot. */
  function Step1(c: Ctr): Ctr {
    if c.state == 2 then if c.count >= 1 then CountDown(c, 1, true) else c
    else if c.state == 3 || c.state == 6 then RunOn(c)
    else c
  }

  /** Rate generator. */
  function Step2(c: Ctr): Ctr {
    if c.state == 3 then Restarted(c, 2, true)
    else if c.state == 2 && c.gate && c.count >= 2 then CountDown(c, 2, false)
    else c
  }

  /** Square wave. */
  function Step3(c: Ctr): Ctr {
    if c.state == 2 && c.gate && c.count >= 0 then
      HalfStep(c, if c.newcount then 1 else 2, 3, false)
    else if c.state == 3 && c.gate && c.count >= 0 then
      HalfStep(c, if c.newcount then 3 else 2, 2, true)
    else c
  }

  function HalfStep(c: Ctr, step: int, state: nat, level: bool): Ctr {
    var d := c.(count := c.count - step);
    if d.count < 0 then Restarted(d, state, level) else d.(newcount := false)
  }

  /** Software and hardware triggered strobe. */
  function Step45(c: Ctr): Ctr {
    if c.state == 0 || c.state == 6 then RunOn(c)
    else if c.state == 2 then if c.count >= 1 then CountDown(c, 1, false) else c
    else if c.state == 3 then SetOut(c.(state := 0), true)
    else c
  }

  /** Nothing but the counter's own state differs. */
  predicate SameInputs(c: Ctr, d: Ctr) {
    && d.m == c.m && d.l == c.l && d.gate == c.gate && d.latch == c.latch && d.highNext == c.highNext
    && d.clock == c.clock && d.s1Det == c.s1Det && d.usingTimer == c.usingTimer && d.ticks == c.ticks
  }

  lemma RestartKeepsInputs(c: Ctr, state: nat, level: bool)
    ensures SameInputs(c, Restarted(c, state, level))
  {
  }

  lemma CountKeepsInputs(c: Ctr, limit: int, level: bool)
    ensures SameInputs(c, CountDown(c, limit, level)) && SameInputs(c, RunOn(c))
  {
    hide Decrease;
  }

  lemma RiseKeepsInputs(c: Ctr, state: nat)
    ensures SameInputs(c, SetOut(c.(state := state), true)) && SameInputs(c, c)
  {
  }

  lemma HalfKeepsInputs(c: Ctr, step: int, state: nat, level: bool)
    ensures SameInputs(c, HalfStep(c, step, state, level))
  {
    hide Restarted;
    RestartKeepsInputs(c.(count := c.count - step), state, level);
  }

  lemma StepKeepsInputs(c: Ctr)
    ensures SameInputs(c, Step(c))
  {
    hide Restarted, CountDown, RunOn, SetOut, HalfStep, SameInputs;
    RestartKeepsInputs(c, c.state + 1, c.out && !(c.m == 1 && c.state == 1));
    RestartKeepsInputs(c, 2, true);
    CountKeepsInputs(c, 1, true);
    CountKeepsInputs(c, 1, false);
    CountKeepsInputs(c, 2, false);
    RiseKeepsInputs(c, 0);
    HalfKeepsInputs(c, if c.newcount then 1 else 2, 3, false);
    HalfKeepsInputs(c, if c.newcount then 3 else 2, 2, true);
  }

  /** ctr_tick, counting ticks. */
  function Tick(c: Ctr): Ctr {
    Step(c.(ticks := c.ticks + 1))
  }

  function Ticks(c: Ctr, n: nat): Ctr {
    if n == 0 then c else Tick(Ticks(c, n - 1))
  }

  // ---- Writes, gate and clock edges ----

  function SetState1(c: Ctr): Ctr {
    var reload := c.incomplete || c.m % 4 == 0 || c.state == 0;
    c.(incomplete := false, state := if reload then (if c.m % 4 == 1 then 5 else 1) else c.state)
  }

  /** A control word selects a mode. */
  function Control(c: Ctr, m: nat): Ctr {
    SetOut(c.(m := m, nullCount := true), m != 0).(state := 0)
  }

  /** A complete count has been written. */
  function Load(c: Ctr, l: nat): Ctr {
    var d := Accept(c, l);
    if d.usingTimer then d.(latch := true) else SetState1(d)
  }

  /** A count of 1 is not taken in modes 2 and 3. */
  function Accept(c: Ctr, l: nat): Ctr {
    var d := if c.m == 0 then SetOut(c, false) else c;
    d.(l := if l != 1 then l else if c.m == 2 then 2 else if c.m == 3 then 0 else 1)
  }

  function SetGate(c: Ctr, gate: bool): Ctr {
    Gated(c, gate).(gate := gate)
  }

  function Gated(c: Ctr, gate: bool): Ctr {
    var mode := c.m % 4;
    if mode == 0 then c
    else if !c.gate && gate then
      if mode == 1 then c.(state := 1)
      else if mode == 3 then SetOut(c, true).(state := 1)
      else c.(state := 3)
    else if c.gate && !gate && mode != 1 then SetOut(c, true)
    else c
  }

  /** The clock input goes to the given level. */
  function Clock(c: Ctr, level: bool): Ctr {
    var d := c.(clock := level);
    var rising, falling := !c.clock && level, c.clock && !level;
    if c.usingTimer && c.latch then
      if falling then SetState1(d).(latch := false) else d
    else if c.usingTimer then
      if c.state == 1 then
        if rising then d.(s1Det := 1)
        else if falling then
          if c.s1Det + 1 >= 2 then Tick(d.(s1Det := 0)) else d.(s1Det := c.s1Det + 1)
        else d
      else if falling then Tick(d) else d
    else d
  }

  /** One clock from outside; a counter that is on the timer, or past its terminal count in
      a mode that has one, does not take it. */
  function Clocked(c: Ctr): Ctr {
    if (c.state == 3 && c.m != 2 && c.m != 3) || c.usingTimer then c else Tick(c)
  }

  /** What a count latch command reads. */
  function Readable(c: Ctr): int {
    (if c.latch || c.state == 1 then c.l else c.count) % 0x10000
  }
}
