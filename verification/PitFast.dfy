/** The same counter driven by deadlines: it computes when OUT changes next instead of
    counting, on values. Times are 32.32 fixed-point. */
module PitFast {
  import opened Options
  import opened PitCount

  type Positive = x: nat | x > 0 witness 1

  datatype Fast = Fast(
    m: nat, l: nat, count: int,
    gate: bool, out: bool, enabled: bool, disabled: bool, initial: bool, thit: bool, running: bool, newcount: bool,
    usingTimer: bool,
    unit: Positive,            // the time of one tick
    deadline: Option<nat>,     // when the timer runs out, if it is enabled
    falls: seq<nat>, rises: seq<nat>)

  /** The edges of OUT after it is set to a level. */
  function Falls(f: Fast, out: bool, at: nat): seq<nat> {
    if f.out && !out then f.falls + [at] else f.falls
  }

  function Rises(f: Fast, out: bool, at: nat): seq<nat> {
    if !f.out && out then f.rises + [at] else f.rises
  }

  function SetOut(f: Fast, out: bool, at: nat): Fast {
    f.(out := out, falls := Falls(f, out, at), rises := Rises(f, out, at))
  }

  function After(at: nat, ticks: nat, unit: nat): nat {
    at + ticks * unit
  }

  /** Arms the timer a number of ticks from the given time: from now when it is set,
      from its own deadline when its callback arms it again. */
  function Due(f: Fast, ticks: nat, at: nat): Option<nat> {
    if f.usingTimer then Some(After(at, ticks, f.unit)) else f.deadline
  }

  function Delay(f: Fast, ticks: nat, at: nat): Fast {
    f.(deadline := Due(f, ticks, at))
  }

  /** Starts to count n, due in a number of ticks, with OUT at a level. */
  function Start(f: Fast, n: int, ticks: nat, out: bool, now: nat): Fast {
    f.(count := n, deadline := Due(f, ticks, now), thit := false,
       out := out, falls := Falls(f, out, now), rises := Rises(f, out, now))
  }

  /** What a read finds: the ticks left, rounded down. */
  function Read(f: Fast, now: nat): int
  {
    if f.usingTimer && !(f.m == 3 && !f.gate) && f.deadline.Some? then
      var left := (if f.deadline.value < now then 0 else f.deadline.value - now) / f.unit;
      var read := if f.m == 2 then left + 1 else left;
      var capped := if read > FULL then FULL else read;
      if f.m == 3 then 2 * capped else capped
    else if f.m == 2 then f.count + 1 else f.count
  }

  /** Keep the count of a timer that stops. */
  function Dump(f: Fast, now: nat): Fast
  {
    if f.usingTimer && f.deadline.Some? then
      f.(count := if f.m == 2 then Read(f, now) - 1 else Read(f, now), deadline := None)
    else f
  }

  function Settle(f: Fast, now: nat): Fast
  {
    var g := f.(running := f.enabled && f.usingTimer && !f.disabled);
    if g.usingTimer && !g.running then Dump(g, now) else g
  }

  /** A control word selects a mode and holds the counter until a count is written. */
  function Control(f: Fast, m: nat, now: nat): Fast {
    SetOut(f.(m := m, initial := true), m != 0, now).(disabled := true, thit := false)
  }

  /** A complete count has been written. */
  function Load(f0: Fast, l: nat, now: nat): Fast
  {
    var f := f0.(l := l, newcount := false, disabled := false);
    Settle(Loaded(f, now).(initial := false), now)
  }

  function Loaded(f: Fast, now: nat): Fast {
    var n := Initial(f.l);
    match f.m
    case 0 => Start(f, n, n, false, now).(enabled := f.gate)
    case 1 => f.(enabled := true)
    case 2 =>
      (if f.initial then Start(f, n - 1, n - 1, true, now) else f)
        .(enabled := f.gate)
    case 3 => (if f.initial then RestartSquare(f, now) else f).(enabled := f.gate)
    case 4 =>
      (if !f.thit && !f.initial then f.(newcount := true)
       else Start(f, n, n, false, now)).(enabled := f.gate)
    case 5 => f.(enabled := true)
    case _ => f
  }

  /** A rising gate restarts a one-shot or a hardware strobe. */
  function Trigger(f: Fast, now: nat): Fast {
    var n := Initial(f.l);
    Start(f, n, n, false, now).(enabled := true)
  }

  function RestartRate(f: Fast, now: nat): Fast {
    var n := Initial(f.l);
    Start(f, n - 1, n, true, now)
  }

  function RestartSquare(f: Fast, now: nat): Fast {
    var n := Initial(f.l);
    Start(f, n, (n + 1) / 2, true, now).(newcount := if f.usingTimer then f.newcount else n % 2 == 1)
  }

  function Gated(f: Fast, gate: bool, now: nat): Fast {
    var rising := gate && !f.gate;
    match f.m
    case 0 => (if f.usingTimer && !f.running then Delay(f, Initial(f.l), now) else f).(enabled := gate)
    case 1 => if rising then Trigger(f, now) else f
    case 2 => (if rising then RestartRate(f, now) else f).(enabled := gate)
    case 3 => (if rising then RestartSquare(f, now) else f).(enabled := gate)
    case 4 => (if f.usingTimer && !f.running then Delay(f, Initial(f.l), now) else f).(enabled := gate)
    case 5 => if rising then Trigger(f, now) else f
    case _ => f
  }

  function SetGate(f: Fast, gate: bool, now: nat): Fast
  {
    if f.disabled then f.(gate := gate) else
      Settle(Gated(f, gate, now).(gate := gate), now)
  }

  /** OUT pulses low and high again in one go. */
  function Pulse(f: Fast, at: nat): Fast {
    SetOut(SetOut(f, false, at), true, at)
  }

  function Strobed(f: Fast, at: nat): Fast {
    Delay((if f.thit then f else Pulse(f, at)).(thit := true, count := f.count + 0xffff), 0xffff, at)
  }

  function SoftStrobed(f: Fast, at: nat): Fast {
    if f.newcount
    then Delay((if f.thit then f else Pulse(f, at)).(newcount := false, count := f.count + Initial(f.l)),
      Initial(f.l), at)
    else Strobed(f, at)
  }

  function Expiring(f: Fast, at: nat): Fast {
    match f.m
    case 0 => Expired(f, at)
    case 1 => Expired(f, at)
    case 2 => Pulse(Delay(f.(count := f.count + Initial(f.l)), Initial(f.l), at), at)
    case 3 => Half(f, at)
    case 4 => SoftStrobed(f, at)
    case 5 => Strobed(f, at)
    case _ => f
  }

  /** The timer has run out at its deadline. */
  function Over(f: Fast): Fast
    requires f.deadline.Some?
  {
    var at := f.deadline.value;
    var off := f.(deadline := None);
    if f.disabled then Delay(off.(count := f.count + 0xffff), 0xffff, at) else
      Settle(Expiring(off, at), at)
  }

  function Expired(f: Fast, at: nat): Fast {
    Delay((if f.thit then f else SetOut(f, true, at)).(thit := true, count := f.count + 0xffff), 0xffff, at)
  }

  /** The end of one half of a square wave. */
  function Half(f: Fast, at: nat): Fast {
    var n := Initial(f.l);
    var g := SetOut(f, !f.out, at);
    if f.usingTimer then
      Delay(g.(count := f.count + if f.out then n / 2 else (n + 1) / 2 + n / 2),
            if f.out then n / 2 else (n + 1) / 2, at)
    else
      g.(count := f.count + (if f.out then n else (n + 1) / 2 + n), newcount := n % 2 == 1)
  }

  // ---- Off the timer ----

  /** A counter that is not on the timer counts its clocks; a square wave counts by twos, the
      first of an odd half by one or three. */
  function Stepped(f: Fast): Fast {
    var step := if f.m != 3 then 1 else if !f.newcount then 2 else if f.out then 1 else 3;
    f.(count := f.count - step, newcount := f.newcount && f.m != 3)
  }

  function Lapsed(f: Fast, at: nat): Fast {
    if f.disabled then f.(count := f.count + 0xffff) else Settle(Expiring(f, at), at)
  }

  function Clocked(f: Fast, at: nat): Fast {
    if f.thit || !f.enabled || f.usingTimer then f
    else if Stepped(f).count == 0 then Lapsed(Stepped(f), at)
    else Stepped(f)
  }
}
