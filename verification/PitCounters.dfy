/** The two counters as the objects they are: fields updated in place, each method tied
    to the value it computes. Past edges of OUT are recorded in ghost fields. */
module PitCounters {
  import opened Options
  import opened PitCount
  import T = PitTicking
  import F = PitFast
  import PitRates
  import PitPrograms

  lemma RestartedIs(c: T.Ctr, state: nat, level: bool)
    ensures var n := Initial(c.l);
      T.Restarted(c, state, level)
        == c.(count := n, nullCount := false, newcount := n % 2 == 1, incomplete := c.highNext,
              state := state, out := level,
              falls := if c.out && !level then c.falls + [c.ticks] else c.falls,
              rises := if !c.out && level then c.rises + [c.ticks] else c.rises)
  {
  }

  class Counter {
    var m: nat
    var state: nat
    var count: int
    var l: nat
    var gate: bool
    var out: bool
    var newcount: bool
    var nullCount: bool
    var latch: bool
    var incomplete: bool
    var highNext: bool
    var clock: bool
    var s1Det: nat
    var usingTimer: bool
    ghost var ticks: nat
    ghost var falls: seq<nat>
    ghost var rises: seq<nat>

    ghost function State(): T.Ctr
      reads this
    {
      T.Ctr(m, state, count, l, gate, out, newcount, nullCount, latch, incomplete, highNext, clock, s1Det, usingTimer,
            ticks, falls, rises)
    }

    method SetOut(level: bool)
      modifies `out, `falls, `rises
      ensures out == level
      ensures falls == if old(out) && !level then old(falls) + [ticks] else old(falls)
      ensures rises == if !old(out) && level then old(rises) + [ticks] else old(rises)
    {
      if out && !level { falls := falls + [ticks]; }
      if !out && level { rises := rises + [ticks]; }
      out := level;
    }

    method Level(level: bool)
      modifies `out, `falls, `rises
      ensures State() == T.SetOut(old(State()), level)
    {
      SetOut(level);
    }

    method DecreaseCount()
      modifies `count
      ensures count == T.Decrease(old(count))
    {
      count := (count - 1) % 0x10000;
    }

    method LoadCount()
      modifies `count, `nullCount, `newcount, `incomplete
      ensures count == Initial(l) && !nullCount && newcount == (count % 2 == 1) && incomplete == highNext
    {
      count := if l != 0 then l else 0x10000;
      nullCount := false;
      newcount := count % 2 == 1;
      incomplete := highNext;
    }

    method Restart(next: nat, level: bool)
      modifies `count, `nullCount, `newcount, `incomplete, `state, `out, `falls, `rises
      ensures State() == T.Restarted(old(State()), next, level)
    {
      hide T.Restarted;
      RestartedIs(State(), next, level);
      LoadCount();
      state := next;
      SetOut(level);
    }

    method RunOn()
      modifies `count
      ensures State() == T.RunOn(old(State()))
    {
      DecreaseCount();
    }

    method Finish(level: bool)
      modifies `state, `out, `falls, `rises
      ensures State() == T.SetOut(old(State()).(state := 3), level)
    {
      state := 3;
      SetOut(level);
    }

    method CountDown(limit: int, level: bool)
      modifies `count, `state, `out, `falls, `rises
      ensures State() == T.CountDown(old(State()), limit, level)
    {
      hide T.SetOut, T.Decrease;
      RunOn();
      if count < limit { Finish(level); }
    }

    /** The tick that loads a written count. */
    method Reload()
      modifies this
      ensures State() == T.Reload(old(State()))
    {
      hide T.Restarted;
      var triggered := m == 1 && state == 1;
      Restart(state + 1, out && !triggered);
    }

    method Terminal()
      modifies this
      ensures State() == T.Step1(old(State()))
    {
      hide T.CountDown, T.RunOn;
      if state == 2 {
        if count >= 1 { CountDown(1, true); }
      } else if state == 3 || state == 6 {
        RunOn();
      }
    }

    method Interrupt()
      modifies this
      ensures State() == T.Step0(old(State()))
    {
      hide T.CountDown, T.RunOn;
      if state == 2 {
        if gate && count >= 1 { CountDown(1, true); }
      } else if state == 3 {
        RunOn();
      }
    }

    method Rate()
      modifies this
      ensures State() == T.Step2(old(State()))
    {
      hide T.CountDown, T.Restarted;
      if state == 3 {
        Restart(2, true);
      } else if state == 2 && gate && count >= 2 {
        CountDown(2, false);
      }
    }

    method Square()
      modifies this
      ensures State() == T.Step3(old(State()))
    {
      hide T.HalfStep;
      if !gate || count < 0 {
      } else if state == 2 {
        HalfStep(if newcount then 1 else 2, 3, false);
      } else if state == 3 {
        HalfStep(if newcount then 3 else 2, 2, true);
      }
    }

    method HalfStep(step: int, next: nat, level: bool)
      modifies this
      ensures State() == T.HalfStep(old(State()), step, next, level)
    {
      hide T.Restarted;
      count := count - step;
      if count < 0 {
        Restart(next, level);
      } else {
        newcount := false;
      }
    }

    method Strobe()
      modifies this
      ensures State() == T.Step45(old(State()))
    {
      hide T.CountDown, T.RunOn;
      if state == 0 || state == 6 {
        RunOn();
      } else if state == 2 {
        if count >= 1 { CountDown(1, false); }
      } else if state == 3 {
        state := 0;
        SetOut(true);
      }
    }

    /** One clock from outside. */
    method Clock()
      modifies this
      ensures State() == T.Clocked(old(State()))
    {
      hide T.Tick;
      if state == 3 && m != 2 && m != 3 { return; }
      if usingTimer { return; }
      Tick();
    }

    method Tick()
      modifies this
      ensures State() == T.Tick(old(State()))
    {
      hide T.Reload, T.Step0, T.Step1, T.Step2, T.Step3, T.Step45;
      ticks := ticks + 1;
      if state % 4 == 1 {
        Reload();
      } else if m == 0 {
        Interrupt();
      } else if m == 1 {
        Terminal();
      } else if m == 2 {
        Rate();
      } else if m == 3 {
        Square();
      } else if gate || m != 4 {
        Strobe();
      }
    }

    method SetState1()
      modifies `incomplete, `state
      ensures State() == T.SetState1(old(State()))
    {
      var reload := incomplete || m % 4 == 0 || state == 0;
      incomplete := false;
      if reload { state := 1 + if m % 4 == 1 then 4 else 0; }
    }

    /** A control word. */
    method Control(mode: nat)
      modifies `m, `nullCount, `out, `falls, `rises, `state
      ensures State() == T.Control(old(State()), mode)
    {
      hide T.SetOut;
      Select(mode);
      Level(m != 0);
      state := 0;
    }

    method Select(mode: nat)
      modifies `m, `nullCount
      ensures State() == old(State()).(m := mode, nullCount := true)
    {
      m := mode;
      nullCount := true;
    }

    /** The last byte of a count. */
    method Load(value: nat)
      modifies this
      ensures State() == T.Load(old(State()), value)
    {
      hide T.Accept, T.SetState1;
      Accept(value);
      if usingTimer { latch := true; } else { SetState1(); }
    }

    method Accept(value: nat)
      modifies `out, `falls, `rises, `l
      ensures State() == T.Accept(old(State()), value)
    {
      hide T.SetOut;
      if m == 0 { Level(false); }
      l := value;
      if l == 1 {
        if m == 2 { l := 2; } else if m == 3 { l := 0; }
      }
    }

    method SetGate(level: bool)
      modifies `out, `falls, `rises, `state, `gate
      ensures State() == T.SetGate(old(State()), level)
    {
      hide T.Gated;
      ActOnGate(level);
      gate := level;
    }

    method ActOnGate(level: bool)
      modifies `out, `falls, `rises, `state
      ensures State() == T.Gated(old(State()), level)
    {
      hide T.SetOut;
      var mode := m % 4;
      if mode == 0 {
      } else if !gate && level {
        if mode == 3 { Level(true); }
        state := if mode == 2 then 3 else 1;
      } else if gate && !level && mode != 1 {
        Level(true);
      }
    }

    method SetClock(level: bool)
      modifies this
      ensures State() == T.Clock(old(State()), level)
    {
      hide T.Tick;
      var was := clock;
      clock := level;
      if usingTimer && latch {
        if was && !level {
          SetState1();
          latch := false;
        }
      } else if usingTimer {
        if state == 1 {
          if !was && level {
            s1Det := 1;
          } else if was && !level {
            s1Det := s1Det + 1;
            if s1Det >= 2 {
              s1Det := 0;
              Tick();
            }
          }
        } else if was && !level {
          Tick();
        }
      }
    }

    /** The clock line toggles for n cycles. */
    method RunCycles(n: nat)
      modifies this
      ensures State() == PitPrograms.Cycles(old(State()), n)
    {
      hide T.Clock;
      var i := 0;
      while i < n
        invariant i <= n && State() == PitPrograms.Cycles(old(State()), i)
      {
        SetClock(true);
        SetClock(false);
        i := i + 1;
      }
    }

    /** A latch command. */
    method LatchCount() returns (value: int)
      ensures value == T.Readable(State())
    {
      value := if latch || state == 1 then l else count;
      value := value % 0x10000;
    }
  }

  lemma ControlIs(f: F.Fast, m: nat, now: nat)
    ensures F.Control(f, m, now)
      == f.(m := m, initial := true, out := m != 0, falls := F.Falls(f, m != 0, now), rises := F.Rises(f, m != 0, now),
            disabled := true, thit := false)
  {
  }

  lemma HalfIs(f: F.Fast, at: nat)
    ensures var n := Initial(f.l); var next := if f.out then n / 2 else (n + 1) / 2;
      F.Half(f, at)
        == f.(out := !f.out, falls := F.Falls(f, !f.out, at), rises := F.Rises(f, !f.out, at),
              count := f.count + (if f.out then 0 else (n + 1) / 2) + (if f.usingTimer then n / 2 else n),
              deadline := F.Due(f, next, at), newcount := if f.usingTimer then f.newcount else n % 2 == 1)
  {
    hide F.After;
  }

  class FastCounter {
    var m: nat
    var l: nat
    var count: int
    var gate: bool
    var out: bool
    var enabled: bool
    var disabled: bool
    var initial: bool
    var thit: bool
    var running: bool
    var newcount: bool
    var usingTimer: bool
    var unit: F.Positive
    var deadline: Option<nat>
    ghost var falls: seq<nat>
    ghost var rises: seq<nat>

    ghost function State(): F.Fast
      reads this
    {
      F.Fast(m, l, count, gate, out, enabled, disabled, initial, thit, running, newcount, usingTimer, unit, deadline,
             falls, rises)
    }

    method SetOut(level: bool, at: nat)
      modifies `out, `falls, `rises
      ensures out == level
      ensures falls == if old(out) && !level then old(falls) + [at] else old(falls)
      ensures rises == if !old(out) && level then old(rises) + [at] else old(rises)
    {
      if out && !level { falls := falls + [at]; }
      if !out && level { rises := rises + [at]; }
      out := level;
    }

    method Delay(ticks: nat, at: nat)
      modifies `deadline
      ensures deadline == if usingTimer then Some(F.After(at, ticks, unit)) else old(deadline)
    {
      if usingTimer { deadline := Some(F.After(at, ticks, unit)); }
    }

    method Wait(ticks: nat, at: nat)
      modifies `deadline
      ensures State() == F.Delay(old(State()), ticks, at)
    {
      Delay(ticks, at);
    }

    method ReadTimer(now: nat) returns (read: int)
      ensures read == F.Read(State(), now)
    {
      if usingTimer && !(m == 3 && !gate) && deadline.Some? {
        read := (if deadline.value < now then 0 else deadline.value - now) / unit;
        if m == 2 { read := read + 1; }
        if read > 0x10000 { read := 0x10000; }
        if m == 3 { read := 2 * read; }
      } else if m == 2 {
        read := count + 1;
      } else {
        read := count;
      }
    }

    method DumpAndDisable(now: nat)
      modifies `count, `deadline
      ensures State() == F.Dump(old(State()), now)
    {
      hide F.Read;
      if usingTimer && deadline.Some? {
        count := ReadTimer(now);
        if m == 2 { count := count - 1; }
        deadline := None;
      }
    }

    method Settle(now: nat)
      modifies `running, `count, `deadline
      ensures State() == F.Settle(old(State()), now)
    {
      hide F.Dump;
      running := enabled && usingTimer && !disabled;
      if usingTimer && !running { DumpAndDisable(now); }
    }

    method Control(mode: nat, now: nat)
      modifies `m, `initial, `out, `falls, `rises, `disabled, `thit
      ensures State() == F.Control(old(State()), mode, now)
    {
      hide F.Control;
      ControlIs(State(), mode, now);
      m := mode;
      initial := true;
      SetOut(m != 0, now);
      disabled := true;
      thit := false;
    }

    method Load(value: nat, now: nat)
      modifies this
      ensures State() == F.Load(old(State()), value, now)
    {
      hide F.Loaded, F.Settle;
      Take(value);
      StartMode(now);
      Initialised();
      Settle(now);
    }

    method Take(value: nat)
      modifies `l, `newcount, `disabled
      ensures State() == old(State()).(l := value, newcount := false, disabled := false)
    {
      l, newcount, disabled := value, false, false;
    }

    method Initialised()
      modifies `initial
      ensures State() == old(State()).(initial := false)
    {
      initial := false;
    }

    /** Starts to count n, due in a number of ticks, with OUT at a level. */
    method Start(n: int, ticks: nat, level: bool, now: nat)
      modifies `count, `deadline, `out, `falls, `rises, `thit
      ensures count == n && deadline == F.Due(old(State()), ticks, now) && out == level && !thit
      ensures falls == F.Falls(old(State()), level, now) && rises == F.Rises(old(State()), level, now)
    {
      count := n;
      Delay(ticks, now);
      SetOut(level, now);
      thit := false;
    }

    /** Starts to count n, due in a number of ticks, with OUT at a level. */
    method Begin(n: int, ticks: nat, level: bool, now: nat)
      modifies `count, `deadline, `out, `falls, `rises, `thit
      ensures State() == F.Start(old(State()), n, ticks, level, now)
    {
      hide F.Due, F.Falls, F.Rises;
      Start(n, ticks, level, now);
    }

    method Enable(on: bool)
      modifies `enabled
      ensures State() == old(State()).(enabled := on)
    {
      enabled := on;
    }

    method Postpone()
      modifies `newcount
      ensures State() == old(State()).(newcount := true)
    {
      newcount := true;
    }

    method StartMode(now: nat)
      modifies this
      ensures State() == F.Loaded(old(State()), now)
    {
      hide F.Start, F.RestartSquare;
      var n := Initial(l);
      match m {
        case 0 =>
          Begin(n, n, false, now);
          Enable(gate);
        case 1 =>
          Enable(true);
        case 2 =>
          if initial { Begin(n - 1, n - 1, true, now); }
          Enable(gate);
        case 3 =>
          if initial { RestartSquare(now); }
          Enable(gate);
        case 4 =>
          if !thit && !initial { Postpone(); } else { Begin(n, n, false, now); }
          Enable(gate);
        case 5 =>
          Enable(true);
        case _ =>
      }
    }

    method RestartSquare(now: nat)
      modifies `count, `deadline, `out, `falls, `rises, `thit, `newcount
      ensures State() == F.RestartSquare(old(State()), now)
    {
      hide F.Due, F.Falls, F.Rises;
      var n := Initial(l);
      Start(n, (n + 1) / 2, true, now);
      if !usingTimer { newcount := n % 2 == 1; }
    }

    method Trigger(now: nat)
      modifies `count, `deadline, `out, `falls, `rises, `thit, `enabled
      ensures State() == F.Trigger(old(State()), now)
    {
      hide F.Due, F.Falls, F.Rises;
      var n := Initial(l);
      Start(n, n, false, now);
      enabled := true;
    }

    method RestartRate(now: nat)
      modifies `count, `deadline, `out, `falls, `rises, `thit, `enabled
      ensures State() == F.RestartRate(old(State()), now)
    {
      hide F.Due, F.Falls, F.Rises;
      var n := Initial(l);
      Start(n - 1, n, true, now);
    }

    method Gated(level: bool, now: nat)
      modifies this
      ensures State() == F.Gated(old(State()), level, now)
    {
      hide F.Trigger, F.RestartRate, F.RestartSquare, F.Delay;
      var rising := level && !gate;
      match m {
        case 0 =>
          if usingTimer && !running { Wait(Initial(l), now); }
          Enable(level);
        case 1 =>
          if rising { Trigger(now); }
        case 2 =>
          if rising { RestartRate(now); }
          Enable(level);
        case 3 =>
          if rising { RestartSquare(now); }
          Enable(level);
        case 4 =>
          if usingTimer && !running { Wait(Initial(l), now); }
          Enable(level);
        case 5 =>
          if rising { Trigger(now); }
        case _ =>
      }
    }

    method SetGate(level: bool, now: nat)
      modifies this
      ensures State() == F.SetGate(old(State()), level, now)
    {
      hide F.Gated, F.Settle;
      if disabled {
        gate := level;
      } else {
        Gated(level, now);
        gate := level;
        Settle(now);
      }
    }

    method Expired(at: nat)
      modifies this
      ensures State() == F.Expired(old(State()), at)
    {
      if !thit { SetOut(true, at); }
      thit := true;
      count := count + 0xffff;
      Delay(0xffff, at);
    }

    method Half(at: nat)
      modifies `out, `falls, `rises, `count, `deadline, `newcount
      ensures State() == F.Half(old(State()), at)
    {
      hide F.Half, F.After;
      HalfIs(State(), at);
      var n := Initial(l);
      if out {
        SetOut(false, at);
        if usingTimer {
          count := count + n / 2;
          Delay(n / 2, at);
        } else {
          count := count + n;
          newcount := n % 2 == 1;
        }
      } else {
        SetOut(true, at);
        count := count + (n + 1) / 2;
        if usingTimer {
          count := count + n / 2;
          Delay((n + 1) / 2, at);
        } else {
          count := count + n;
          newcount := n % 2 == 1;
        }
      }
    }

    method Pulse(at: nat)
      modifies `out, `falls, `rises
      ensures State() == F.Pulse(old(State()), at)
    {
      SetOut(false, at);
      SetOut(true, at);
    }

    method Strobed(at: nat)
      modifies this
      ensures State() == F.Strobed(old(State()), at)
    {
      hide F.Pulse, F.Delay;
      if !thit { Pulse(at); }
      thit := true;
      count := count + 0xffff;
      Wait(0xffff, at);
    }

    method SoftStrobed(at: nat)
      modifies this
      ensures State() == F.SoftStrobed(old(State()), at)
    {
      hide F.Pulse, F.Delay, F.Strobed;
      if newcount {
        if !thit { Pulse(at); }
        newcount := false;
        count := count + Initial(l);
        Wait(Initial(l), at);
      } else {
        Strobed(at);
      }
    }

    method Expiring(at: nat)
      modifies this
      ensures State() == F.Expiring(old(State()), at)
    {
      hide F.Expired, F.Half, F.Strobed, F.SoftStrobed, F.Pulse, F.Delay;
      match m {
        case 0 => Expired(at);
        case 1 => Expired(at);
        case 2 =>
          count := count + Initial(l);
          Wait(Initial(l), at);
          Pulse(at);
        case 3 => Half(at);
        case 4 => SoftStrobed(at);
        case 5 => Strobed(at);
        case _ =>
      }
    }

    /** The callback of the timer, at its deadline. */
    method Over()
      requires deadline.Some?
      modifies this
      ensures State() == F.Over(old(State()))
    {
      hide F.Expiring, F.Settle;
      var at := deadline.value;
      deadline := None;
      if disabled {
        count := count + 0xffff;
        Delay(0xffff, at);
      } else {
        Expiring(at);
        Settle(at);
      }
    }

    /** One clock of a counter that is not on the timer. */
    method Clock(at: nat)
      modifies this
      ensures State() == F.Clocked(old(State()), at)
    {
      hide F.Expiring, F.Settle, F.Stepped;
      if thit || !enabled || usingTimer { return; }
      CountClock();
      if count == 0 {
        if disabled {
          count := count + 0xffff;
        } else {
          Expiring(at);
          Settle(at);
        }
      }
    }

    method CountClock()
      modifies `count, `newcount
      ensures State() == F.Stepped(old(State()))
    {
      if m == 3 && newcount {
        count := count - if out then 1 else 3;
        newcount := false;
      } else {
        count := count - if m == 3 then 2 else 1;
      }
    }

    /** The timer is processed up to a time. */
    method Run(until: nat)
      modifies this
      ensures State() == PitRates.RunUntil(old(State()), until)
    {
      hide F.Over;
      while deadline.Some? && deadline.value <= until
        invariant PitRates.RunUntil(State(), until) == PitRates.RunUntil(old(State()), until)
        decreases PitRates.Ahead(State(), until), out
      {
        PitRates.OverMovesOn(State());
        Over();
      }
    }
  }
}
