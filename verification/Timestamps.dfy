/** Wrapping 32.32 fixed-point timestamps: the high half of a 64-bit stamp counts
    CPU clock ticks, the low half is a fraction of a tick. Every comparison is a
    signed reading of a modular difference. */
module Timestamps {
  import opened Division

  const TICK: int := 0x1_0000_0000
  const HALF32: int := 0x8000_0000
  const WRAP: int := 0x1_0000_0000_0000_0000
  const HALF: int := 0x8000_0000_0000_0000

  type Word32 = x: nat | x < 0x1_0000_0000
  type Word64 = x: nat | x < 0x1_0000_0000_0000_0000

  /** The low 64 bits of x, read as a two's complement number. */
  function Signed64(x: int): int {
    var m := x % WRAP;
    if m < HALF then m else m - WRAP
  }

  /** The low 32 bits of x, read as a two's complement number. */
  function Signed32(x: int): int {
    var m := x % TICK;
    if m < HALF32 then m else m - TICK
  }

  /** "Stamp a expires before stamp b": the comparison the sorted insertion uses. */
  predicate LessThan(a: Word64, b: Word64) {
    Signed64(a - b) <= 0
  }

  /** "Stamp a has been reached at clock value tsc": only whole ticks are compared. */
  predicate Reached(a: Word64, tsc: Word64) {
    Signed32(a / TICK - tsc) <= 0
  }

  /** Signed time left until stamp a, in fractions of a tick. */
  function Remaining(a: Word64, tsc: Word64): int {
    Signed64(a - tsc * TICK)
  }

  /** The stamp a delay after the start of tick tsc. */
  function StampAfter(tsc: Word64, delay: Word64): (r: Word64) {
    (tsc % TICK * TICK + delay) % WRAP
  }

  function Advanced(a: Word64, delay: Word64): (r: Word64) {
    (a + delay) % WRAP
  }

  /** Moves the whole-tick part of a stamp along with a clock that jumps from tsc
      to later, keeping the fraction. */
  function Rebased(a: Word64, tsc: Word64, later: Word64): (r: Word64) {
    (later + Signed32(a / TICK - tsc)) % TICK * TICK + a % TICK
  }

  lemma Signed64Range(x: int)
    ensures -HALF <= Signed64(x) < HALF
    ensures -HALF <= x < HALF ==> Signed64(x) == x
  {
  }

  /** A number is determined modulo the wrap by its signed reading. */
  lemma Signed64Congruent(x: int) returns (k: int)
    ensures x == Signed64(x) + k * WRAP
  {
    k := if x % WRAP < HALF then x / WRAP else x / WRAP + 1;
  }

  lemma Signed64Shift(x: int, k: int)
    ensures Signed64(x + k * WRAP) == Signed64(x)
  {
  }

  /** The modular comparison orders two stamps by the time they have left exactly
      when those times differ by no more than half the wrap window. */
  lemma ComparisonExactIffInWindow(a: Word64, b: Word64, tsc: Word64)
    ensures (LessThan(a, b) <==> Remaining(a, tsc) <= Remaining(b, tsc))
       <==> -HALF <= Remaining(a, tsc) - Remaining(b, tsc) < HALF
  {
    var x, y := a - tsc * TICK, b - tsc * TICK;
    var i := Signed64Congruent(x);
    var j := Signed64Congruent(y);
    var d := Signed64(x) - Signed64(y);
    Signed64Range(x);
    Signed64Range(y);
    Signed64Shift(d, i - j);
    SignOfDifference(d);
    hide Signed64;
    assert a - b == d + (i - j) * WRAP;
  }

  lemma SignOfDifference(d: int)
    requires -WRAP < d < WRAP
    ensures (Signed64(d) <= 0 <==> d <= 0) <==> -HALF <= d < HALF
  {
    if 0 <= d { assert d % WRAP == d; } else { assert d % WRAP == d + WRAP; }
  }

  /** Whole ticks left, computed on the 32-bit halves alone, is the floor of the
      full time left; so the 32-bit expiry test is exact with no window at all. */
  lemma WholeTicksLeft(a: Word64, tsc: Word64)
    ensures Signed32(a / TICK - tsc) == Remaining(a, tsc) / TICK
    ensures Reached(a, tsc) <==> Remaining(a, tsc) < TICK
  {
    var hi, lo := a / TICK, a % TICK;
    var d := hi - tsc;
    var k := Signed32Congruent(d);
    var s := Signed32(d);
    assert a - tsc * TICK == d * TICK + lo;
    assert d * TICK == s * TICK + k * WRAP;
    Signed64Shift(s * TICK + lo, k);
    Signed64Range(s * TICK + lo);
    assert Remaining(a, tsc) == s * TICK + lo;
    ModUnique(s * TICK + lo, s, lo, TICK);
  }

  lemma Signed32Congruent(x: int) returns (k: int)
    ensures x == Signed32(x) + k * TICK
  {
    k := if x % TICK < HALF32 then x / TICK else x / TICK + 1;
  }

  /** Arming: a delay shorter than half the window is what is left afterwards. */
  lemma DelayIsRemaining(tsc: Word64, delay: Word64)
    requires delay < HALF
    ensures Remaining(StampAfter(tsc, delay), tsc) == delay
  {
  }

  /** Advancing a stamp lengthens the time left by the delay, as long as the result
      is still inside the window. */
  lemma AdvanceAddsToRemaining(a: Word64, delay: Word64, tsc: Word64)
    requires Remaining(a, tsc) + delay < HALF
    ensures Remaining(Advanced(a, delay), tsc) == Remaining(a, tsc) + delay
  {
    hide Signed64;
    var i := Signed64Congruent(a - tsc * TICK);
    Signed64Range(a - tsc * TICK);
    var r := Remaining(a, tsc) + delay;
    Signed64Range(r);
    assert Advanced(a, delay) - tsc * TICK == r + (i - (a + delay) / WRAP) * WRAP;
    Signed64Shift(r, i - (a + delay) / WRAP);
  }

  /** A rebased stamp has exactly the time left that it had before the jump. */
  lemma RebaseKeepsRemaining(a: Word64, tsc: Word64, later: Word64)
    ensures Remaining(Rebased(a, tsc, later), later) == Remaining(a, tsc)
  {
    var s := Signed32(a / TICK - tsc);
    var hi := (later + s) % TICK;
    var k := (later + s) / TICK;
    var b := Rebased(a, tsc, later);
    ModUnique(b, hi, a % TICK, TICK);
    assert hi - later == s + (-k) * TICK;
    ModShift(s, -k, TICK);
    assert Signed32(hi - later) == s by { Signed32Fixed(a / TICK - tsc); }
    RemainingFromTicks(a, tsc);
    RemainingFromTicks(b, later);
  }

  lemma Signed32Fixed(x: int)
    ensures -HALF32 <= Signed32(x) < HALF32
    ensures Signed32(Signed32(x)) == Signed32(x)
  {
  }

  lemma Signed32Sinks(x: int, d: nat)
    requires Signed32(x) - d >= -HALF32
    ensures Signed32(x - d) == Signed32(x) - d
  {
  }

  lemma RemainingFromTicks(a: Word64, tsc: Word64)
    ensures Remaining(a, tsc) == Signed32(a / TICK - tsc) * TICK + a % TICK
  {
  }

  /** Two rebased stamps keep their difference modulo the wrap. */
  lemma RebaseKeepsDifference(a: Word64, b: Word64, tsc: Word64, later: Word64)
    ensures (Rebased(a, tsc, later) - Rebased(b, tsc, later)) % WRAP == (a - b) % WRAP
  {
    RebaseShift(a, tsc, later);
    RebaseShift(b, tsc, later);
    var ka := Signed64Congruent(Rebased(a, tsc, later) - a - (later - tsc) * TICK);
    var kb := Signed64Congruent(Rebased(b, tsc, later) - b - (later - tsc) * TICK);
    assert Rebased(a, tsc, later) - Rebased(b, tsc, later) == (a - b) + (ka - kb) * WRAP;
    ModShift(a - b, ka - kb, WRAP);
  }

  lemma RebaseShift(a: Word64, tsc: Word64, later: Word64)
    ensures Signed64(Rebased(a, tsc, later) - a - (later - tsc) * TICK) == 0
  {
    var s := Signed32(a / TICK - tsc);
    var k := Signed32Congruent(a / TICK - tsc);
    hide Signed32;
    var q := (later + s) / TICK;
    assert (later + s) % TICK == later + s - q * TICK;
    assert a == a / TICK * TICK + a % TICK;
    assert Rebased(a, tsc, later) - a - (later - tsc) * TICK == 0 + (-(k + q)) * WRAP;
    Signed64Shift(0, -(k + q));
  }

  /** When the clock moves forward, every stamp loses that much time, as long as
      none falls out of the window. */
  lemma ClockEatsRemaining(a: Word64, tsc: Word64, later: Word64)
    requires tsc <= later && Remaining(a, tsc) - (later - tsc) * TICK >= -HALF
    ensures Remaining(a, later) == Remaining(a, tsc) - (later - tsc) * TICK
  {
  }
}
