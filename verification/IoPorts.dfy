/** Accesses to I/O ports, on values: every port has a chain of handlers. */
module IoPorts {
  import opened Options

  /** A registered handler: the functions it offers, by number, and its device. */
  datatype Handler = Handler(
    inb: Option<nat>, inw: Option<nat>, inl: Option<nat>,
    outb: Option<nat>, outw: Option<nat>, outl: Option<nat>,
    device: nat)

  /** What the input functions return for a port and a device. */
  datatype Devices = Devices(
    b: (nat, nat, nat) -> bv8,
    w: (nat, nat, nat) -> bv16,
    l: (nat, nat, nat) -> bv32)

  const NPORTS: int := 0x1_0000

  type Chains = c: seq<seq<Handler>> | |c| == NPORTS ghost witness seq(NPORTS, _ => [])

  /** The i-th port from p; the port space wraps. */
  function Port(p: nat, i: nat): (q: nat)
    ensures q < NPORTS
  {
    (p + i) % NPORTS
  }

  /** Which handlers of a chain a byte-sized part of a wider access reaches. */
  datatype Skip = Nothing | Words | WordsAndLongs

  predicate Passed(h: Handler, skip: Skip) {
    match skip
    case Nothing => true
    case Words => h.inw.None?
    case WordsAndLongs => h.inw.None? && h.inl.None?
  }

  // ---- Reading ----

  function And8(a: bv8, b: bv8): bv8 {
    a & b
  }

  function And16(a: bv16, b: bv16): bv16 {
    a & b
  }

  function AndB(d: Devices, hs: seq<Handler>, p: nat, skip: Skip): bv8 {
    if hs == [] then 0xff else
      var h := hs[|hs| - 1];
      var rest := AndB(d, hs[..|hs| - 1], p, skip);
      if h.inb.Some? && Passed(h, skip) then And8(rest, d.b(h.inb.value, p, h.device)) else rest
  }

  function AndW(d: Devices, hs: seq<Handler>, p: nat, skipLongs: bool): bv16 {
    if hs == [] then 0xffff else
      var h := hs[|hs| - 1];
      var rest := AndW(d, hs[..|hs| - 1], p, skipLongs);
      if h.inw.Some? && (skipLongs ==> h.inl.None?) then And16(rest, d.w(h.inw.value, p, h.device)) else rest
  }

  function AndL(d: Devices, hs: seq<Handler>, p: nat): bv32 {
    if hs == [] then 0xffff_ffff else
      var h := hs[|hs| - 1];
      var rest := AndL(d, hs[..|hs| - 1], p);
      if h.inl.Some? then rest & d.l(h.inl.value, p, h.device) else rest
  }

  lemma AndNothing(d: Devices, p: nat, skip: Skip, skipLongs: bool)
    ensures AndB(d, [], p, skip) == 0xff && AndW(d, [], p, skipLongs) == 0xffff
  {
  }

  /** One more handler. */
  lemma AndNext(d: Devices, hs: seq<Handler>, k: nat, p: nat, skip: Skip, skipLongs: bool)
    requires k < |hs|
    ensures var h := hs[k];
      && AndB(d, hs[..k + 1], p, skip)
           == (if h.inb.Some? && Passed(h, skip) then And8(AndB(d, hs[..k], p, skip), d.b(h.inb.value, p, h.device))
               else AndB(d, hs[..k], p, skip))
      && AndW(d, hs[..k + 1], p, skipLongs)
           == (if h.inw.Some? && (skipLongs ==> h.inl.None?)
               then And16(AndW(d, hs[..k], p, skipLongs), d.w(h.inw.value, p, h.device))
               else AndW(d, hs[..k], p, skipLongs))
  {
    hide And8, And16;
    assert hs[..k + 1][..k] == hs[..k];
  }

  function Low8(w: bv16): bv8 {
    (w & 0xff) as bv8
  }

  function High8(w: bv16): bv8 {
    (w >> 8) as bv8
  }

  function Join16(low: bv8, high: bv8): bv16 {
    (high as bv16 << 8) | low as bv16
  }

  function Low16(l: bv32): bv16 {
    (l & 0xffff) as bv16
  }

  function High16(l: bv32): bv16 {
    (l >> 16) as bv16
  }

  function Join32(low: bv16, high: bv16): bv32 {
    (high as bv32 << 16) | low as bv32
  }

  function InB(d: Devices, c: Chains, p: nat): bv8 {
    AndB(d, c[Port(p, 0)], Port(p, 0), Nothing)
  }

  /** A word seen by word handlers, with the byte handlers of its two ports. */
  function WithBytes(d: Devices, c: Chains, p: nat, w: bv16, skip: Skip): bv16 {
    Join16(And8(Low8(w), AndB(d, c[Port(p, 0)], Port(p, 0), skip)),
           And8(High8(w), AndB(d, c[Port(p, 1)], Port(p, 1), skip)))
  }

  function InW(d: Devices, c: Chains, p: nat): bv16 {
    WithBytes(d, c, p, AndW(d, c[Port(p, 0)], Port(p, 0), false), Words)
  }

  function InL(d: Devices, c: Chains, p: nat): bv32 {
    var l := AndL(d, c[Port(p, 0)], Port(p, 0));
    var low := And16(Low16(l), AndW(d, c[Port(p, 0)], Port(p, 0), true));
    var high := And16(High16(l), AndW(d, c[Port(p, 2)], Port(p, 2), true));
    Join32(WithBytes(d, c, p, low, WordsAndLongs), WithBytes(d, c, Port(p, 2), high, WordsAndLongs))
  }

  // ---- Narrowing ----

  predicate NoWords(hs: seq<Handler>) {
    forall i :: 0 <= i < |hs| ==> hs[i].inw.None?
  }

  predicate NoLongs(hs: seq<Handler>) {
    forall i :: 0 <= i < |hs| ==> hs[i].inl.None?
  }

  lemma {:induction false} AndWOfNone(d: Devices, hs: seq<Handler>, p: nat, skipLongs: bool)
    requires NoWords(hs)
    ensures AndW(d, hs, p, skipLongs) == 0xffff
  {
    if hs != [] { AndWOfNone(d, hs[..|hs| - 1], p, skipLongs); }
  }

  lemma {:induction false} AndLOfNone(d: Devices, hs: seq<Handler>, p: nat)
    requires NoLongs(hs)
    ensures AndL(d, hs, p) == 0xffff_ffff
  {
    if hs != [] { AndLOfNone(d, hs[..|hs| - 1], p); }
  }

  lemma {:induction false} AndBOfNoWords(d: Devices, hs: seq<Handler>, p: nat)
    requires NoWords(hs)
    ensures AndB(d, hs, p, Words) == AndB(d, hs, p, Nothing)
  {
    if hs != [] { AndBOfNoWords(d, hs[..|hs| - 1], p); }
  }

  lemma {:induction false} SkipsAgree(d: Devices, hs: seq<Handler>, p: nat)
    requires NoLongs(hs)
    ensures AndB(d, hs, p, WordsAndLongs) == AndB(d, hs, p, Words) && AndW(d, hs, p, true) == AndW(d, hs, p, false)
  {
    if hs != [] { SkipsAgree(d, hs[..|hs| - 1], p); }
  }

  lemma AllOnes()
    ensures Low8(0xffff) == 0xff && High8(0xffff) == 0xff && Low16(0xffff_ffff) == 0xffff
      && High16(0xffff_ffff) == 0xffff
  {
  }

  lemma OnesAreNeutral(b: bv8, w: bv16)
    ensures And8(0xff, b) == b && And16(0xffff, w) == w
  {
  }

  /** A word read where no handler reads words is two byte reads. */
  lemma WordsAreBytes(d: Devices, c: Chains, p: nat)
    requires NoWords(c[Port(p, 0)]) && NoWords(c[Port(p, 1)])
    ensures InW(d, c, p) == Join16(InB(d, c, p), InB(d, c, Port(p, 1)))
  {
    hide And8, And16, AndB, AndW, Join16, Low8, High8;
    AndWOfNone(d, c[Port(p, 0)], Port(p, 0), false);
    AndBOfNoWords(d, c[Port(p, 0)], Port(p, 0));
    AndBOfNoWords(d, c[Port(p, 1)], Port(p, 1));
    AllOnes();
    OnesAreNeutral(AndB(d, c[Port(p, 0)], Port(p, 0), Words), 0);
    OnesAreNeutral(AndB(d, c[Port(p, 1)], Port(p, 1), Words), 0);
    PortsNext(p);
  }

  lemma PortsNext(p: nat)
    ensures Port(Port(p, 1), 0) == Port(p, 1)
    ensures Port(Port(p, 2), 0) == Port(p, 2) && Port(Port(p, 2), 1) == Port(p, 3)
  {
  }

  /** A long read where no handler reads longs is two word reads, even across the end of
      the port space. */
  lemma LongsAreWords(d: Devices, c: Chains, p: nat)
    requires NoLongs(c[Port(p, 0)]) && NoLongs(c[Port(p, 1)]) && NoLongs(c[Port(p, 2)]) && NoLongs(c[Port(p, 3)])
    ensures InL(d, c, p) == Join32(InW(d, c, p), InW(d, c, Port(p, 2)))
  {
    hide And8, And16, AndB, AndW, AndL, Join32, Low16, High16, Port, WithBytes;
    AndLOfNone(d, c[Port(p, 0)], Port(p, 0));
    PortsNext(p);
    BytesAgree(d, c, p, AndW(d, c[Port(p, 0)], Port(p, 0), false));
    BytesAgree(d, c, Port(p, 2), AndW(d, c[Port(p, 2)], Port(p, 2), false));
    SkipsAgree(d, c[Port(p, 0)], Port(p, 0));
    SkipsAgree(d, c[Port(p, 2)], Port(p, 2));
    AllOnes();
    OnesAreNeutral(0, AndW(d, c[Port(p, 0)], Port(p, 0), true));
    OnesAreNeutral(0, AndW(d, c[Port(p, 2)], Port(p, 2), true));
  }

  lemma BytesAgree(d: Devices, c: Chains, p: nat, w: bv16)
    requires NoLongs(c[Port(p, 0)]) && NoLongs(c[Port(p, 1)])
    ensures WithBytes(d, c, p, w, WordsAndLongs) == WithBytes(d, c, p, w, Words)
  {
    hide And8, AndB, AndW, Join16, Low8, High8, Port;
    SkipsAgree(d, c[Port(p, 0)], Port(p, 0));
    SkipsAgree(d, c[Port(p, 1)], Port(p, 1));
  }

  lemma {:induction false} WordsPullDown(d: Devices, hs: seq<Handler>, p: nat, i: nat)
    requires i < |hs| && hs[i].inw.Some?
    ensures var r := AndW(d, hs, p, false); And16(r, d.w(hs[i].inw.value, p, hs[i].device)) == r
  {
    hide And16;
    var k := |hs| - 1;
    var rest := AndW(d, hs[..k], p, false);
    var x := d.w(hs[i].inw.value, p, hs[i].device);
    if i < k {
      WordsPullDown(d, hs[..k], p, i);
      if hs[k].inw.Some? { AndKeeps(rest, x, d.w(hs[k].inw.value, p, hs[k].device)); }
    } else {
      AndKeeps(rest, 0xffff, x);
    }
  }

  lemma {:induction false} BytesPullDown(d: Devices, hs: seq<Handler>, p: nat, skip: Skip, i: nat)
    requires i < |hs| && hs[i].inb.Some? && Passed(hs[i], skip)
    ensures var r := AndB(d, hs, p, skip); And8(r, d.b(hs[i].inb.value, p, hs[i].device)) == r
  {
    hide And8, Passed;
    var k := |hs| - 1;
    var rest := AndB(d, hs[..k], p, skip);
    var x := d.b(hs[i].inb.value, p, hs[i].device);
    if i < k {
      BytesPullDown(d, hs[..k], p, skip, i);
      if hs[k].inb.Some? && Passed(hs[k], skip) { AndKeeps8(rest, x, d.b(hs[k].inb.value, p, hs[k].device)); }
    } else {
      AndKeeps8(rest, 0xff, x);
    }
  }

  /** Every handler that drives the bus can only pull bits down: a word read never has a bit
      set that a word handler of its port clears, nor one that a byte handler of either port
      clears, unless that one reads words. */
  lemma HandlersPullDown(d: Devices, c: Chains, p: nat, k: nat, i: nat)
    requires k < 2 && i < |c[Port(p, k)]|
    ensures var r := InW(d, c, p); var h := c[Port(p, k)][i];
      && (k == 0 && h.inw.Some? ==> And16(r, d.w(h.inw.value, Port(p, 0), h.device)) == r)
      && (h.inb.Some? && h.inw.None? ==>
            var part := if k == 0 then Low8(r) else High8(r);
            And8(part, d.b(h.inb.value, Port(p, k), h.device)) == part)
  {
    hide And8, And16, Low8, High8, Join16, Port, AndB, AndW;
    var h := c[Port(p, k)][i];
    var w := AndW(d, c[Port(p, 0)], Port(p, 0), false);
    var low, high := AndB(d, c[Port(p, 0)], Port(p, 0), Words), AndB(d, c[Port(p, 1)], Port(p, 1), Words);
    if k == 0 && h.inw.Some? {
      WordsPullDown(d, c[Port(p, 0)], Port(p, 0), i);
      BytesClearOnly(w, low, high, d.w(h.inw.value, Port(p, 0), h.device));
    }
    if h.inb.Some? && h.inw.None? {
      BytesPullDown(d, c[Port(p, k)], Port(p, k), Words, i);
      var x := d.b(h.inb.value, Port(p, k), h.device);
      JoinParts(And8(Low8(w), low), And8(High8(w), high));
      AndKeepsRight(Low8(w), low, x);
      AndKeepsRight(High8(w), high, x);
    }
  }

  /** The byte handlers' part clears bits only. */
  lemma BytesClearOnly(w: bv16, low: bv8, high: bv8, x: bv16)
    requires And16(w, x) == w
    ensures var r := Join16(And8(Low8(w), low), And8(High8(w), high)); And16(r, x) == r
  {
  }

  lemma JoinParts(low: bv8, high: bv8)
    ensures Low8(Join16(low, high)) == low && High8(Join16(low, high)) == high
  {
  }

  lemma AndKeepsRight(a: bv8, b: bv8, x: bv8)
    ensures And8(b, x) == b ==> And8(And8(a, b), x) == And8(a, b)
  {
  }

  lemma AndKeeps8(a: bv8, b: bv8, x: bv8)
    ensures And8(a, b) == a ==> And8(And8(a, x), b) == And8(a, x)
    ensures And8(And8(a, x), x) == And8(a, x)
  {
  }

  lemma AndKeeps(a: bv16, b: bv16, x: bv16)
    ensures And16(a, b) == a ==> And16(And16(a, x), b) == And16(a, x)
    ensures And16(And16(a, x), x) == And16(a, x)
  {
  }

  // ---- Writing ----

  datatype Call =
    | CallB(f: nat, p: nat, b: bv8, device: nat)
    | CallW(f: nat, p: nat, w: bv16, device: nat)
    | CallL(f: nat, p: nat, l: bv32, device: nat)

  predicate OutPassed(h: Handler, skip: Skip) {
    match skip
    case Nothing => true
    case Words => h.outw.None?
    case WordsAndLongs => h.outw.None? && h.outl.None?
  }

  function CallsB(hs: seq<Handler>, p: nat, b: bv8, skip: Skip): seq<Call> {
    if hs == [] then [] else
      var h := hs[|hs| - 1];
      CallsB(hs[..|hs| - 1], p, b, skip)
        + if h.outb.Some? && OutPassed(h, skip) then [CallB(h.outb.value, p, b, h.device)] else []
  }

  function CallsW(hs: seq<Handler>, p: nat, w: bv16, skipLongs: bool): seq<Call> {
    if hs == [] then [] else
      var h := hs[|hs| - 1];
      CallsW(hs[..|hs| - 1], p, w, skipLongs)
        + if h.outw.Some? && (skipLongs ==> h.outl.None?) then [CallW(h.outw.value, p, w, h.device)] else []
  }

  function CallsL(hs: seq<Handler>, p: nat, l: bv32): seq<Call> {
    if hs == [] then [] else
      var h := hs[|hs| - 1];
      CallsL(hs[..|hs| - 1], p, l) + if h.outl.Some? then [CallL(h.outl.value, p, l, h.device)] else []
  }

  function OutB(c: Chains, p: nat, b: bv8): seq<Call> {
    CallsB(c[Port(p, 0)], Port(p, 0), b, Nothing)
  }

  function OutW(c: Chains, p: nat, w: bv16): seq<Call> {
    CallsW(c[Port(p, 0)], Port(p, 0), w, false)
      + CallsB(c[Port(p, 0)], Port(p, 0), Low8(w), Words)
      + CallsB(c[Port(p, 1)], Port(p, 1), High8(w), Words)
  }

  function OutL(c: Chains, p: nat, l: bv32): seq<Call> {
    CallsL(c[Port(p, 0)], Port(p, 0), l)
      + CallsW(c[Port(p, 0)], Port(p, 0), Low16(l), true)
      + CallsW(c[Port(p, 2)], Port(p, 2), High16(l), true)
      + CallsB(c[Port(p, 0)], Port(p, 0), Low8(Low16(l)), WordsAndLongs)
      + CallsB(c[Port(p, 1)], Port(p, 1), High8(Low16(l)), WordsAndLongs)
      + CallsB(c[Port(p, 2)], Port(p, 2), Low8(High16(l)), WordsAndLongs)
      + CallsB(c[Port(p, 3)], Port(p, 3), High8(High16(l)), WordsAndLongs)
  }

  predicate NoWordsOut(hs: seq<Handler>) {
    forall i :: 0 <= i < |hs| ==> hs[i].outw.None?
  }

  predicate NoLongsOut(hs: seq<Handler>) {
    forall i :: 0 <= i < |hs| ==> hs[i].outl.None?
  }

  lemma {:induction false} CallsOfNoWords(hs: seq<Handler>, p: nat, w: bv16, b: bv8)
    requires NoWordsOut(hs)
    ensures CallsW(hs, p, w, false) == [] && CallsB(hs, p, b, Words) == CallsB(hs, p, b, Nothing)
  {
    if hs != [] { CallsOfNoWords(hs[..|hs| - 1], p, w, b); }
  }

  lemma {:induction false} CallsOfNoLongs(hs: seq<Handler>, p: nat, l: bv32, w: bv16, b: bv8)
    requires NoLongsOut(hs)
    ensures CallsL(hs, p, l) == [] && CallsW(hs, p, w, true) == CallsW(hs, p, w, false)
    ensures CallsB(hs, p, b, WordsAndLongs) == CallsB(hs, p, b, Words)
  {
    if hs != [] { CallsOfNoLongs(hs[..|hs| - 1], p, l, w, b); }
  }

  /** A word write where no handler takes words is two byte writes, in order. */
  lemma WordWritesAreBytes(c: Chains, p: nat, w: bv16)
    requires NoWordsOut(c[Port(p, 0)]) && NoWordsOut(c[Port(p, 1)])
    ensures OutW(c, p, w) == OutB(c, p, Low8(w)) + OutB(c, Port(p, 1), High8(w))
  {
    hide CallsB, CallsW, Low8, High8, Port;
    CallsOfNoWords(c[Port(p, 0)], Port(p, 0), w, Low8(w));
    CallsOfNoWords(c[Port(p, 1)], Port(p, 1), w, High8(w));
    PortsNext(p);
  }

  /** A long write where no handler takes longs makes the calls of two word writes, no
      more and no fewer, but all word handlers come before all byte handlers. */
  lemma LongWritesAreWords(c: Chains, p: nat, l: bv32)
    requires NoLongsOut(c[Port(p, 0)]) && NoLongsOut(c[Port(p, 1)]) && NoLongsOut(c[Port(p, 2)])
      && NoLongsOut(c[Port(p, 3)])
    ensures multiset(OutL(c, p, l)) == multiset(OutW(c, p, Low16(l)) + OutW(c, Port(p, 2), High16(l)))
  {
    hide CallsB, CallsW, CallsL, Low8, High8, Low16, High16, Port;
    var low, high := Low16(l), High16(l);
    CallsOfNoLongs(c[Port(p, 0)], Port(p, 0), l, low, Low8(low));
    CallsOfNoLongs(c[Port(p, 1)], Port(p, 1), l, low, High8(low));
    CallsOfNoLongs(c[Port(p, 2)], Port(p, 2), l, high, Low8(high));
    CallsOfNoLongs(c[Port(p, 3)], Port(p, 3), l, high, High8(high));
    PortsNext(p);
    Reordered(CallsW(c[Port(p, 0)], Port(p, 0), low, false), CallsB(c[Port(p, 0)], Port(p, 0), Low8(low), Words),
              CallsB(c[Port(p, 1)], Port(p, 1), High8(low), Words),
              CallsW(c[Port(p, 2)], Port(p, 2), high, false), CallsB(c[Port(p, 2)], Port(p, 2), Low8(high), Words),
              CallsB(c[Port(p, 3)], Port(p, 3), High8(high), Words));
  }

  lemma Reordered(a: seq<Call>, b: seq<Call>, c: seq<Call>, d: seq<Call>, e: seq<Call>, f: seq<Call>)
    ensures multiset([] + a + d + b + c + e + f) == multiset(a + b + c + (d + e + f))
  {
    assert [] + a == a;
  }

  // ---- Registration ----

  /** The ports a registration covers. */
  predicate Covers(base: nat, size: int, step: nat, p: nat)
    requires step > 0
  {
    base <= p < base + size && (p - base) % step == 0
  }

  /** Removal takes out the first entry equal to the given one. */
  function Without(hs: seq<Handler>, h: Handler): (r: seq<Handler>)
    ensures h !in hs ==> r == hs
    ensures h in hs ==> multiset(r) + multiset{h} == multiset(hs)
  {
    if hs == [] then []
    else if hs[0] == h then
      assert hs == [h] + hs[1..];
      hs[1..]
    else
      assert hs == [hs[0]] + hs[1..];
      [hs[0]] + Without(hs[1..], h)
  }

  /** Registering and removing again is the identity unless an equal handler was there
      before; then it moves the first such handler to the end. */
  lemma {:induction false} AppendThenRemove(hs: seq<Handler>, h: Handler)
    ensures Without(hs + [h], h) == if h in hs then Without(hs, h) + [h] else hs
  {
    if hs != [] {
      assert hs + [h] == [hs[0]] + (hs[1..] + [h]);
      AppendThenRemove(hs[1..], h);
    }
  }
}
