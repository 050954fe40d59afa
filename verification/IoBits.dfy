/** Port accesses bit by bit and call by call: which handlers decide a bit of what is read,
    and which are called for what is written. */
module IoBits {
  import opened Options
  import opened IoPorts
  import opened Division

  function One8(i: nat): bv8 {
    if i == 0 then 0x01 else if i == 1 then 0x02 else if i == 2 then 0x04 else if i == 3 then 0x08
    else if i == 4 then 0x10 else if i == 5 then 0x20 else if i == 6 then 0x40 else 0x80
  }

  function One16(i: nat): bv16 {
    if i < 8 then One8(i) as bv16 else One8(i - 8) as bv16 << 8
  }

  function One32(i: nat): bv32 {
    if i < 16 then One16(i) as bv32 else One16(i - 16) as bv32 << 16
  }

  predicate Bit8(b: bv8, i: nat) {
    b & One8(i) != 0
  }

  predicate Bit16(w: bv16, i: nat) {
    w & One16(i) != 0
  }

  predicate Bit32(l: bv32, i: nat) {
    l & One32(i) != 0
  }

  // ---- Bits of conjunctions and parts ----

  lemma BitOfAnd8(a: bv8, b: bv8, i: nat)
    requires i < 8
    ensures Bit8(And8(a, b), i) <==> Bit8(a, i) && Bit8(b, i)
    ensures Bit8(0xff, i)
  {
  }

  lemma BitOfJoin16(low: bv8, high: bv8, i: nat)
    requires i < 16
    ensures Bit16(Join16(low, high), i) <==> if i < 8 then Bit8(low, i) else Bit8(high, i - 8)
  {
  }

  lemma BitOfParts(w: bv16, i: nat)
    requires i < 8
    ensures Bit8(Low8(w), i) == Bit16(w, i) && Bit8(High8(w), i) == Bit16(w, i + 8)
  {
  }

  lemma PartsOfAnd(a: bv16, b: bv16)
    ensures Low8(And16(a, b)) == And8(Low8(a), Low8(b)) && High8(And16(a, b)) == And8(High8(a), High8(b))
    ensures Low8(0xffff) == 0xff && High8(0xffff) == 0xff
  {
  }

  lemma BitOfAnd16(a: bv16, b: bv16, i: nat)
    requires i < 16
    ensures Bit16(And16(a, b), i) <==> Bit16(a, i) && Bit16(b, i)
    ensures Bit16(0xffff, i)
  {
    hide And8, And16, Low8, High8, Bit8, Bit16;
    PartsOfAnd(a, b);
    var k := if i < 8 then i else i - 8;
    BitOfParts(a, k);
    BitOfParts(b, k);
    BitOfParts(And16(a, b), k);
    BitOfParts(0xffff, k);
    BitOfAnd8(Low8(a), Low8(b), k);
    BitOfAnd8(High8(a), High8(b), k);
  }

  lemma PartsOfJoin(low: bv16, high: bv16)
    ensures Low16(Join32(low, high)) == low && High16(Join32(low, high)) == high
  {
  }

  lemma BitOfJoin32(low: bv16, high: bv16, i: nat)
    requires i < 32
    ensures Bit32(Join32(low, high), i) <==> if i < 16 then Bit16(low, i) else Bit16(high, i - 16)
  {
    hide Join32, Low16, High16, Bit16, Bit32;
    PartsOfJoin(low, high);
    BitOfHalves(Join32(low, high), if i < 16 then i else i - 16);
  }

  lemma BitOfHalves(l: bv32, i: nat)
    requires i < 16
    ensures Bit16(Low16(l), i) == Bit32(l, i) && Bit16(High16(l), i) == Bit32(l, i + 16)
  {
  }

  lemma HalvesOfAnd(a: bv32, b: bv32)
    ensures Low16(a & b) == And16(Low16(a), Low16(b)) && High16(a & b) == And16(High16(a), High16(b))
    ensures Low16(0xffff_ffff) == 0xffff && High16(0xffff_ffff) == 0xffff
  {
  }

  lemma BitOfAnd32(a: bv32, b: bv32, i: nat)
    requires i < 32
    ensures Bit32(And32(a, b), i) <==> Bit32(a, i) && Bit32(b, i)
    ensures Bit32(0xffff_ffff, i)
  {
    hide And16, Low16, High16, Bit16, Bit32;
    HalvesOfAnd(a, b);
    var k := if i < 16 then i else i - 16;
    BitOfHalves(a, k);
    BitOfHalves(b, k);
    BitOfHalves(a & b, k);
    BitOfHalves(0xffff_ffff, k);
    BitOfAnd16(Low16(a), Low16(b), k);
    BitOfAnd16(High16(a), High16(b), k);
  }

  // ---- Which handlers drive a bit ----

  /** A byte handler lets bit i through, or takes no part: in an access by words those that
      read words are not asked for bytes, in one by longs neither those that read longs. */
  predicate ByteLets(d: Devices, h: Handler, p: nat, words: bool, longs: bool, i: nat) {
    h.inb.Some? && (words ==> h.inw.None?) && (longs ==> h.inl.None?) ==> Bit8(d.b(h.inb.value, p, h.device), i)
  }

  predicate WordLets(d: Devices, h: Handler, p: nat, longs: bool, i: nat) {
    h.inw.Some? && (longs ==> h.inl.None?) ==> Bit16(d.w(h.inw.value, p, h.device), i)
  }

  predicate LongLets(d: Devices, h: Handler, p: nat, i: nat) {
    h.inl.Some? ==> Bit32(d.l(h.inl.value, p, h.device), i)
  }

  function SkipOf(words: bool, longs: bool): Skip {
    if longs then WordsAndLongs else if words then Words else Nothing
  }

  lemma {:induction false} BytesDecide(d: Devices, hs: seq<Handler>, p: nat, words: bool, longs: bool, i: nat)
    requires i < 8 && (longs ==> words)
    ensures Bit8(AndB(d, hs, p, SkipOf(words, longs)), i)
      <==> forall k :: 0 <= k < |hs| ==> ByteLets(d, hs[k], p, words, longs, i)
  {
    hide And8, Bit8;
    var n := |hs| - 1;
    if hs == [] {
      BitOfAnd8(0, 0, i);
    } else {
      BytesDecide(d, hs[..n], p, words, longs, i);
      var h := hs[n];
      if h.inb.Some? { BitOfAnd8(AndB(d, hs[..n], p, SkipOf(words, longs)), d.b(h.inb.value, p, h.device), i); }
      LastOf(hs, k => ByteLets(d, k, p, words, longs, i));
    }
  }

  /** What holds of all holds of all but the last and of the last. */
  lemma LastOf(hs: seq<Handler>, ok: Handler -> bool)
    requires hs != []
    ensures var n := |hs| - 1;
      (forall k :: 0 <= k < |hs| ==> ok(hs[k])) <==> (forall k :: 0 <= k < n ==> ok(hs[..n][k])) && ok(hs[n])
  {
    var n := |hs| - 1;
    if (forall k :: 0 <= k < n ==> ok(hs[..n][k])) && ok(hs[n]) {
      forall k | 0 <= k < |hs| ensures ok(hs[k]) {
        if k < n { assert hs[..n][k] == hs[k]; }
      }
    }
  }

  lemma {:induction false} WordsDecide(d: Devices, hs: seq<Handler>, p: nat, longs: bool, i: nat)
    requires i < 16
    ensures Bit16(AndW(d, hs, p, longs), i) <==> forall k :: 0 <= k < |hs| ==> WordLets(d, hs[k], p, longs, i)
  {
    hide And16, Bit16;
    var n := |hs| - 1;
    if hs == [] {
      BitOfAnd16(0, 0, i);
    } else {
      WordsDecide(d, hs[..n], p, longs, i);
      var h := hs[n];
      if h.inw.Some? { BitOfAnd16(AndW(d, hs[..n], p, longs), d.w(h.inw.value, p, h.device), i); }
      LastOf(hs, k => WordLets(d, k, p, longs, i));
    }
  }

  function And32(a: bv32, b: bv32): bv32 {
    a & b
  }

  lemma LongsNext(d: Devices, hs: seq<Handler>, p: nat)
    ensures hs == [] ==> AndL(d, hs, p) == 0xffff_ffff
    ensures hs != [] ==>
      var h, rest := hs[|hs| - 1], AndL(d, hs[..|hs| - 1], p);
      AndL(d, hs, p) == if h.inl.Some? then And32(rest, d.l(h.inl.value, p, h.device)) else rest
  {
  }

  lemma {:induction false} LongsDecide(d: Devices, hs: seq<Handler>, p: nat, i: nat)
    requires i < 32
    ensures Bit32(AndL(d, hs, p), i) <==> forall k :: 0 <= k < |hs| ==> LongLets(d, hs[k], p, i)
  {
    hide Bit32, AndL, And32;
    var n := |hs| - 1;
    LongsNext(d, hs, p);
    if hs == [] {
      BitOfAnd32(0, 0, i);
    } else {
      LongsDecide(d, hs[..n], p, i);
      var h := hs[n];
      if h.inl.Some? { BitOfAnd32(AndL(d, hs[..n], p), d.l(h.inl.value, p, h.device), i); }
      LastOf(hs, k => LongLets(d, k, p, i));
    }
  }

  // ---- Reads ----

  ghost predicate AllBytesLet(d: Devices, hs: seq<Handler>, p: nat, words: bool, longs: bool, i: nat) {
    forall k :: 0 <= k < |hs| ==> ByteLets(d, hs[k], p, words, longs, i)
  }

  ghost predicate AllWordsLet(d: Devices, hs: seq<Handler>, p: nat, longs: bool, i: nat) {
    forall k :: 0 <= k < |hs| ==> WordLets(d, hs[k], p, longs, i)
  }

  ghost predicate AllLongsLet(d: Devices, hs: seq<Handler>, p: nat, i: nat) {
    forall k :: 0 <= k < |hs| ==> LongLets(d, hs[k], p, i)
  }

  /** A bit of a byte read is 1 exactly if every byte handler of the port has it 1. */
  lemma ByteReadBits(d: Devices, c: Chains, p: nat, i: nat)
    requires i < 8
    ensures var q := p % 0x1_0000; Bit8(InB(d, c, p), i) <==> AllBytesLet(d, c[q], q, false, false, i)
  {
    hide AndB;
    BytesDecide(d, c[Port(p, 0)], Port(p, 0), false, false, i);
  }

  lemma WithBytesBits(d: Devices, c: Chains, p: nat, w: bv16, longs: bool, i: nat)
    requires i < 16
    ensures var q, read := (p + i / 8) % 0x1_0000, WithBytes(d, c, p, w, SkipOf(true, longs));
      Bit16(read, i) <==> Bit16(w, i) && AllBytesLet(d, c[q], q, true, longs, i % 8)
  {
    hide AndB, And8, Bit8, Bit16, Join16, Low8, High8, ByteLets;
    var q := Port(p, if i < 8 then 0 else 1);
    var low := AndB(d, c[Port(p, 0)], Port(p, 0), SkipOf(true, longs));
    var high := AndB(d, c[Port(p, 1)], Port(p, 1), SkipOf(true, longs));
    BytesDecide(d, c[q], q, true, longs, i % 8);
    BitOfJoin16(And8(Low8(w), low), And8(High8(w), high), i);
    BitOfParts(w, i % 8);
    BitOfAnd8(Low8(w), low, i % 8);
    BitOfAnd8(High8(w), high, i % 8);
  }

  /** A bit of a word read is 1 exactly if every word handler of the port has it 1, and
      every byte handler of the bit's own port that does not read words. */
  lemma WordReadBits(d: Devices, c: Chains, p: nat, i: nat)
    requires i < 16
    ensures var q, r := p % 0x1_0000, (p + i / 8) % 0x1_0000;
      Bit16(InW(d, c, p), i) <==> AllWordsLet(d, c[q], q, false, i) && AllBytesLet(d, c[r], r, true, false, i % 8)
  {
    hide AndB, AndW, Bit8, Bit16, WithBytes, ByteLets, WordLets, Port, AllBytesLet;
    PortIs(p);
    WordsDecide(d, c[Port(p, 0)], Port(p, 0), false, i);
    WithBytesBits(d, c, p, AndW(d, c[Port(p, 0)], Port(p, 0), false), false, i);
  }

  lemma PortIs(p: nat)
    ensures Port(p, 0) == p % 0x1_0000 && Port(p, 2) == (p + 2) % 0x1_0000
    ensures Port(p, 2) % 0x1_0000 == (p + 2) % 0x1_0000 && (Port(p, 2) + 1) % 0x1_0000 == (p + 3) % 0x1_0000
  {
  }

  /** A bit of a long read is 1 exactly if every long handler of the port has it 1, every
      word handler of its half's port that does not read longs, and every byte handler of
      its own port that reads neither. */
  lemma LongReadBits(d: Devices, c: Chains, p: nat, i: nat)
    requires i < 32
    ensures var q, r, t := p % 0x1_0000, (p + i / 16 * 2) % 0x1_0000, (p + i / 8) % 0x1_0000;
      Bit32(InL(d, c, p), i) <==>
        && AllLongsLet(d, c[q], q, i) && AllWordsLet(d, c[r], r, true, i % 16)
        && AllBytesLet(d, c[t], t, true, true, i % 8)
  {
    hide AndB, AndW, AndL, And16, Bit8, Bit16, Bit32, WithBytes, Join32, Low16, High16, ByteLets, WordLets, LongLets;
    hide Port, AllBytesLet;
    PortIs(p);
    var l := AndL(d, c[Port(p, 0)], Port(p, 0));
    var w0, w2 := AndW(d, c[Port(p, 0)], Port(p, 0), true), AndW(d, c[Port(p, 2)], Port(p, 2), true);
    LongsDecide(d, c[Port(p, 0)], Port(p, 0), i);
    BitOfHalves(l, i % 16);
    if i < 16 {
      WordsDecide(d, c[Port(p, 0)], Port(p, 0), true, i);
      BitOfAnd16(Low16(l), w0, i);
      WithBytesBits(d, c, p, And16(Low16(l), w0), true, i);
    } else {
      WordsDecide(d, c[Port(p, 2)], Port(p, 2), true, i - 16);
      BitOfAnd16(High16(l), w2, i - 16);
      WithBytesBits(d, c, Port(p, 2), And16(High16(l), w2), true, i - 16);
    }
    BitOfJoin32(WithBytes(d, c, p, And16(Low16(l), w0), WordsAndLongs),
                WithBytes(d, c, Port(p, 2), And16(High16(l), w2), WordsAndLongs), i);
  }

  // ---- Writes ----

  /** Some handler of the chain makes the call with a byte. */
  ghost predicate ByteCalled(x: Call, hs: seq<Handler>, p: nat, b: bv8, words: bool, longs: bool) {
    exists k :: 0 <= k < |hs| && MakesByteCall(hs[k], x, p, b, words, longs)
  }

  predicate MakesByteCall(h: Handler, x: Call, p: nat, b: bv8, words: bool, longs: bool) {
    && h.outb.Some? && (words ==> h.outw.None?) && (longs ==> h.outl.None?)
    && x == CallB(h.outb.value, p, b, h.device)
  }

  ghost predicate WordCalled(x: Call, hs: seq<Handler>, p: nat, w: bv16, longs: bool) {
    exists k :: 0 <= k < |hs| && MakesWordCall(hs[k], x, p, w, longs)
  }

  predicate MakesWordCall(h: Handler, x: Call, p: nat, w: bv16, longs: bool) {
    h.outw.Some? && (longs ==> h.outl.None?) && x == CallW(h.outw.value, p, w, h.device)
  }

  ghost predicate LongCalled(x: Call, hs: seq<Handler>, p: nat, l: bv32) {
    exists k :: 0 <= k < |hs| && MakesLongCall(hs[k], x, p, l)
  }

  predicate MakesLongCall(h: Handler, x: Call, p: nat, l: bv32) {
    h.outl.Some? && x == CallL(h.outl.value, p, l, h.device)
  }

  lemma SomeOf(hs: seq<Handler>, made: Handler -> bool)
    requires hs != []
    ensures var n := |hs| - 1;
      (exists k :: 0 <= k < |hs| && made(hs[k])) <==> (exists k :: 0 <= k < n && made(hs[..n][k])) || made(hs[n])
  {
    var n := |hs| - 1;
    if k :| 0 <= k < |hs| && made(hs[k]) {
      if k < n { assert made(hs[..n][k]); }
    }
    if k :| 0 <= k < n && made(hs[..n][k]) { assert made(hs[k]); }
  }

  lemma {:induction false} BytesCalled(x: Call, hs: seq<Handler>, p: nat, b: bv8, words: bool, longs: bool)
    requires longs ==> words
    ensures x in CallsB(hs, p, b, SkipOf(words, longs)) <==> ByteCalled(x, hs, p, b, words, longs)
  {
    if hs != [] {
      BytesCalled(x, hs[..|hs| - 1], p, b, words, longs);
      SomeOf(hs, h => MakesByteCall(h, x, p, b, words, longs));
    }
  }

  lemma {:induction false} WordsCalled(x: Call, hs: seq<Handler>, p: nat, w: bv16, longs: bool)
    ensures x in CallsW(hs, p, w, longs) <==> WordCalled(x, hs, p, w, longs)
  {
    if hs != [] {
      WordsCalled(x, hs[..|hs| - 1], p, w, longs);
      SomeOf(hs, h => MakesWordCall(h, x, p, w, longs));
    }
  }

  lemma {:induction false} LongsCalled(x: Call, hs: seq<Handler>, p: nat, l: bv32)
    ensures x in CallsL(hs, p, l) <==> LongCalled(x, hs, p, l)
  {
    if hs != [] {
      LongsCalled(x, hs[..|hs| - 1], p, l);
      SomeOf(hs, h => MakesLongCall(h, x, p, l));
    }
  }

  /** A byte write makes the calls of the port's byte handlers and no others. */
  lemma ByteWriteCalls(c: Chains, p: nat, b: bv8, x: Call)
    ensures var q := p % 0x1_0000; x in OutB(c, p, b) <==> ByteCalled(x, c[q], q, b, false, false)
  {
    hide CallsB, ByteCalled;
    BytesCalled(x, c[Port(p, 0)], Port(p, 0), b, false, false);
  }

  /** A word write calls the port's word handlers with the word, and the byte handlers of
      the two ports that do not take words with its halves. */
  lemma WordWriteCalls(c: Chains, p: nat, w: bv16, x: Call)
    ensures var q, r := p % 0x1_0000, (p + 1) % 0x1_0000;
      x in OutW(c, p, w) <==>
        || WordCalled(x, c[q], q, w, false)
        || ByteCalled(x, c[q], q, Low8(w), true, false) || ByteCalled(x, c[r], r, High8(w), true, false)
  {
    hide CallsB, CallsW, ByteCalled, WordCalled, Low8, High8;
    WordsCalled(x, c[Port(p, 0)], Port(p, 0), w, false);
    BytesCalled(x, c[Port(p, 0)], Port(p, 0), Low8(w), true, false);
    BytesCalled(x, c[Port(p, 1)], Port(p, 1), High8(w), true, false);
  }

  /** A long write calls the port's long handlers with the long, the word handlers of two
      ports that do not take longs with its halves, and the byte handlers of four ports that
      take neither with its bytes. */
  lemma LongWriteCalls(c: Chains, p: nat, l: bv32, x: Call)
    ensures var q, r, s, t := p % 0x1_0000, (p + 1) % 0x1_0000, (p + 2) % 0x1_0000, (p + 3) % 0x1_0000;
      var low, high := Low16(l), High16(l);
      x in OutL(c, p, l) <==>
        || LongCalled(x, c[q], q, l)
        || WordCalled(x, c[q], q, low, true) || WordCalled(x, c[s], s, high, true)
        || ByteCalled(x, c[q], q, Low8(low), true, true) || ByteCalled(x, c[r], r, High8(low), true, true)
        || ByteCalled(x, c[s], s, Low8(high), true, true) || ByteCalled(x, c[t], t, High8(high), true, true)
  {
    hide CallsB, CallsW, CallsL, ByteCalled, WordCalled, LongCalled, Low8, High8, Low16, High16;
    var low, high := Low16(l), High16(l);
    LongsCalled(x, c[Port(p, 0)], Port(p, 0), l);
    WordsCalled(x, c[Port(p, 0)], Port(p, 0), low, true);
    WordsCalled(x, c[Port(p, 2)], Port(p, 2), high, true);
    BytesCalled(x, c[Port(p, 0)], Port(p, 0), Low8(low), true, true);
    BytesCalled(x, c[Port(p, 1)], Port(p, 1), High8(low), true, true);
    BytesCalled(x, c[Port(p, 2)], Port(p, 2), Low8(high), true, true);
    BytesCalled(x, c[Port(p, 3)], Port(p, 3), High8(high), true, true);
  }

  // ---- The order of the calls, and the ports of a registration ----

  lemma {:induction false} ChainsAppend(hs: seq<Handler>, more: seq<Handler>, p: nat, b: bv8, w: bv16, l: bv32,
                                        skip: Skip, skipLongs: bool)
    ensures CallsB(hs + more, p, b, skip) == CallsB(hs, p, b, skip) + CallsB(more, p, b, skip)
    ensures CallsW(hs + more, p, w, skipLongs) == CallsW(hs, p, w, skipLongs) + CallsW(more, p, w, skipLongs)
    ensures CallsL(hs + more, p, l) == CallsL(hs, p, l) + CallsL(more, p, l)
  {
    if more == [] {
      assert hs + more == hs;
    } else {
      var n := |more| - 1;
      assert (hs + more)[..|hs + more| - 1] == hs + more[..n];
      ChainsAppend(hs, more[..n], p, b, w, l, skip, skipLongs);
    }
  }

  /** The handlers of a port are called in the order in which they were registered: the calls
      of two chains put together are those of the first, then those of the second. */
  lemma ByteWritesInOrder(c: Chains, p: nat, hs: seq<Handler>, more: seq<Handler>, b: bv8)
    requires c[p % 0x1_0000] == hs + more
    ensures var q := p % 0x1_0000;
      OutB(c, p, b) == OutB(c[q := hs], p, b) + OutB(c[q := more], p, b)
  {
    ChainsAppend(hs, more, p % 0x1_0000, b, 0, 0, Nothing, false);
    hide CallsB;
  }

  /** A registration covers every step-th port of its range, counted from its base. */
  lemma CoveredPorts(base: nat, size: int, step: nat, p: nat)
    requires step > 0
    ensures Covers(base, size, step, p) <==> exists k: nat :: p == Nth(base, step, k) && Nth(0, step, k) < size
  {
    if Covers(base, size, step, p) {
      var k := (p - base) / step;
      assert p - base == step * k + (p - base) % step;
      assert p == Nth(base, step, k) && Nth(0, step, k) < size;
    }
    if k: nat :| p == Nth(base, step, k) && Nth(0, step, k) < size {
      ModUnique(p - base, k, 0, step);
    }
  }

  function Nth(base: nat, step: nat, k: nat): nat {
    base + step * k
  }
}
