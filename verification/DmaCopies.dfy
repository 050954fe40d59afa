/** Whole transfers to memory, and memory-to-memory transfers. */
module DmaCopies {
  import opened DmaMemory
  import opened Division
  import opened DmaChannels

  // ---- Writing ----

  /** How far one write moves the address: words going down move twice as far as they should. */
  function WriteStride(c: Chan): int {
    if c.wide && Down(c) then 2 * Stride(c) else Stride(c)
  }

  lemma WriteMoves(c: Chan, k: nat, space: nat)
    requires c.ab < space && (space == 0x100_0000 || space == SPACE)
    ensures AfterWrite(c.(ac := At(c, WriteStride(c), k)), space) == At(c, WriteStride(c), k + 1)
  {
    hide Moved;
    var step := WriteStride(c);
    assert step * (k + 1) == step * k + step;
    MovedAgain(c.ab, Page(c), step * k, Stride(c), space);
    if c.wide && Down(c) { MovedAgain(c.ab, Page(c), step * k + Stride(c), Stride(c), space); }
  }

  /** Memory after the values have been stored from the base address on. */
  function Put(m: Memory, c: Chan, values: seq<nat>): Memory {
    if values == [] then m else
      var k := |values| - 1;
      Stored(Put(m, c, values[..k]), c.wide, At(c, WriteStride(c), k), values[k])
  }

  /** The channel after it has written the first values of its count. */
  function WroteAt(d: Dma, ch: nat, values: seq<nat>): Dma
    requires ch < |d.chans|
  {
    var c := d.chans[ch];
    var n := |values|;
    var again := n > c.cb && Auto(c);
    d.(mem := Put(d.mem, c, values),
       chans := d.chans[ch := c.(cc := if again then c.cb else c.cb - n,
                                 ac := if again then c.ab else At(c, WriteStride(c), n))],
       requested := if n == 0 then d.requested else d.requested + {ch},
       masked := if n > c.cb && !Auto(c) then d.masked + {ch} else d.masked,
       done := if n > c.cb then d.done + {ch} else d.done)
  }

  /** An admitted write, in one piece. */
  lemma WriteEffect(d: Dma, ch: nat, value: nat)
    requires Valid(d) && ch < 8 && Admits(d, ch, WRITE) && ch !in d.pending
    ensures var c := d.chans[ch]; var tc := c.cc <= 0;
      Write(d, ch, value).0 ==
        d.(chans := d.chans[ch := c.(cc := if tc && Auto(c) then c.cb else c.cc - 1,
                                     ac := if tc && Auto(c) then c.ab else AfterWrite(c, d.space))],
           masked := if tc && !Auto(c) then d.masked + {ch} else d.masked,
           done := if tc then d.done + {ch} else d.done,
           requested := d.requested + {ch},
           mem := Stored(d.mem, c.wide, c.ac, value))
  {
    hide AfterWrite, Stored, Admits;
    var c := d.chans[ch];
    var tc, to := c.cc <= 0, AfterWrite(c, d.space);
    var last := c.(cc := if tc && Auto(c) then c.cb else c.cc - 1, ac := if tc && Auto(c) then c.ab else to);
    assert d.chans[ch := c.(ac := to)][ch := last] == d.chans[ch := last];
    assert d.pending - {ch} == d.pending;
    if c.cc > 0 {} else if Auto(c) {} else {}
  }

  lemma WroteNext(d: Dma, ch: nat, values: seq<nat>, value: nat)
    requires Programmed(d, ch) && Admits(d, ch, WRITE) && |values| <= d.chans[ch].cb
    ensures Write(WroteAt(d, ch, values), ch, value).0 == WroteAt(d, ch, values + [value])
  {
    hide At, Moved, Stored;
    var c := d.chans[ch];
    var n := |values|;
    WriteMoves(c, n, d.space);
    WriteEffect(WroteAt(d, ch, values), ch, value);
    hide Write;
    assert (values + [value])[..n] == values;
    var e := Write(WroteAt(d, ch, values), ch, value).0;
    var f := WroteAt(d, ch, values + [value]);
    assert e.chans == f.chans;
    assert e.requested == f.requested;
    assert e.mem == f.mem;
  }

  /** A programmed transfer to memory, up to its whole count, in closed form. */
  lemma {:induction false} ProgrammedWrites(d: Dma, ch: nat, values: seq<nat>)
    requires Programmed(d, ch) && Admits(d, ch, WRITE) && |values| <= d.chans[ch].cb + 1
    ensures Writes(d, ch, values) == WroteAt(d, ch, values)
  {
    hide At, Write, Admits, Stride;
    if values == [] {
      var c := d.chans[ch];
      AtStartWrite(c);
      assert d.chans[ch := c] == d.chans;
    } else {
      var k := |values| - 1;
      ProgrammedWrites(d, ch, values[..k]);
      WroteNext(d, ch, values[..k], values[k]);
      assert values[..k] + [values[k]] == values;
    }
  }

  lemma AtStartWrite(c: Chan)
    ensures At(c, WriteStride(c), 0) == c.ab
  {
    AtStart(c, WriteStride(c));
  }

  // ---- Bytes ----

  function ByteOf(value: int): Byte {
    (value % 0x100) as Byte
  }

  function ByteCells(c: Chan, n: nat): (cells: seq<nat>)
    ensures |cells| == n && forall i :: 0 <= i < n ==> cells[i] == Cell(At(c, Stride(c), i))
  {
    seq(n, i requires 0 <= i < n => Cell(At(c, Stride(c), i)))
  }

  function LowBytes(values: seq<nat>): (d: seq<Byte>)
    ensures |d| == |values| && forall i :: 0 <= i < |d| ==> d[i] == ByteOf(values[i])
  {
    seq(|values|, i requires 0 <= i < |values| => ByteOf(values[i]))
  }

  lemma {:induction false} PutScatters(m: Memory, c: Chan, values: seq<nat>)
    requires !c.wide
    ensures Put(m, c, values) == Scatter(m, ByteCells(c, |values|), LowBytes(values))
  {
    hide At, Cell, Stride, Poke;
    if values != [] {
      var k := |values| - 1;
      PutScatters(m, c, values[..k]);
      var cells, d := ByteCells(c, |values|), LowBytes(values);
      assert cells[..k] == ByteCells(c, k);
      assert d[..k] == LowBytes(values[..k]);
      PokeOne(Put(m, c, values[..k]), At(c, WriteStride(c), k), ByteOf(values[k]));
    }
  }

  /** Up to a whole page of byte transfers touches no cell twice. */
  lemma CellsDistinct(c: Chan, n: nat, space: nat)
    requires !c.wide && n <= 0x10000 && c.ab < space && (space == 0x100_0000 || space == SPACE)
    ensures Distinct(ByteCells(c, n))
  {
    forall i, j | 0 <= i < j < n
      ensures ByteCells(c, n)[i] != ByteCells(c, n)[j]
    {
      CellsDiffer(c.ab, Stride(c), i, j, space);
    }
  }

  lemma CellsDiffer(a: nat, step: int, i: nat, j: nat, space: nat)
    requires i < j < 0x10000 && (step == 1 || step == -1) && a < space && (space == 0x100_0000 || space == SPACE)
    ensures Cell(a / 0x10000 * 0x10000 + (a + step * i) % 0x10000)
      != Cell(a / 0x10000 * 0x10000 + (a + step * j) % 0x10000)
  {
    hide Cell;
    if step == 1 {
      assert step * i == i && step * j == j;
      CellsApart(a, a + j, j - i, space);
    } else {
      assert a + step * i == a - i && a + step * j == a - j;
      CellsApart(a, a - i, j - i, space);
    }
  }

  /** Two bytes of a page, k apart. */
  lemma CellsApart(a: nat, b: int, k: nat, space: nat)
    requires 0 < k < 0x10000 && a < space && (space == 0x100_0000 || space == SPACE)
    ensures Cell(a / 0x10000 * 0x10000 + b % 0x10000) != Cell(a / 0x10000 * 0x10000 + (b - k) % 0x10000)
  {
    hide Cell;
    var p, q := b % 0x10000, (b - k) % 0x10000;
    InPage64(a, p, space);
    InPage64(a, q, space);
    OffsetsDiffer(b - k, k);
    CellInSpace(a / 0x10000 * 0x10000 + p);
    CellInSpace(a / 0x10000 * 0x10000 + q);
  }

  lemma OffsetsDiffer(b: int, k: nat)
    requires 0 < k < 0x10000
    ensures b % 0x10000 != (b + k) % 0x10000
  {
  }

  lemma CellInSpace(a: nat)
    requires a < SPACE
    ensures Cell(a) == a
  {
  }

  // ---- Memory to memory ----

  function Taken(r: Reply): Byte {
    if r.NoData? then 0xff else ByteOf(r.value)
  }

  function Received(rs: seq<Reply>): (d: seq<Byte>)
    ensures |d| == |rs| && forall i :: 0 <= i < |d| ==> d[i] == Taken(rs[i])
  {
    seq(|rs|, i requires 0 <= i < |rs| => Taken(rs[i]))
  }

  function Values(d: seq<Byte>): (vs: seq<nat>)
    ensures |vs| == |d| && forall i :: 0 <= i < |vs| ==> vs[i] == d[i] as nat
  {
    seq(|d|, i requires 0 <= i < |d| => d[i] as nat)
  }

  datatype Outcome = Fatal | Copied(dma: Dma, buffer: seq<Byte>)

  /** Channel 0 fills the buffer, channel 1 empties it. */
  function MemToMem(d: Dma, buffer: seq<Byte>): Outcome
    requires Valid(d) && |buffer| == 0x10000 && d.chans[0].cb < 0x10000 && d.chans[1].cb < 0x10000
  {
    if d.chans[0].mode & 0xc != READ || d.chans[1].mode & 0xc != WRITE then Fatal else
      var (e, rs) := Reads(d.(soft := true), 0, d.chans[0].cb + 1);
      var filled := Received(rs) + buffer[d.chans[0].cb + 1..];
      Copied(Writes(e, 1, Values(filled[..d.chans[1].cb + 1])).(soft := false), filled)
  }

  /** What a whole software-requested pass over the count reads, with or without
      auto-initialise; it leaves memory and the other channels alone. */
  lemma WholePass(d: Dma, ch: nat)
    requires Programmed(d, ch) && Admits(d, ch, READ) && d.soft
    ensures var c := d.chans[ch]; var (e, rs) := Reads(d, ch, c.cb + 1);
      && (forall i :: 0 <= i <= c.cb ==> rs[i] == Data(Fetched(d.mem, c.wide, At(c, Stride(c), i)), i == c.cb))
      && e.mem == d.mem && e.enabled == d.enabled && e.off == d.off && e.soft && e.pending == d.pending
        && e.space == d.space
      && |e.chans| == 8 && forall k :: 0 <= k < 8 && k != ch ==> e.chans[k] == d.chans[k]
  {
    hide At, Fetched, Admits, Reads, Phase, Periods, Stride;
    var c := d.chans[ch];
    if Auto(c) {
      AutoReads(d, ch, c.cb + 1);
      var rs := Reads(d, ch, c.cb + 1).1;
      forall i | 0 <= i <= c.cb
        ensures rs[i] == Data(Fetched(d.mem, c.wide, At(c, Stride(c), i)), i == c.cb)
      {
        FirstLap(i, c.cb + 1);
      }
    } else {
      OnceReads(d, ch, c.cb + 1);
    }
  }

  lemma FirstLap(i: nat, n: nat)
    requires i < n
    ensures Phase(i, n) == i && (Phase(i + 1, n) == 0 <==> i + 1 == n)
  {
    ModUnique(i, 0, i, n);
    if i + 1 == n { ModUnique(i + 1, 1, 0, n); } else { ModUnique(i + 1, 0, i + 1, n); }
  }

  /** Both channels may take part: set up, enabled and carrying bytes. */
  predicate Ready(d: Dma) {
    && Programmed(d, 0) && Programmed(d, 1)
    && !d.chans[0].wide && !d.chans[1].wide
    && 0 !in d.off && 0 in d.enabled && 1 in d.enabled
    && d.chans[0].mode & 0xc == READ && d.chans[1].mode & 0xc == WRITE
  }

  lemma Buffered(d: Dma, buffer: seq<Byte>)
    requires Ready(d) && |buffer| == 0x10000
    ensures MemToMem(d, buffer).Copied?
    ensures var c := d.chans[0]; var filled := MemToMem(d, buffer).buffer;
      |filled| == 0x10000
      && (forall i :: 0 <= i <= c.cb ==> filled[i] == d.mem[Cell(At(c, Stride(c), i))])
      && forall i :: c.cb < i < 0x10000 ==> filled[i] == buffer[i]
  {
    hide At, Cell, Reads, Writes, Stride;
    WholePass(d.(soft := true), 0);
  }

  lemma Emptied(d: Dma, buffer: seq<Byte>)
    requires Ready(d) && |buffer| == 0x10000
    ensures var c := d.chans[1]; var out := MemToMem(d, buffer);
      |out.buffer| == 0x10000 && out.dma.mem == Put(d.mem, c, Values(out.buffer[..c.cb + 1]))
  {
    hide At, Cell, Reads, Writes, Stride, Put;
    var s := d.(soft := true);
    WholePass(s, 0);
    var e := Reads(s, 0, d.chans[0].cb + 1).0;
    assert Programmed(e, 1);
    var filled := MemToMem(d, buffer).buffer;
    ProgrammedWrites(e, 1, Values(filled[..d.chans[1].cb + 1]));
  }

  /** Memory-to-memory transfers move like memmove: every cell of the destination, up to
      page wrap and in either direction, ends up with what its source cell held before
      the transfer began, even if the two overlap; cells beyond the source count get the
      bytes left in the buffer; no other cell changes. */
  lemma MemToMemMoves(d: Dma, buffer: seq<Byte>)
    requires Ready(d) && |buffer| == 0x10000
    ensures MemToMem(d, buffer).Copied?
    ensures var src := d.chans[0]; var dst := d.chans[1]; var after := MemToMem(d, buffer).dma.mem;
      && (forall i :: 0 <= i <= dst.cb ==>
            after[Cell(At(dst, Stride(dst), i))]
              == if i <= src.cb then d.mem[Cell(At(src, Stride(src), i))] else buffer[i])
      && forall x :: 0 <= x < SPACE && x !in ByteCells(dst, dst.cb + 1) ==> after[x] == d.mem[x]
  {
    hide At, Cell, MemToMem, Stride, Put, Scatter;
    var dst := d.chans[1];
    Buffered(d, buffer);
    Emptied(d, buffer);
    var bytes := MemToMem(d, buffer).buffer[..dst.cb + 1];
    PutScatters(d.mem, dst, Values(bytes));
    assert LowBytes(Values(bytes)) == bytes;
    CellsDistinct(dst, dst.cb + 1, d.space);
    ScatterAt(d.mem, ByteCells(dst, dst.cb + 1), bytes);
    hide Distinct;
    forall i | 0 <= i <= dst.cb
      ensures MemToMem(d, buffer).dma.mem[Cell(At(dst, Stride(dst), i))] == bytes[i]
    {
      assert ByteCells(dst, dst.cb + 1)[i] == Cell(At(dst, Stride(dst), i));
    }
  }
}
