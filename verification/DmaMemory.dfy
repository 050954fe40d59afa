/** Physical memory as the bus masters see it: bytes at 32-bit addresses that wrap. */
module DmaMemory {

  const SPACE: int := 0x1_0000_0000

  newtype Byte = x: int | 0 <= x < 256

  type Memory = m: seq<Byte> | |m| == SPACE ghost witness seq(SPACE, _ => 0)

  function Cell(a: int): (x: nat)
    ensures x < SPACE
  {
    a % SPACE
  }

  /** How far cell x lies behind address a. */
  function Offset(a: int, x: nat): (o: nat)
    ensures o < SPACE
  {
    (x - a) % SPACE
  }

  lemma OffsetOfCell(a: int, i: nat)
    requires i < SPACE
    ensures Offset(a, Cell(a + i)) == i
  {
  }

  lemma CellAtOffset(a: int, x: nat)
    requires x < SPACE
    ensures Cell(a + Offset(a, x)) == x
  {
  }

  lemma OffsetMoves(a: int, k: nat, x: nat)
    requires k <= SPACE
    ensures Offset(a + k, x) == Offset(a, x) - k + if Offset(a, x) >= k then 0 else SPACE
  {
  }

  lemma CellWraps(a: int, i: int)
    ensures Cell(Cell(a) + i) == Cell(a + i)
  {
  }

  /** The n bytes from address a. */
  function Peek(m: Memory, a: int, n: nat): (d: seq<Byte>)
    ensures |d| == n
  {
    seq(n, i requires 0 <= i < n => m[Cell(a + i)])
  }

  /** Memory with the given bytes stored from address a. */
  function Poke(m: Memory, a: int, d: seq<Byte>): Memory {
    seq(SPACE, x requires 0 <= x < SPACE => if Offset(a, x) < |d| then d[Offset(a, x)] else m[x])
  }

  /** What is stored is read back, and nothing else has changed. */
  lemma PeekPoke(m: Memory, a: int, d: seq<Byte>)
    requires |d| <= SPACE
    ensures Peek(Poke(m, a, d), a, |d|) == d
    ensures forall x :: 0 <= x < SPACE && Offset(a, x) >= |d| ==> Poke(m, a, d)[x] == m[x]
  {
    hide Cell, Offset;
    forall i | 0 <= i < |d|
      ensures Peek(Poke(m, a, d), a, |d|)[i] == d[i]
    {
      OffsetOfCell(a, i);
    }
  }

  lemma PokeAppend(m: Memory, a: int, d: seq<Byte>, e: seq<Byte>)
    requires |d| + |e| <= SPACE
    ensures Poke(Poke(m, a, d), a + |d|, e) == Poke(m, a, d + e)
  {
    hide Cell, Offset;
    var p, q := Poke(Poke(m, a, d), a + |d|, e), Poke(m, a, d + e);
    forall x | 0 <= x < SPACE
      ensures p[x] == q[x]
    {
      OffsetMoves(a, |d|, x);
    }
  }

  lemma PeekAppend(m: Memory, a: int, n: nat, k: nat)
    ensures Peek(m, a, n) + Peek(m, a + n, k) == Peek(m, a, n + k)
  {
    hide Cell;
    var p, q := Peek(m, a, n) + Peek(m, a + n, k), Peek(m, a, n + k);
    forall i | 0 <= i < n + k
      ensures p[i] == q[i]
    {
      if i >= n { assert a + n + (i - n) == a + i; }
    }
  }

  lemma PokeNothing(m: Memory, a: int)
    ensures Poke(m, a, []) == m
  {
  }

  /** Storing back what is already there behind the new bytes changes only those. */
  lemma PokeMerged(m: Memory, a: int, d: seq<Byte>, k: nat)
    requires |d| + k <= SPACE
    ensures Poke(m, a, d + Peek(m, a + |d|, k)) == Poke(m, a, d)
  {
    hide Cell, Offset;
    var e := Peek(m, a + |d|, k);
    var p, q := Poke(m, a, d + e), Poke(m, a, d);
    forall x | 0 <= x < SPACE
      ensures p[x] == q[x]
    {
      CellAtOffset(a, x);
      var o := Offset(a, x);
      if |d| <= o < |d| + k {
        assert e[o - |d|] == m[Cell(a + |d| + (o - |d|))];
        assert a + |d| + (o - |d|) == a + o;
      }
    }
  }

  // ---- Bytes at scattered cells ----

  /** Stores the bytes one after the other, each in its cell. */
  function Scatter(m: Memory, cells: seq<nat>, d: seq<Byte>): Memory
    requires |cells| == |d| && forall i :: 0 <= i < |cells| ==> cells[i] < SPACE
  {
    if d == [] then m else
      var k := |d| - 1;
      Scatter(m, cells[..k], d[..k])[cells[k] := d[k]]
  }

  predicate Distinct(cells: seq<nat>) {
    forall i, j :: 0 <= i < j < |cells| ==> cells[i] != cells[j]
  }

  /** Every cell then holds its byte, if no two are the same, and all others are as before. */
  lemma {:induction false} ScatterAt(m: Memory, cells: seq<nat>, d: seq<Byte>)
    requires |cells| == |d| && forall i :: 0 <= i < |cells| ==> cells[i] < SPACE
    ensures Distinct(cells) ==> forall i :: 0 <= i < |cells| ==> Scatter(m, cells, d)[cells[i]] == d[i]
    ensures forall x :: 0 <= x < SPACE && x !in cells ==> Scatter(m, cells, d)[x] == m[x]
  {
    if d != [] {
      var k := |d| - 1;
      ScatterAt(m, cells[..k], d[..k]);
      assert Distinct(cells) ==> Distinct(cells[..k]);
    }
  }

  // ---- Accesses of 1, 2 or 4 bytes, and the copies made of them ----

  predicate Width(n: int) {
    n == 1 || n == 2 || n == 4
  }

  method ReadPhys(mem: array<Byte>, a: nat, width: nat) returns (d: seq<Byte>)
    requires mem.Length == SPACE && Width(width)
    ensures d == Peek(mem[..], a, width)
  {
    hide Cell;
    d := [];
    while |d| < width
      invariant |d| <= width && d == Peek(mem[..], a, |d|)
    {
      d := d + [mem[Cell(a + |d|)]];
    }
  }

  method WritePhys(mem: array<Byte>, a: nat, d: seq<Byte>)
    requires mem.Length == SPACE && Width(|d|)
    modifies mem
    ensures mem[..] == Poke(old(mem[..]), a, d)
  {
    hide Cell, Offset, Poke;
    ghost var m: Memory := mem[..];
    PokeNothing(m, a);
    var i := 0;
    while i < |d|
      invariant i <= |d| && mem[..] == Poke(m, a, d[..i])
    {
      PokeOne(mem[..], a + i, d[i]);
      PokeAppend(m, a, d[..i], [d[i]]);
      assert d[..i] + [d[i]] == d[..i + 1];
      mem[Cell(a + i)] := d[i];
      i := i + 1;
    }
    assert d[..i] == d;
  }

  lemma PokeOne(m: Memory, a: int, b: Byte)
    ensures m[Cell(a) := b] == Poke(m, a, [b])
  {
    OffsetOfCell(a, 0);
    hide Cell, Offset;
    forall x | 0 <= x < SPACE && Offset(a, x) == 0
      ensures x == Cell(a)
    {
      CellAtOffset(a, x);
    }
  }

  /** s with d in place from index at. */
  function Overlay(s: seq<Byte>, at: nat, d: seq<Byte>): (r: seq<Byte>)
    requires at + |d| <= |s|
    ensures |r| == |s|
  {
    s[..at] + d + s[at + |d|..]
  }

  lemma OverlayAppend(s: seq<Byte>, at: nat, d: seq<Byte>, e: seq<Byte>)
    requires at + |d| + |e| <= |s|
    ensures Overlay(Overlay(s, at, d), at + |d|, e) == Overlay(s, at, d + e)
  {
  }

  lemma SliceAppend(s: seq<Byte>, i: nat, k: nat)
    requires i + k <= |s|
    ensures s[..i] + s[i..i + k] == s[..i + k]
  {
  }

  /** Copy bytes out of memory, a transfer width at a time. */
  method BmRead(mem: array<Byte>, a: nat, data: array<Byte>, at: nat, total: nat, width: nat)
    requires mem.Length == SPACE && Width(width) && at + total <= data.Length && data != mem
    modifies data
    ensures data[..] == Overlay(old(data[..]), at, Peek(mem[..], a, total))
  {
    hide Peek, Overlay, Divisible;
    ghost var m: Memory := mem[..];
    ghost var was := data[..];
    var n := Divisible(total, width);
    var i := 0;
    assert Overlay(was, at, Peek(m, a, 0)) == was by { OverlayNothing(was, at, Peek(m, a, 0)); }
    while i < n
      invariant i <= n && Multiple(i, width) && data[..] == Overlay(was, at, Peek(m, a, i))
    {
      var bytes := ReadPhys(mem, a + i, width);
      NextMultiple(i, n, width);
      PeekAppend(m, a, i, width);
      OverlayAppend(was, at, Peek(m, a, i), bytes);
      Copy(data, at + i, bytes);
      i := i + width;
    }
    if n < total {
      var bytes := ReadPhys(mem, a + n, width);
      PeekAppend(m, a, n, total - n);
      PeekPrefix(m, a + n, width, total - n);
      OverlayAppend(was, at, Peek(m, a, n), bytes[..total - n]);
      Copy(data, at + n, bytes[..total - n]);
    }
  }

  predicate Multiple(n: nat, width: nat)
    requires Width(width)
  {
    n % width == 0
  }

  /** The part of a length that whole transfers cover. */
  function Divisible(total: nat, width: nat): (n: nat)
    requires Width(width)
    ensures n <= total < n + width && Multiple(n, width)
  {
    total - total % width
  }

  lemma NextMultiple(i: nat, n: nat, width: nat)
    requires Width(width) && i < n && Multiple(i, width) && Multiple(n, width)
    ensures i + width <= n && Multiple(i + width, width)
  {
  }

  lemma PeekPrefix(m: Memory, a: int, n: nat, k: nat)
    requires k <= n
    ensures Peek(m, a, n)[..k] == Peek(m, a, k)
  {
  }

  lemma OverlayNothing(s: seq<Byte>, at: nat, d: seq<Byte>)
    requires |d| == 0 && at <= |s|
    ensures Overlay(s, at, d) == s
  {
  }

  method Copy(data: array<Byte>, at: nat, bytes: seq<Byte>)
    requires at + |bytes| <= data.Length
    modifies data
    ensures data[..] == Overlay(old(data[..]), at, bytes)
  {
    forall i | 0 <= i < |bytes| {
      data[at + i] := bytes[i];
    }
  }

  /** Copy bytes into memory, a transfer width at a time; the tail is merged with what
      is there. Exactly the requested bytes change, for any length and width. */
  method BmWrite(mem: array<Byte>, a: nat, data: array<Byte>, at: nat, total: nat, width: nat)
    requires mem.Length == SPACE && Width(width) && at + total <= data.Length && data != mem && total <= SPACE
    modifies mem
    ensures mem[..] == Poke(old(mem[..]), a, data[at..at + total])
  {
    hide Peek, Poke, Divisible;
    var src := data[at..at + total];
    var n := Divisible(total, width);
    assert src[..n] + src[n..] == src;
    PokeAppend(mem[..], a, src[..n], src[n..]);
    WriteWhole(mem, a, src[..n], width);
    if n < total {
      WriteTail(mem, a + n, src[n..], width);
    } else {
      assert src[..n] == src;
    }
  }

  method WriteWhole(mem: array<Byte>, a: nat, src: seq<Byte>, width: nat)
    requires mem.Length == SPACE && Width(width) && Multiple(|src|, width) && |src| <= SPACE
    modifies mem
    ensures mem[..] == Poke(old(mem[..]), a, src)
  {
    hide Peek, Poke;
    ghost var m: Memory := mem[..];
    PokeNothing(m, a);
    assert src[..0] == [];
    var i := 0;
    while i < |src|
      invariant i <= |src| && Multiple(i, width) && mem[..] == Poke(m, a, src[..i])
    {
      NextMultiple(i, |src|, width);
      PokeAppend(m, a, src[..i], src[i..i + width]);
      SliceAppend(src, i, width);
      WritePhys(mem, a + i, src[i..i + width]);
      i := i + width;
    }
    assert src[..i] == src;
  }

  method WriteTail(mem: array<Byte>, a: nat, tail: seq<Byte>, width: nat)
    requires mem.Length == SPACE && Width(width) && |tail| < width
    modifies mem
    ensures mem[..] == Poke(old(mem[..]), a, tail)
  {
    hide Peek, Poke;
    var bytes := ReadPhys(mem, a, width);
    MergedTail(mem[..], a, tail, width);
    WritePhys(mem, a, tail + bytes[|tail|..]);
  }

  lemma MergedTail(m: Memory, a: int, d: seq<Byte>, width: nat)
    requires |d| < width && Width(width)
    ensures Poke(m, a, d + Peek(m, a, width)[|d|..]) == Poke(m, a, d)
  {
    hide Peek, Poke;
    PeekAppend(m, a, |d|, width - |d|);
    assert Peek(m, a, width)[|d|..] == Peek(m, a + |d|, width - |d|);
    PokeMerged(m, a, d, width - |d|);
  }

  /** A copy into memory followed by a copy out of the same place, of any two widths,
      returns the bytes, and the copy in has touched no other cell. */
  method RoundTrip(mem: array<Byte>, a: nat, data: array<Byte>, back: array<Byte>, width: nat, backWidth: nat)
    requires mem.Length == SPACE && Width(width) && Width(backWidth)
    requires data.Length == back.Length <= SPACE && data != mem && back != mem && data != back
    modifies mem, back
    ensures back[..] == data[..]
    ensures forall x :: 0 <= x < SPACE && Offset(a, x) >= data.Length ==> mem[x] == old(mem[x])
  {
    ghost var m: Memory := mem[..];
    PeekPoke(m, a, data[..]);
    hide Peek, Poke, Offset;
    BmWrite(mem, a, data, 0, data.Length, width);
    assert data[0..data.Length] == data[..];
    assert forall x :: 0 <= x < SPACE ==> mem[..][x] == mem[x];
    BmRead(mem, a, back, 0, back.Length, backWidth);
    assert back[..] == data[..];
  }
}
