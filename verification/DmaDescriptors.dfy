/** Scatter/gather transfers over a chain of blocks that memory describes, byte by byte. */
module DmaDescriptors {
  import opened DmaMemory
  import opened DmaScatter

  /** A block of an even number of bytes, up to 65536. */
  datatype Entry = Entry(addr: nat, length: nat, last: bool)

  predicate IsEntry(e: Entry) {
    e.addr < SPACE && 2 <= e.length <= 0x1_0000 && e.length % 2 == 0
  }

  function ByteAt(m: Memory, a: nat, i: nat): nat {
    m[Cell(a + i)] as nat
  }

  /** The descriptor at a cell: the address, low byte first, then the length, 0 for 65536,
      whose lowest bit does not count, and bit 7 of the eighth byte for the last block. */
  predicate Describes(m: Memory, a: nat, e: Entry) {
    && ByteAt(m, a, 0) + 0x100 * ByteAt(m, a, 1) + 0x1_0000 * ByteAt(m, a, 2) + 0x100_0000 * ByteAt(m, a, 3) == e.addr
    && ByteAt(m, a, 4) / 2 * 2 + 0x100 * ByteAt(m, a, 5) == (if e.length == 0x1_0000 then 0 else e.length)
    && (ByteAt(m, a, 7) >= 0x80 <==> e.last)
  }

  /** Descriptors one after the other. */
  predicate Lists(m: Memory, a: nat, es: seq<Entry>)
    decreases |es|
  {
    es != [] ==> IsEntry(es[0]) && Describes(m, a, es[0]) && Lists(m, Cell(a + 8), es[1..])
  }

  /** Where a block begins: word accesses ignore the lowest bit. */
  function First(e: Entry, width: nat): nat {
    if width == 2 then e.addr / 2 * 2 else e.addr
  }

  /** The cells of the blocks, one after the other. */
  function Ranges(es: seq<Entry>, width: nat): (cells: seq<nat>)
    ensures |cells| == Total(es) && forall i :: 0 <= i < |cells| ==> cells[i] < SPACE
  {
    if es == [] then [] else
      seq<nat>(es[0].length, i requires 0 <= i < es[0].length => (First(es[0], width) + i) % SPACE)
        + Ranges(es[1..], width)
  }

  function Total(es: seq<Entry>): nat {
    if es == [] then 0 else es[0].length + Total(es[1..])
  }

  /** Only the last block is marked. */
  predicate Closed(es: seq<Entry>) {
    es != [] && forall k :: 0 <= k < |es| ==> (es[k].last <==> k == |es| - 1)
  }

  // ---- One descriptor ----

  lemma WordAt(m: Memory, a: nat)
    ensures Word(Peek(m, a, 4))
      == ByteAt(m, a, 0) + 0x100 * ByteAt(m, a, 1) + 0x1_0000 * ByteAt(m, a, 2) + 0x100_0000 * ByteAt(m, a, 3)
  {
    hide Cell;
  }

  lemma CountWord(m: Memory, a: nat)
    ensures var w := Word(Peek(m, a + 4, 4));
      && Length(w) == ByteAt(m, a, 4) / 2 * 2 + 0x100 * ByteAt(m, a, 5)
      && (w >= 0x8000_0000 <==> ByteAt(m, a, 7) >= 0x80)
  {
    hide Cell, Word;
    WordAt(m, a + 4);
    LengthOf(ByteAt(m, a, 4), ByteAt(m, a, 5), ByteAt(m, a, 6), ByteAt(m, a, 7));
  }

  lemma LengthOf(b: nat, c: nat, d: nat, e: nat)
    requires b < 0x100 && c < 0x100 && d < 0x100 && e < 0x100
    ensures var w := b + 0x100 * c + 0x1_0000 * d + 0x100_0000 * e;
      Length(w) == b / 2 * 2 + 0x100 * c && (w >= 0x8000_0000 <==> e >= 0x80)
  {
  }

  /** What a descriptor loads into the channel. */
  lemma LoadsEntry(m: Memory, t: Table, f: Format, e: Entry)
    requires Proper(f) && IsEntry(e) && Describes(m, t.ptr, e)
    ensures var n := After(m, t, f); var start := First(e, f.width);
      && n.addr == start && n.count == e.length && n.eot == e.last && n.ptr == Cell(t.ptr + 8)
      && n.ab == n.ac == start % f.space && n.cb == n.cc == e.length % 0x1_0000
      && (f.space <= SPACE ==> n.ac == 0x100_0000 * n.pageHigh + 0x1_0000 * n.page + n.ac % 0x1_0000)
  {
    hide Word, Length, Cell, Peek, ByteAt;
    WordAt(m, t.ptr);
    CountWord(m, t.ptr);
    PageParts(First(e, f.width) % f.space);
  }

  lemma PageParts(a: nat)
    ensures a < SPACE ==> a == 0x100_0000 * (a / 0x100_0000 % 0x100) + 0x1_0000 * (a / 0x1_0000 % 0x100) + a % 0x1_0000
  {
  }

  // ---- The whole chain ----

  lemma RunIsRange(e: Entry, width: nat)
    ensures Run(First(e, width), e.length)
      == seq<nat>(e.length, i requires 0 <= i < e.length => (First(e, width) + i) % SPACE)
  {
  }

  /** The chain that the walk follows is the one that is listed. */
  lemma {:induction false} ChainIsListed(m: Memory, t: Table, f: Format, es: seq<Entry>)
    requires Proper(f) && Lists(m, t.ptr, es) && Closed(es)
    ensures var u := After(m, t, f);
      && EndsWith(m, u, f, |es|) && Size(m, u, f, |es|) == Total(es) && Cells(m, u, f, |es|) == Ranges(es, f.width)
    decreases |es|
  {
    hide Cell, Describes, Run, After, First;
    LoadsEntry(m, t, f, es[0]);
    RunIsRange(es[0], f.width);
    var u := After(m, t, f);
    if |es| > 1 {
      RestIsClosed(es);
      ChainIsListed(m, u, f, es[1..]);
    } else {
      assert es[1..] == [];
    }
  }

  lemma RestIsClosed(es: seq<Entry>)
    requires Closed(es) && |es| > 1
    ensures Closed(es[1..]) && !es[0].last
  {
  }

  /** A transfer of L bytes over listed blocks of S bytes visits the first min(L, S) cells
      of their ranges, in order, and reports 1 if L < S, 5 if L = S and 4 if L > S. */
  lemma ListedTransfer(m: Memory, t: Table, f: Format, es: seq<Entry>, want: nat)
    requires Proper(f) && Lists(m, t.ptr, es) && Closed(es)
    ensures var w := Walk(m, After(m, t, f), f, want); var s := Total(es);
      && w.status == (if want < s then More else if want == s then Done else Over)
      && w.cells == Ranges(es, f.width)[..if want < s then want else s]
  {
    hide Run, Next, Lists;
    ChainIsListed(m, t, f, es);
    Trichotomy(m, After(m, t, f), f, |es|, want);
  }

  /** So a transfer out of memory delivers what the listed ranges hold. */
  lemma ListedFetch(m: Memory, t: Table, f: Format, es: seq<Entry>, want: nat)
    requires Proper(f) && Lists(m, t.ptr, es) && Closed(es)
    ensures var r := Fetch(m, After(m, t, f), f, want); var s := Total(es);
      && r.status == (if want < s then More else if want == s then Done else Over)
      && |r.data| == (if want < s then want else s)
      && forall i :: 0 <= i < |r.data| ==> r.data[i] == m[Ranges(es, f.width)[i]]
  {
    hide Next, Lists, Ranges, Walk, Fetch;
    ListedTransfer(m, t, f, es, want);
    FetchGathers(m, After(m, t, f), f, want);
  }

  /** And a transfer into memory stores its bytes there, if it stores nothing over the
      descriptors it has still to read. */
  lemma ListedDelivery(m: Memory, t: Table, f: Format, es: seq<Entry>, data: seq<Byte>)
    requires Proper(f) && Lists(m, t.ptr, es) && Closed(es)
    requires var u := After(m, t, f); Apart(Walk(m, u, f, |data|).cells, TableCells(m, u, f, |data|))
    ensures var r := Deliver(m, After(m, t, f), f, data); var s := Total(es);
      var n := if |data| < s then |data| else s;
      && r.status == (if |data| < s then More else if |data| == s then Done else Over)
      && r.mem == Scatter(m, Ranges(es, f.width)[..n], data[..n])
  {
    hide Next, Lists, Ranges, Walk, Deliver, Apart, Scatter;
    ListedTransfer(m, t, f, es, |data|);
    AfterBounded(m, t, f);
    DeliverScatters(m, After(m, t, f), f, data);
  }
}
