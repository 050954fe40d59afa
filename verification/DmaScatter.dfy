/** Scatter/gather transfers, on values: a chain of descriptors of eight bytes each. */
module DmaScatter {
  import opened DmaMemory

  datatype Table = Table(
    addr: nat, count: nat, eot: bool,      // what is left of the current block
    ptr: nat,                              // the next descriptor
    cb: nat, cc: int, ab: nat, ac: nat,    // the same for the channel registers
    page: nat, pageHigh: nat)

  function Word(d: seq<Byte>): (w: nat)
    requires |d| == 4
    ensures w < SPACE
  {
    d[0] as nat + 0x100 * d[1] as nat + 0x1_0000 * d[2] as nat + 0x100_0000 * d[3] as nat
  }

  /** The even part of the low 16 bits. */
  function Length(w: nat): nat {
    w % 0x1_0000 - w % 2
  }

  /** Load the next descriptor; space is one more than the address mask. */
  function Next(m: Memory, t: Table, width: nat, space: nat): (n: Table)
    requires space > 0
    ensures 2 <= n.count <= 0x1_0000
  {
    var addr, count := Word(Peek(m, t.ptr, 4)), Word(Peek(m, t.ptr + 4, 4));
    var start := if width == 2 then addr - addr % 2 else addr;
    t.(addr := start, count := if Length(count) == 0 then 0x1_0000 else Length(count),
       eot := count >= 0x8000_0000, cb := Length(count), cc := Length(count),
       ab := start % space, ac := start % space,
       page := start % space / 0x1_0000 % 0x100, pageHigh := start % space / 0x100_0000 % 0x100,
       ptr := Cell(t.ptr + 8))
  }

  /** The format of the table: its width of access and address space are fixed. */
  datatype Format = Format(width: nat, space: nat)

  predicate Proper(f: Format) {
    f.space > 0
  }

  function After(m: Memory, t: Table, f: Format): (n: Table)
    requires Proper(f)
    ensures n.count > 0
  {
    Next(m, t, f.width, f.space)
  }

  datatype Status = More | Over | Done     // 1, 4 and 5

  /** A transfer that stops inside the current block. */
  function Part(t: Table, want: nat): Table
    requires want <= t.count
  {
    t.(addr := Cell(t.addr + want), count := t.count - want)
  }

  // ---- The walk: which cells a transfer visits, and how it ends ----

  function Run(a: int, n: nat): (cells: seq<nat>)
    ensures |cells| == n && forall i :: 0 <= i < n ==> cells[i] == Cell(a + i)
  {
    seq<nat>(n, i requires 0 <= i < n => Cell(a + i))
  }

  datatype Walked = Walked(status: Status, table: Table, cells: seq<nat>)

  /** The transfer of a number of bytes over a chain that does not change. */
  function Walk(m: Memory, t: Table, f: Format, want: nat): Walked
    requires Proper(f) && t.count > 0
    decreases want
  {
    if want < t.count then Walked(More, Part(t, want), Run(t.addr, want))
    else if t.eot then Walked(if want == t.count then Done else Over, t, Run(t.addr, t.count))
    else if want == t.count then Walked(More, t, Run(t.addr, t.count))
    else
      var w := Walk(m, After(m, t, f), f, want - t.count);
      w.(cells := Run(t.addr, t.count) + w.cells)
  }

  // ---- The chain it walks ----

  /** The k-th block from the current one. */
  function Block(m: Memory, t: Table, f: Format, k: nat): Table
    requires Proper(f)
    decreases k
  {
    if k == 0 then t else Block(m, After(m, t, f), f, k - 1)
  }

  /** The bytes in the first n blocks. */
  function Size(m: Memory, t: Table, f: Format, n: nat): nat
    requires Proper(f)
    decreases n
  {
    if n == 0 then 0 else t.count + Size(m, After(m, t, f), f, n - 1)
  }

  /** Their cells, one block after the other. */
  function Cells(m: Memory, t: Table, f: Format, n: nat): (cells: seq<nat>)
    requires Proper(f)
    ensures |cells| == Size(m, t, f, n)
    decreases n
  {
    if n == 0 then [] else Run(t.addr, t.count) + Cells(m, After(m, t, f), f, n - 1)
  }

  /** The first end-of-table block is the last of the first n. */
  predicate EndsWith(m: Memory, t: Table, f: Format, n: nat)
    requires Proper(f)
    decreases n
  {
    n > 0 && if n == 1 then t.eot else !t.eot && EndsWith(m, After(m, t, f), f, n - 1)
  }

  predicate OpenFor(m: Memory, t: Table, f: Format, n: nat)
    requires Proper(f)
    decreases n
  {
    n == 0 || (!t.eot && OpenFor(m, After(m, t, f), f, n - 1))
  }

  lemma RunSplit(a: int, n: nat, k: nat)
    requires k <= n
    ensures Run(a, n)[..k] == Run(a, k) && Run(a, k) + Run(a + k, n - k) == Run(a, n)
  {
    hide Cell;
    var p, q := Run(a, k) + Run(a + k, n - k), Run(a, n);
    forall i | 0 <= i < n
      ensures p[i] == q[i]
    {
      if i >= k { assert a + k + (i - k) == a + i; }
    }
  }

  lemma PrefixOver(a: seq<nat>, b: seq<nat>, k: nat)
    requires |a| <= k <= |a| + |b|
    ensures (a + b)[..k] == a + b[..k - |a|]
  {
  }

  /** With S the bytes of the blocks up to and including the first end-of-table block, a
      transfer of L bytes visits exactly the first min(L, S) cells of the chain, and
      reports 1 if and only if L < S, 5 if and only if L = S, 4 if and only if L > S. */
  lemma {:induction false} Trichotomy(m: Memory, t: Table, f: Format, n: nat, want: nat)
    requires Proper(f) && t.count > 0 && EndsWith(m, t, f, n)
    ensures var w := Walk(m, t, f, want); var s := Size(m, t, f, n);
      && (w.status == More <==> want < s) && (w.status == Done <==> want == s) && (w.status == Over <==> want > s)
      && w.cells == Cells(m, t, f, n)[..if want < s then want else s]
    decreases n
  {
    hide Run, Next;
    if want < t.count {
      RunSplit(t.addr, t.count, want);
      if n == 1 {} else {}
    } else if n > 1 {
      var u := After(m, t, f);
      Trichotomy(m, u, f, n - 1, want - t.count);
      SizePositive(m, u, f, n - 1);
      var s := Size(m, t, f, n);
      PrefixOver(Run(t.addr, t.count), Cells(m, u, f, n - 1), if want < s then want else s);
    } else {
      assert Cells(m, t, f, 1) == Run(t.addr, t.count);
    }
  }

  lemma SizePositive(m: Memory, t: Table, f: Format, n: nat)
    requires Proper(f) && t.count > 0 && n > 0
    ensures Size(m, t, f, n) > 0
  {
  }

  /** A transfer that an endless chain, or the part of one before its end, can satisfy
      reports 1 and visits that many cells. */
  lemma {:induction false} OpenTransfer(m: Memory, t: Table, f: Format, n: nat, want: nat)
    requires Proper(f) && t.count > 0 && OpenFor(m, t, f, n) && want <= Size(m, t, f, n) && n > 0
    ensures var w := Walk(m, t, f, want); w.status == More && w.cells == Cells(m, t, f, n)[..want]
    decreases n
  {
    hide Run, Next;
    if want < t.count {
      RunSplit(t.addr, t.count, want);
    } else if want > t.count {
      var u := After(m, t, f);
      OpenTransfer(m, u, f, n - 1, want - t.count);
      PrefixOver(Run(t.addr, t.count), Cells(m, u, f, n - 1), want);
    } else {
      PrefixOver(Run(t.addr, t.count), Cells(m, After(m, t, f), f, n - 1), want);
    }
  }

  // ---- Resuming ----

  /** The transfer ends exactly with a block that is not the last. */
  predicate AtBoundary(m: Memory, t: Table, f: Format, want: nat)
    requires Proper(f) && t.count > 0
    decreases want
  {
    !t.eot && want >= t.count && (want == t.count || AtBoundary(m, After(m, t, f), f, want - t.count))
  }

  /** A transfer that stopped inside a block, or that has not taken anything, goes on
      where it stopped: the two parts together are one transfer. */
  lemma {:induction false} ResumeIsExact(m: Memory, t: Table, f: Format, first: nat, then_: nat)
    requires Proper(f) && t.count > 0
    requires Walk(m, t, f, first).status == More && !AtBoundary(m, t, f, first)
    ensures Walk(m, t, f, first).table.count > 0
    ensures var w := Walk(m, t, f, first); var v := Walk(m, w.table, f, then_);
      var whole := Walk(m, t, f, first + then_);
      whole.status == v.status && whole.cells == w.cells + v.cells
    decreases first
  {
    hide Next;
    if first < t.count {
      ResumePart(m, t, f, first, then_);
    } else {
      hide Run;
      var u := After(m, t, f);
      ResumeIsExact(m, u, f, first - t.count, then_);
      var w := Walk(m, u, f, first - t.count);
      var v := Walk(m, w.table, f, then_);
      assert Run(t.addr, t.count) + (w.cells + v.cells) == Run(t.addr, t.count) + w.cells + v.cells;
    }
  }

  lemma AfterIgnoresBlock(m: Memory, t: Table, f: Format, first: nat)
    requires Proper(f) && first <= t.count
    ensures After(m, Part(t, first), f) == After(m, t, f)
  {
  }

  lemma ResumePart(m: Memory, t: Table, f: Format, first: nat, then_: nat)
    requires Proper(f) && first < t.count
    ensures var v := Walk(m, Part(t, first), f, then_); var whole := Walk(m, t, f, first + then_);
      whole.status == v.status && whole.cells == Run(t.addr, first) + v.cells
  {
    hide Next, Cell, After;
    AfterIgnoresBlock(m, t, f, first);
    var p := Part(t, first);
    RunWraps(t.addr + first, if then_ < p.count then then_ else p.count);
    if then_ < p.count {
      RunSplit(t.addr, first + then_, first);
    } else {
      RunSplit(t.addr, t.count, first);
      if then_ > p.count && !t.eot {
        var w := Walk(m, After(m, t, f), f, then_ - p.count);
        assert Run(t.addr, first) + (Run(p.addr, p.count) + w.cells)
          == Run(t.addr, first) + Run(p.addr, p.count) + w.cells;
      }
    }
  }

  lemma RunWraps(a: int, n: nat)
    ensures Run(Cell(a), n) == Run(a, n)
  {
    hide Cell;
    forall i | 0 <= i < n
      ensures Run(Cell(a), n)[i] == Run(a, n)[i]
    {
      CellWraps(a, i);
    }
  }

  /** A transfer that stopped exactly at the end of a block has left that block as it
      was: the next transfer takes the whole block again. */
  lemma {:induction false} BoundaryRepeats(m: Memory, t: Table, f: Format, first: nat)
    requires Proper(f) && t.count > 0 && AtBoundary(m, t, f, first)
    ensures var w := Walk(m, t, f, first);
      w.status == More && 0 < w.table.count <= first && |w.cells| == first
      && w.cells[first - w.table.count..] == Run(w.table.addr, w.table.count)
    decreases first
  {
    hide Run, Next;
    var w := Walk(m, t, f, first);
    if first == t.count {
      assert w.cells[0..] == w.cells;
    } else {
      var u := After(m, t, f);
      BoundaryRepeats(m, u, f, first - t.count);
      var v := Walk(m, u, f, first - t.count);
      assert w.cells[first - w.table.count..] == v.cells[first - t.count - v.table.count..];
    }
  }

  // ---- Bytes ----

  /** What the cells hold. */
  function Gather(m: Memory, cells: seq<nat>): (d: seq<Byte>)
    requires forall i :: 0 <= i < |cells| ==> cells[i] < SPACE
    ensures |d| == |cells| && forall i :: 0 <= i < |d| ==> d[i] == m[cells[i]]
  {
    seq(|cells|, i requires 0 <= i < |cells| => m[cells[i]])
  }

  datatype Fetched = Fetched(status: Status, table: Table, data: seq<Byte>)

  /** dma_sg out of memory. */
  function Fetch(m: Memory, t: Table, f: Format, want: nat): Fetched
    requires Proper(f) && t.count > 0
    decreases want
  {
    if want < t.count then Fetched(More, Part(t, want), Peek(m, t.addr, want))
    else if t.eot then Fetched(if want == t.count then Done else Over, t, Peek(m, t.addr, t.count))
    else if want == t.count then Fetched(More, t, Peek(m, t.addr, t.count))
    else
      var r := Fetch(m, After(m, t, f), f, want - t.count);
      r.(data := Peek(m, t.addr, t.count) + r.data)
  }

  datatype Delivered = Delivered(status: Status, table: Table, mem: Memory)

  /** dma_sg into memory. The descriptors are read from memory as it is by then. */
  function Deliver(m: Memory, t: Table, f: Format, data: seq<Byte>): Delivered
    requires Proper(f) && t.count > 0
    decreases |data|
  {
    if |data| < t.count then Delivered(More, Part(t, |data|), Poke(m, t.addr, data))
    else
      var stored := Poke(m, t.addr, data[..t.count]);
      if t.eot then Delivered(if |data| == t.count then Done else Over, t, stored)
      else if |data| == t.count then Delivered(More, t, stored)
      else Deliver(stored, After(stored, t, f), f, data[t.count..])
  }

  lemma {:induction false} WalkInSpace(m: Memory, t: Table, f: Format, want: nat)
    requires Proper(f) && t.count > 0
    ensures forall i :: 0 <= i < |Walk(m, t, f, want).cells| ==> Walk(m, t, f, want).cells[i] < SPACE
    ensures |Walk(m, t, f, want).cells| <= want
    decreases want
  {
    hide Next, Cell;
    if want > t.count && !t.eot { WalkInSpace(m, After(m, t, f), f, want - t.count); }
  }

  /** A transfer out of memory delivers the bytes of the cells it visits, in order. */
  lemma {:induction false} FetchGathers(m: Memory, t: Table, f: Format, want: nat)
    requires Proper(f) && t.count > 0
    ensures forall i :: 0 <= i < |Walk(m, t, f, want).cells| ==> Walk(m, t, f, want).cells[i] < SPACE
    ensures var w := Walk(m, t, f, want); Fetch(m, t, f, want) == Fetched(w.status, w.table, Gather(m, w.cells))
    decreases want
  {
    hide Next, Cell, Run;
    WalkInSpace(m, t, f, want);
    PeekGathers(m, t.addr, if want < t.count then want else t.count);
    if want > t.count && !t.eot {
      var u := After(m, t, f);
      FetchGathers(m, u, f, want - t.count);
      var v := Walk(m, u, f, want - t.count);
      assert Gather(m, Run(t.addr, t.count) + v.cells) == Gather(m, Run(t.addr, t.count)) + Gather(m, v.cells);
    }
  }

  lemma PeekGathers(m: Memory, a: nat, n: nat)
    ensures forall i :: 0 <= i < n ==> Run(a, n)[i] < SPACE
    ensures Peek(m, a, n) == Gather(m, Run(a, n))
  {
    hide Cell;
  }

  // ---- Into memory ----

  /** The cells of the descriptors a transfer reads. */
  function TableCells(m: Memory, t: Table, f: Format, want: nat): (cells: seq<nat>)
    requires Proper(f) && t.count > 0
    decreases want
  {
    if want <= t.count || t.eot then [] else Run(t.ptr, 8) + TableCells(m, After(m, t, f), f, want - t.count)
  }

  /** Two memories hold the same in some cells. */
  predicate Agree(m: Memory, k: Memory, cells: seq<nat>) {
    forall i :: 0 <= i < |cells| && cells[i] < SPACE ==> m[cells[i]] == k[cells[i]]
  }

  lemma PeekAgrees(m: Memory, k: Memory, a: nat, n: nat)
    requires Agree(m, k, Run(a, n))
    ensures Peek(m, a, n) == Peek(k, a, n)
  {
    forall i | 0 <= i < n
      ensures Peek(m, a, n)[i] == Peek(k, a, n)[i]
    {
      assert m[Run(a, n)[i]] == k[Run(a, n)[i]];
    }
  }

  lemma NextAgrees(m: Memory, k: Memory, t: Table, f: Format)
    requires Proper(f) && Agree(m, k, Run(t.ptr, 8))
    ensures After(m, t, f) == After(k, t, f)
  {
    hide Word, Length, Cell, Run, Agree, Peek;
    RunSplit(t.ptr, 8, 4);
    AgreeParts(m, k, Run(t.ptr, 4), Run(t.ptr + 4, 4));
    PeekAgrees(m, k, t.ptr, 4);
    PeekAgrees(m, k, t.ptr + 4, 4);
  }

  lemma AgreeParts(m: Memory, k: Memory, a: seq<nat>, b: seq<nat>)
    requires Agree(m, k, a + b)
    ensures Agree(m, k, a) && Agree(m, k, b)
  {
    forall i | 0 <= i < |a| && a[i] < SPACE
      ensures m[a[i]] == k[a[i]]
    {
      assert (a + b)[i] == a[i];
    }
    forall i | 0 <= i < |b| && b[i] < SPACE
      ensures m[b[i]] == k[b[i]]
    {
      assert (a + b)[|a| + i] == b[i];
    }
  }

  /** The walk depends on memory only through the descriptors it reads. */
  lemma {:induction false} WalkAgrees(m: Memory, k: Memory, t: Table, f: Format, want: nat)
    requires Proper(f) && t.count > 0 && Agree(m, k, TableCells(m, t, f, want))
    ensures Walk(m, t, f, want) == Walk(k, t, f, want) && TableCells(m, t, f, want) == TableCells(k, t, f, want)
    decreases want
  {
    hide Next, Run, Cell, After;
    if want > t.count && !t.eot {
      AgreeParts(m, k, Run(t.ptr, 8), TableCells(m, After(m, t, f), f, want - t.count));
      NextAgrees(m, k, t, f);
      hide Agree;
      WalkAgrees(m, k, After(m, t, f), f, want - t.count);
    }
  }

  predicate Apart(a: seq<nat>, b: seq<nat>) {
    forall i, j :: 0 <= i < |a| && 0 <= j < |b| ==> a[i] != b[j]
  }

  lemma ApartTails(a: seq<nat>, b: seq<nat>, c: seq<nat>, d: seq<nat>)
    requires Apart(a + b, c + d)
    ensures Apart(a, c + d) && Apart(b, d)
  {
    forall i, j | 0 <= i < |a| && 0 <= j < |c + d|
      ensures a[i] != (c + d)[j]
    {
      assert (a + b)[i] == a[i];
    }
    forall i, j | 0 <= i < |b| && 0 <= j < |d|
      ensures b[i] != d[j]
    {
      assert (a + b)[|a| + i] == b[i] && (c + d)[|c| + j] == d[j];
    }
  }

  lemma InRun(a: nat, n: nat, x: nat)
    requires x < SPACE && Offset(a, x) < n
    ensures Run(a, n)[Offset(a, x)] == x
  {
    CellAtOffset(a, x);
  }

  lemma PokeLeaves(m: Memory, a: nat, d: seq<Byte>, cells: seq<nat>)
    requires |d| <= SPACE && Apart(Run(a, |d|), cells)
    ensures Agree(m, Poke(m, a, d), cells)
  {
    hide Cell, Offset, Run;
    var p := Poke(m, a, d);
    forall j | 0 <= j < |cells| && cells[j] < SPACE
      ensures m[cells[j]] == p[cells[j]]
    {
      if Offset(a, cells[j]) < |d| {
        InRun(a, |d|, cells[j]);
        assert false;
      }
    }
  }

  /** A transfer into memory that stores nothing over the descriptors it has still to
      read stores its bytes in the cells of the walk, one after the other, and ends like
      a transfer out of memory. */
  lemma {:induction false} DeliverScatters(m: Memory, t: Table, f: Format, data: seq<Byte>)
    requires Proper(f) && 0 < t.count <= 0x1_0000
    requires Apart(Walk(m, t, f, |data|).cells, TableCells(m, t, f, |data|))
    ensures var w := Walk(m, t, f, |data|);
      && |w.cells| <= |data| && (forall i :: 0 <= i < |w.cells| ==> w.cells[i] < SPACE)
      && Deliver(m, t, f, data) == Delivered(w.status, w.table, Scatter(m, w.cells, data[..|w.cells|]))
    decreases |data|
  {
    hide Next, Run, Cell, Poke, Scatter, Apart;
    WalkInSpace(m, t, f, |data|);
    if |data| <= t.count || t.eot {
      var n := if |data| < t.count then |data| else t.count;
      PokeScatters(m, t.addr, data[..n]);
      assert |data| < t.count ==> data[..n] == data;
    } else {
      DeliverOn(m, t, f, data);
    }
  }

  lemma {:induction false} DeliverOn(m: Memory, t: Table, f: Format, data: seq<Byte>)
    requires Proper(f) && 0 < t.count <= 0x1_0000 && t.count < |data| && !t.eot
    requires Apart(Walk(m, t, f, |data|).cells, TableCells(m, t, f, |data|))
    ensures var w := Walk(m, t, f, |data|);
      && |w.cells| <= |data| && (forall i :: 0 <= i < |w.cells| ==> w.cells[i] < SPACE)
      && Deliver(m, t, f, data) == Delivered(w.status, w.table, Scatter(m, w.cells, data[..|w.cells|]))
    decreases |data|, 0
  {
    hide Next, Run, Cell, Poke, Scatter, Apart, After, Agree;
    var u, head, rest := After(m, t, f), data[..t.count], data[t.count..];
    var stored := Poke(m, t.addr, head);
    var w := Walk(m, u, f, |rest|);
    var run := Run(t.addr, t.count);
    WalkInSpace(m, t, f, |data|);
    WalkInSpace(m, u, f, |rest|);
    ApartTails(run, w.cells, Run(t.ptr, 8), TableCells(m, u, f, |rest|));
    PokeLeaves(m, t.addr, head, Run(t.ptr, 8) + TableCells(m, u, f, |rest|));
    AgreeParts(m, stored, Run(t.ptr, 8), TableCells(m, u, f, |rest|));
    NextAgrees(m, stored, t, f);
    WalkAgrees(m, stored, u, f, |rest|);
    AfterBounded(m, t, f);
    DeliverScatters(stored, u, f, rest);
    PokeScatters(m, t.addr, head);
    ScatterTwice(m, run, head, w.cells, rest[..|w.cells|]);
    assert head + rest[..|w.cells|] == data[..t.count + |w.cells|];
  }

  lemma AfterBounded(m: Memory, t: Table, f: Format)
    requires Proper(f)
    ensures 2 <= After(m, t, f).count <= 0x1_0000
  {
  }

  lemma {:induction false} ScatterTwice(m: Memory, a: seq<nat>, d: seq<Byte>, b: seq<nat>, e: seq<Byte>)
    requires |a| == |d| && |b| == |e|
    requires forall i :: 0 <= i < |a| ==> a[i] < SPACE
    requires forall i :: 0 <= i < |b| ==> b[i] < SPACE
    ensures Scatter(Scatter(m, a, d), b, e) == Scatter(m, a + b, d + e)
    decreases |e|
  {
    if e == [] {
      assert a + b == a && d + e == d;
    } else {
      var k := |e| - 1;
      ScatterTwice(m, a, d, b[..k], e[..k]);
      assert (a + b)[..|a| + k] == a + b[..k] && (d + e)[..|d| + k] == d + e[..k];
    }
  }

  lemma {:induction false} PokeScatters(m: Memory, a: nat, d: seq<Byte>)
    requires |d| <= SPACE
    ensures Poke(m, a, d) == Scatter(m, Run(a, |d|), d)
  {
    hide Cell, Poke;
    if d == [] {
      PokeNothing(m, a);
    } else {
      var k := |d| - 1;
      PokeScatters(m, a, d[..k]);
      RunSplit(a, |d|, k);
      PokeOne(Poke(m, a, d[..k]), a + k, d[k]);
      PokeAppend(m, a, d[..k], [d[k]]);
      assert d[..k] + [d[k]] == d;
    }
  }

  /** Bytes sent into memory over a chain whose blocks overlap neither each other nor its
      descriptors come back over the same chain. */
  lemma ThereAndBack(m: Memory, t: Table, f: Format, data: seq<Byte>)
    requires Proper(f) && 0 < t.count <= 0x1_0000
    requires Apart(Walk(m, t, f, |data|).cells, TableCells(m, t, f, |data|)) && Distinct(Walk(m, t, f, |data|).cells)
    ensures var sent := Deliver(m, t, f, data); var got := Fetch(sent.mem, t, f, |data|);
      got.status == sent.status && got.table == sent.table && got.data <= data
      && (sent.status != Over ==> got.data == data)
  {
    hide Next, Run, Cell, Poke, Scatter, Fetch, Deliver, Walk, TableCells, Distinct;
    var w := Walk(m, t, f, |data|);
    DeliverScatters(m, t, f, data);
    var after := Deliver(m, t, f, data).mem;
    ScatterAt(m, w.cells, data[..|w.cells|]);
    ScatterLeaves(m, w.cells, data[..|w.cells|], TableCells(m, t, f, |data|));
    hide Apart;
    WalkAgrees(m, after, t, f, |data|);
    FetchGathers(after, t, f, |data|);
    assert Gather(after, w.cells) == data[..|w.cells|];
    WalkTakesAll(m, t, f, |data|);
  }

  lemma ScatterLeaves(m: Memory, a: seq<nat>, d: seq<Byte>, cells: seq<nat>)
    requires |a| == |d| && (forall i :: 0 <= i < |a| ==> a[i] < SPACE) && Apart(a, cells)
    ensures Agree(m, Scatter(m, a, d), cells)
  {
    hide Scatter;
    ScatterAt(m, a, d);
    forall j | 0 <= j < |cells| && cells[j] < SPACE
      ensures m[cells[j]] == Scatter(m, a, d)[cells[j]]
    {
      assert cells[j] !in a;
    }
  }

  /** Unless the chain ends early, a transfer visits as many cells as it has bytes. */
  lemma {:induction false} WalkTakesAll(m: Memory, t: Table, f: Format, want: nat)
    requires Proper(f) && t.count > 0
    ensures Walk(m, t, f, want).status != Over ==> |Walk(m, t, f, want).cells| == want
    decreases want
  {
    hide Next;
    if want > t.count && !t.eot { WalkTakesAll(m, After(m, t, f), f, want - t.count); }
  }
}
