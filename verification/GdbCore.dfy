/** The core's look-up tables as arrays updated in place, and its accesses. */
module GdbCore {
  import opened DmaMemory
  import P = GdbPoints
  import A = GdbAccesses
  import L = GdbLookups
  import S = GdbStub

  class Lookup {
    const open: array<bool>
    const guarded: array<bool>
    const ring: array<int>
    var next: nat

    ghost predicate Valid()
      reads this, open, guarded, ring
    {
      open != guarded && L.Shaped(Abs())
    }

    function Abs(): L.Table
      reads this, open, guarded, ring
    {
      L.Table(open[..], guarded[..], ring[..], next)
    }

    constructor ()
      ensures Valid() && Abs() == L.Empty() && fresh(open) && fresh(guarded) && fresh(ring)
    {
      open := new bool[P.PAGES](_ => false);
      guarded := new bool[P.PAGES](_ => false);
      ring := new int[L.ENTRIES](_ => -1);
      next := 0;
      new;
      assert open[..] == seq(P.PAGES, _ => false);
      assert guarded[..] == seq(P.PAGES, _ => false);
      assert ring[..] == seq(L.ENTRIES, _ => -1);
    }

    /** Closes the page of a ring entry. */
    method Close(page: nat)
      requires Valid() && page < P.PAGES
      modifies open, guarded
      ensures Valid() && Abs() == old(Abs()).(open := old(open[..])[page := false],
        guarded := old(guarded[..])[page := false])
    {
      open[page], guarded[page] := false, false;
    }

    /** addreadlookup and addwritelookup */
    method Add(page: nat, writing: bool, coded: bool)
      requires Valid() && page < P.PAGES
      modifies this, open, guarded, ring
      ensures Valid() && Abs() == L.Add(old(Abs()), page, writing, coded)
    {
      if (writing && guarded[page]) || (!writing && open[page]) {
        return;
      }
      var oldest := ring[next];
      if oldest >= 0 {
        Close(oldest);
      }
      if writing && coded {
        guarded[page] := true;
      } else {
        open[page] := true;
      }
      ring[next] := page;
      next := (next + 1) % L.ENTRIES;
    }

    /** Closes the page of one ring entry and empties the entry. */
    method Drop(i: nat)
      requires Valid() && i < L.ENTRIES
      modifies open, guarded, ring
      ensures Valid() && Abs() == Dropped(old(Abs()), i)
    {
      if ring[i] != -1 {
        Close(ring[i]);
        ring[i] := -1;
      }
    }
  }

  function Dropped(t: L.Table, i: nat): L.Table
    requires L.Shaped(t) && i < L.ENTRIES
  {
    if t.ring[i] == -1 then t
    else t.(open := t.open[t.ring[i] := false], guarded := t.guarded[t.ring[i] := false], ring := t.ring[i := -1])
  }

  /** A table of which the first k ring entries are dropped. */
  function DroppedBelow(t: L.Table, k: nat): L.Table
    requires L.Shaped(t) && k <= L.ENTRIES
  {
    L.Table(seq(P.PAGES, p requires 0 <= p < P.PAGES => t.open[p] && p !in t.ring[..k]),
            seq(P.PAGES, p requires 0 <= p < P.PAGES => t.guarded[p] && p !in t.ring[..k]),
            seq(L.ENTRIES, i requires 0 <= i < L.ENTRIES => if i < k then -1 else t.ring[i]), t.next)
  }

  lemma DropNext(t: L.Table, k: nat)
    requires L.Shaped(t) && k < L.ENTRIES
    ensures L.Shaped(DroppedBelow(t, k)) && Dropped(DroppedBelow(t, k), k) == DroppedBelow(t, k + 1)
  {
    var u, v := DroppedBelow(t, k), DroppedBelow(t, k + 1);
    assert t.ring[..k + 1] == t.ring[..k] + [t.ring[k]];
    assert Dropped(u, k).open == v.open;
    assert Dropped(u, k).guarded == v.guarded;
    assert Dropped(u, k).ring == v.ring;
  }

  lemma DropAll(t: L.Table)
    requires L.Shaped(t)
    ensures DroppedBelow(t, 0) == t && DroppedBelow(t, L.ENTRIES) == L.Flushed(t)
  {
    assert t.ring[..0] == [] && t.ring[..L.ENTRIES] == t.ring;
    assert DroppedBelow(t, 0).open == t.open;
    assert DroppedBelow(t, 0).guarded == t.guarded;
    assert DroppedBelow(t, 0).ring == t.ring;
    assert DroppedBelow(t, L.ENTRIES).ring == L.Flushed(t).ring;
  }

  /** The core with its two tables, and the debugger that watches it. */
  class Core {
    const stub: S.Stub
    const read: Lookup
    const write: Lookup

    constructor (stub: S.Stub)
      requires stub.Valid() && P.Good(stub.State())
      ensures Valid() && this.stub == stub && Tables() == L.Tables(L.Empty(), L.Empty())
    {
      hide P.Good, L.Sound, S.Linked, S.PointsOf;
      this.stub := stub;
      read := new Lookup();
      write := new Lookup();
      new;
      L.EmptyIsSound();
    }

    ghost predicate Apart()
      reads this
    {
      && read != write && read.ring != write.ring
      && read.open != write.open && read.open != write.guarded && read.guarded != write.open
      && read.guarded != write.guarded
      && stub.pages != read.open && stub.pages != read.guarded && stub.pages != write.open
        && stub.pages != write.guarded
    }

    ghost predicate Watching()
      reads this, stub, stub.sw, stub.hw, stub.write, stub.read, stub.access, stub.sw.nodes, stub.hw.nodes
      reads stub.write.nodes, stub.read.nodes, stub.access.nodes, stub.pages
    {
      stub.Valid() && P.Good(stub.State())
    }

    ghost predicate Valid()
      reads this, stub, stub.sw, stub.hw, stub.write, stub.read, stub.access, stub.sw.nodes, stub.hw.nodes
      reads stub.write.nodes, stub.read.nodes, stub.access.nodes, stub.pages
      reads read, read.open, read.guarded, read.ring, write, write.open, write.guarded, write.ring
    {
      Apart() && Watching() && read.Valid() && write.Valid() && L.Ready(stub.State(), Tables())
    }

    function Tables(): L.Tables
      reads this, read, read.open, read.guarded, read.ring, write, write.open, write.guarded, write.ring
    {
      L.Tables(read.Abs(), write.Abs())
    }

    function Of(writing: bool): Lookup
      reads this
    {
      if writing then write else read
    }

    /** The RAM handlers of a part that stays in its page. */
    method Fill(t: Lookup, w: L.World, addr: nat, width: nat, writing: bool)
      requires t.Valid() && addr < SPACE && A.IsWidth(width)
      modifies t, t.open, t.guarded, t.ring
      ensures t.Valid() && t.Abs() == L.Filled(w, old(t.Abs()), addr, width, writing)
    {
      hide L.Add;
      A.PageInMap(addr);
      var p := P.PageOf(addr);
      if addr % width != 0 && t.open[p] {
        return;
      }
      if w.ram(p) && addr != 0xffff_ffff {
        t.Add(p, writing, w.coded(p));
        if width == 8 {
          t.Add(p, writing, w.coded(p));
        }
      }
    }

    /** The test in front of every part. */
    method Test(addr: nat, width: nat, writing: bool) returns (c: A.Caught)
      requires Watching() && addr < SPACE
      ensures P.Good(stub.State()) && c == A.Tested(stub.State(), addr, width, writing)
    {
      c := stub.Test(addr, width, writing);
    }

    /** An access through the memory system. */
    method Slow(w: L.World, addr: nat, width: nat, writing: bool, mapped: bool) returns (c: A.Caught)
      requires Apart() && Watching() && Of(writing).Valid() && addr < SPACE && A.IsWidth(width)
      modifies Of(writing), Of(writing).open, Of(writing).guarded, Of(writing).ring
      ensures Watching() && P.Good(stub.State()) && stub.State() == old(stub.State()) && Of(writing).Valid()
      ensures c == A.Accessed(stub.State(), addr, width, writing, mapped)
      ensures Of(writing).Abs() == L.Slow(w, old(Of(writing).Abs()), addr, width, writing, mapped)
      decreases width
    {
      hide Watching, S.Stub.State, P.Good, A.Tested, L.Filled, L.Shaped;
      c := Test(addr, width, writing);
      if A.Splits(addr, width, writing, mapped) {
        var half := width / 2;
        var low := Slow(w, addr, half, writing, mapped);
        var high := Slow(w, (addr + half) % SPACE, half, writing, mapped);
        c := A.Later(A.Later(c, low), high);
      } else if mapped {
        Fill(Of(writing), w, addr, width, writing);
      }
    }

    /** An access of the core. */
    method Access(w: L.World, addr: nat, width: nat, writing: bool, usable: bool, mapped: bool) returns (c: A.Caught)
      requires Valid() && addr < SPACE && A.IsWidth(width)
      modifies Of(writing), Of(writing).open, Of(writing).guarded, Of(writing).ring
      ensures Valid() && stub.State() == old(stub.State())
      ensures (c, Tables()) == L.Core(stub.State(), w, old(Tables()), addr, width, writing, usable, mapped)
    {
      hide P.Good, A.Accessed, L.Slow, L.Sound, S.Linked, S.PointsOf;
      ghost var s, ts := stub.State(), Tables();
      L.StepIsReady(s, w, ts, L.Access(addr, width, writing, usable, mapped));
      A.PageInMap(addr);
      if Of(writing).open[P.PageOf(addr)] && usable && addr % width == 0 {
        return A.No;
      }
      c := Slow(w, addr, width, writing, mapped);
    }

    /** flushmmucache */
    method Flush()
      requires Valid()
      modifies read.open, read.guarded, read.ring, write.open, write.guarded, write.ring
      ensures Valid() && stub.State() == old(stub.State())
      ensures Tables() == L.Tables(L.Flushed(old(Tables()).read), L.Flushed(old(Tables()).write))
    {
      hide P.Good, L.Sound, L.Shaped, L.Flushed, S.Linked, S.PointsOf;
      L.StepIsReady(stub.State(), L.World(p => false, p => false), Tables(), L.Flush);
      Empty();
    }

    method Empty()
      requires Apart() && read.Valid() && write.Valid()
      modifies read.open, read.guarded, read.ring, write.open, write.guarded, write.ring
      ensures read.Valid() && write.Valid()
      ensures Tables() == L.Tables(L.Flushed(old(Tables()).read), L.Flushed(old(Tables()).write))
    {
      hide L.Shaped, L.Flushed, DroppedBelow, Dropped;
      ghost var ts := Tables();
      DropAll(ts.read);
      DropAll(ts.write);
      var i := 0;
      while i < L.ENTRIES
        invariant 0 <= i <= L.ENTRIES && read.Valid() && write.Valid()
        invariant read.Abs() == DroppedBelow(ts.read, i) && write.Abs() == DroppedBelow(ts.write, i)
      {
        DropNext(ts.read, i);
        DropNext(ts.write, i);
        read.Drop(i);
        write.Drop(i);
        i := i + 1;
      }
    }
  }
}
