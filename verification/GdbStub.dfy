/** The debugger stub's lists of points, page map and packets, updated in place. */
module GdbStub {
  import opened DmaMemory
  import P = GdbPoints
  import A = GdbAccesses
  import W = GdbSwaps

  class Breakpoint {
    const addr: nat
    const end: nat
    ghost const kind: P.Kind
    var orig: Byte
    var next: Breakpoint?

    constructor (addr: nat, end: nat, ghost kind: P.Kind)
      ensures this.addr == addr && this.end == end && this.kind == kind && orig == 0 && next == null
    {
      this.addr, this.end, this.kind, orig, next := addr, end, kind, 0, null;
    }
  }

  function PointAt(ns: seq<Breakpoint>, k: int): Breakpoint? {
    if 0 <= k < |ns| then ns[k] else null
  }

  ghost predicate Linked(ns: seq<Breakpoint>, kind: P.Kind)
    reads ns
  {
    && (forall k {:trigger ns[k].next} :: 0 <= k < |ns| ==> ns[k].next == PointAt(ns, k + 1))
    && (forall k :: 0 <= k < |ns| ==> ns[k].kind == kind)
    && forall i, j :: 0 <= i < j < |ns| ==> ns[i] != ns[j]
  }

  ghost function PointsOf(ns: seq<Breakpoint>): (ps: seq<P.Point>)
    reads ns
    ensures |ps| == |ns| && forall k :: 0 <= k < |ps| ==> ps[k] == P.Point(ns[k].addr, ns[k].end, ns[k].orig)
  {
    seq(|ns|, k requires 0 <= k < |ns| reads ns => P.Point(ns[k].addr, ns[k].end, ns[k].orig))
  }

  class BreakList {
    ghost const kind: P.Kind
    var first: Breakpoint?
    ghost var nodes: seq<Breakpoint>

    ghost predicate Valid()
      reads this, nodes
    {
      first == PointAt(nodes, 0) && Linked(nodes, kind)
    }

    ghost function Points(): seq<P.Point>
      reads this, nodes
    {
      PointsOf(nodes)
    }

    constructor (ghost kind: P.Kind)
      ensures Valid() && Points() == [] && this.kind == kind && nodes == []
    {
      this.kind, first, nodes := kind, null, [];
    }

    /** The first point at an address, and the node in front of it. */
    method Seek(addr: nat) returns (cur: Breakpoint?, prev: Breakpoint?, ghost k: nat)
      requires Valid()
      ensures k == P.Find(Points(), addr) && cur == PointAt(nodes, k) && prev == PointAt(nodes, k - 1)
    {
      k := 0;
      cur, prev := first, null;
      while cur != null && cur.addr != addr
        invariant k <= |nodes| && cur == PointAt(nodes, k) && prev == PointAt(nodes, k - 1)
        invariant forall j :: 0 <= j < k ==> Points()[j].addr != addr
        decreases |nodes| - k
      {
        prev, cur := cur, cur.next;
        k := k + 1;
      }
      FindIs(Points(), addr, k);
    }

    method Append(last: Breakpoint?, addr: nat, length: nat)
      requires Valid() && last == PointAt(nodes, |nodes| - 1)
      modifies this, nodes
      ensures Valid() && Points() == old(Points()) + [P.New(addr, length)]
      ensures forall n :: n in nodes ==> n in old(nodes) || fresh(n)
    {
      ghost var ns, ps := nodes, Points();
      var node := new Breakpoint(addr, (addr + length) % SPACE, kind);
      if first == null { first := node; } else { last.next := node; }
      nodes := ns + [node];
      assert PointsOf(ns) == ps;
      AppendedPoints(ns, node);
    }

    method Bypass(cur: Breakpoint, prev: Breakpoint?, ghost k: nat)
      requires Valid() && k < |nodes| && cur == nodes[k] && prev == PointAt(nodes, k - 1)
      modifies this, nodes
      ensures Valid() && Points() == old(Points())[..k] + old(Points())[k + 1..]
      ensures forall n :: n in nodes ==> n in old(nodes)
    {
      ghost var ns, ps := nodes, Points();
      if cur == first { first := cur.next; } else { prev.next := cur.next; }
      nodes := ns[..k] + ns[k + 1..];
      assert PointsOf(ns) == ps;
      RemovedLinks(ns, k, kind);
      RemovedPoints(ns, k);
    }

    /** Inserts or removes the point at an address. */
    method Request(insert: bool, addr: nat, length: nat) returns (ok: bool)
      requires Valid()
      modifies this, nodes
      ensures Valid() && (ok, Points()) == P.Request(old(Points()), insert, P.New(addr, length))
      ensures forall n :: n in nodes ==> n in old(nodes) || fresh(n)
    {
      hide Linked, PointsOf;
      var cur, prev, k := Seek(addr);
      assert |Points()| == |nodes|;
      if (cur != null) == insert { return false; }
      if insert { Append(prev, addr, length); } else { Bypass(cur, prev, k); }
      return true;
    }

    /** Does any address lie in a point? */
    method AnyMatch(addrs: seq<nat>) returns (hit: bool)
      requires Valid()
      ensures hit == A.AnyMatches(Points(), addrs)
    {
      ghost var k := 0;
      var cur := first;
      while cur != null
        invariant k <= |nodes| && cur == PointAt(nodes, k)
        invariant forall j :: 0 <= j < k ==> !A.Matches(Points()[j], addrs)
        decreases |nodes| - k
      {
        var i := 0;
        while i < |addrs| && !(cur.addr <= addrs[i] < cur.end)
          invariant i <= |addrs| && forall j :: 0 <= j < i ==> !(cur.addr <= addrs[j] < cur.end)
        {
          i := i + 1;
        }
        if i < |addrs| {
          assert A.Matches(Points()[k], addrs);
          return true;
        }
        cur := cur.next;
        k := k + 1;
      }
      return false;
    }

    /** Flags all pages of all points. */
    method Flag(pages: array<bool>)
      requires Valid() && pages.Length == P.PAGES
      modifies pages
      ensures pages[..] == P.Flagged(old(pages[..]), Points())
    {
      hide P.Touches;
      ghost var was, ps := pages[..], Points();
      ghost var k := 0;
      var cur := first;
      FlaggedNone(was, ps[..0]);
      while cur != null
        invariant k <= |nodes| && cur == PointAt(nodes, k) && pages[..] == P.Flagged(was, ps[..k])
        decreases |nodes| - k
      {
        FlaggedNext(was, ps, k);
        FlagOne(pages, cur.addr, cur.end, cur.orig);
        cur := cur.next;
        k := k + 1;
      }
      assert ps[..k] == ps;
    }

    /** Puts the breakpoint opcode in place of the byte at every point. */
    method SwapIn(mem: array<Byte>, w: W.World)
      requires Valid() && mem.Length == SPACE
      modifies mem, nodes
      ensures Valid() && nodes == old(nodes) && (mem[..], Points()) == W.SwapIn(old(mem[..]), w, old(Points()))
    {
      hide W.SwapIn, W.Store, PointsOf, Ahead;
      ghost var goal := W.SwapIn(mem[..], w, Points());
      AheadStart(Points(), mem[..], w);
      ghost var k := 0;
      var cur := first;
      while cur != null
        invariant k <= |nodes| && cur == PointAt(nodes, k) && Valid()
        invariant nodes == old(nodes) && Ahead(Points(), mem[..], w, k) == goal
        decreases |nodes| - k
      {
        AheadStep(Points(), mem[..], w, k);
        SwapAt(cur, k, mem, w);
        cur := cur.next;
        k := k + 1;
      }
      AheadEnd(Points(), mem[..], w);
    }

    method SwapAt(cur: Breakpoint, ghost k: nat, mem: array<Byte>, w: W.World)
      requires Valid() && k < |nodes| && cur == nodes[k] && mem.Length == SPACE
      modifies mem, nodes
      ensures Valid() && nodes == old(nodes) && cur.next == old(cur.next)
      ensures var x := W.Place(w, old(Points())[k]);
        && Points() == old(Points())[k := old(Points())[k].(orig := old(mem[..])[x])]
        && mem[..] == W.Store(old(mem[..]), w, x, P.INT3)
    {
      var x := Cell(w.phys(cur.addr));
      cur.orig := mem[x];
      if w.ram(x) { mem[x] := P.INT3; }
    }

    /** Puts the saved bytes back wherever the opcode is still there. */
    method SwapOut(mem: array<Byte>, w: W.World)
      requires Valid() && mem.Length == SPACE
      modifies mem
      ensures mem[..] == W.SwapOut(old(mem[..]), w, Points())
    {
      ghost var k := 0;
      var cur := first;
      assert Points()[0..] == Points();
      while cur != null
        invariant k <= |nodes| && cur == PointAt(nodes, k)
        invariant W.SwapOut(mem[..], w, Points()[k..]) == W.SwapOut(old(mem[..]), w, Points())
        decreases |nodes| - k
      {
        var x := Cell(w.phys(cur.addr));
        ghost var rest := Points()[k..];
        assert rest[0] == Points()[k] && W.Place(w, rest[0]) == x && rest[1..] == Points()[k + 1..];
        StoredIs(mem[..], w, x, cur.orig);
        if mem[x] == P.INT3 && w.ram(x) { mem[x] := cur.orig; }
        cur := cur.next;
        k := k + 1;
      }
    }
  }

  /** Where swapping in ends up once the first k points have been done. */
  function Ahead(points: seq<P.Point>, m: Memory, w: W.World, k: nat): (Memory, seq<P.Point>)
    requires k <= |points|
  {
    var (n, qs) := W.SwapIn(m, w, points[k..]);
    (n, points[..k] + qs)
  }

  lemma AheadStart(points: seq<P.Point>, m: Memory, w: W.World)
    ensures Ahead(points, m, w, 0) == W.SwapIn(m, w, points)
  {
    assert points[0..] == points;
    assert [] + W.SwapIn(m, w, points).1 == W.SwapIn(m, w, points).1;
  }

  lemma AheadStep(points: seq<P.Point>, m: Memory, w: W.World, k: nat)
    requires k < |points|
    ensures var x := W.Place(w, points[k]); var after := points[k := points[k].(orig := m[x])];
      Ahead(after, W.Store(m, w, x, P.INT3), w, k + 1) == Ahead(points, m, w, k)
  {
    hide W.Store;
    var x := W.Place(w, points[k]);
    var p := points[k].(orig := m[x]);
    var after := points[k := p];
    var qs := W.SwapIn(W.Store(m, w, x, P.INT3), w, after[k + 1..]).1;
    assert points[k..][0] == points[k] && points[k..][1..] == after[k + 1..];
    assert W.SwapIn(m, w, points[k..]).1 == [p] + qs;
    assert after[..k + 1] + qs == points[..k] + ([p] + qs);
  }

  lemma AheadEnd(points: seq<P.Point>, m: Memory, w: W.World)
    ensures Ahead(points, m, w, |points|) == (m, points)
  {
    assert points[|points|..] == [] && points[..|points|] + [] == points;
  }

  lemma StoredIs(m: Memory, w: W.World, x: nat, b: Byte)
    requires x < SPACE
    ensures W.Store(m, w, x, b) == if w.ram(x) then m[x := b] else m
  {
  }

  lemma {:induction false} FindIs(ps: seq<P.Point>, addr: nat, k: nat)
    requires k <= |ps| && (k < |ps| ==> ps[k].addr == addr) && forall j :: 0 <= j < k ==> ps[j].addr != addr
    ensures P.Find(ps, addr) == k
  {
  }

  lemma AppendedPoints(ns: seq<Breakpoint>, node: Breakpoint)
    ensures PointsOf(ns + [node]) == PointsOf(ns) + [P.Point(node.addr, node.end, node.orig)]
  {
  }

  lemma RemovedPoints(ns: seq<Breakpoint>, k: nat)
    requires k < |ns|
    ensures PointsOf(ns[..k] + ns[k + 1..]) == PointsOf(ns)[..k] + PointsOf(ns)[k + 1..]
  {
  }

  /** A list whose k-th node has been bypassed. */
  lemma RemovedLinks(ns: seq<Breakpoint>, k: nat, kind: P.Kind)
    requires k < |ns| && (forall j :: 0 <= j < |ns| ==> ns[j].kind == kind)
    requires forall i, j :: 0 <= i < j < |ns| ==> ns[i] != ns[j]
    requires forall j {:trigger ns[j].next} :: 0 <= j < |ns| && j != k ==>
      ns[j].next == PointAt(ns, if j == k - 1 then k + 1 else j + 1)
    ensures Linked(ns[..k] + ns[k + 1..], kind)
  {
    var rest := ns[..k] + ns[k + 1..];
    assert forall j :: 0 <= j < |rest| ==> rest[j] == ns[if j < k then j else j + 1];
    forall j | 0 <= j < |rest|
      ensures rest[j].next == PointAt(rest, j + 1)
    {
      var i := if j < k then j else j + 1;
      assert ns[i].next == PointAt(ns, if i == k - 1 then k + 1 else i + 1);
    }
  }

  // ---- The page map ----

  lemma FlaggedNone(pages: seq<bool>, ps: seq<P.Point>)
    requires ps == []
    ensures P.Flagged(pages, ps) == pages
  {
  }

  lemma FlaggedNext(pages: seq<bool>, ps: seq<P.Point>, k: nat)
    requires k < |ps|
    ensures P.Flagged(pages, ps[..k + 1]) == P.Flagged(P.Flagged(pages, ps[..k]), [ps[k]])
  {
    FlaggedAppend(pages, ps[..k], [ps[k]]);
    assert ps[..k + 1] == ps[..k] + [ps[k]];
  }

  lemma FlaggedAppend(pages: seq<bool>, a: seq<P.Point>, b: seq<P.Point>)
    ensures P.Flagged(P.Flagged(pages, a), b) == P.Flagged(pages, a + b)
  {
    hide P.Touches;
    var p, q := P.Flagged(P.Flagged(pages, a), b), P.Flagged(pages, a + b);
    forall i | 0 <= i < |pages|
      ensures p[i] == q[i]
    {
      if p[i] && !pages[i] {
        if k :| 0 <= k < |a| && P.Touches(a[k], i) { assert P.Touches((a + b)[k], i); }
        else {
          var k :| 0 <= k < |b| && P.Touches(b[k], i);
          assert P.Touches((a + b)[|a| + k], i);
        }
      }
    }
  }

  /** Flags the pages of one point. */
  method FlagOne(pages: array<bool>, addr: nat, end: nat, ghost orig: Byte)
    requires pages.Length == P.PAGES
    modifies pages
    ensures pages[..] == P.Flagged(old(pages[..]), [P.Point(addr, end, orig)])
  {
    var last := P.PageOf((end - 1) % SPACE);
    var i := P.PageOf(addr);
    while i <= last
      invariant P.PageOf(addr) <= i && (i <= last + 1 || i == P.PageOf(addr))
      invariant forall j :: 0 <= j < pages.Length ==> pages[j] == (old(pages[j]) || P.PageOf(addr) <= j < i)
    {
      pages[i] := true;
      i := i + 1;
    }
    TouchesOnly(pages[..], old(pages[..]), P.Point(addr, end, orig));
  }

  lemma TouchesOnly(now: seq<bool>, was: seq<bool>, p: P.Point)
    requires |now| == |was| && forall j :: 0 <= j < |was| ==> now[j] == (was[j] || P.Touches(p, j))
    ensures now == P.Flagged(was, [p])
  {
    hide P.Touches;
    forall j | 0 <= j < |was|
      ensures now[j] == P.Flagged(was, [p])[j]
    {
      assert [p][0] == p;
      if P.Touches(p, j) { assert P.Touches([p][0], j); }
    }
  }

  // ---- Packets ----

  /** Lists of other kinds share no node with a list. */
  lemma Others(a: BreakList, b: BreakList, c: BreakList, d: BreakList, e: BreakList)
    requires a.Valid() && b.Valid() && c.Valid() && d.Valid() && e.Valid()
    requires a.kind != b.kind && a.kind != c.kind && a.kind != d.kind && a.kind != e.kind
    ensures Apart(a.nodes, b.nodes) && Apart(a.nodes, c.nodes) && Apart(a.nodes, d.nodes) && Apart(a.nodes, e.nodes)
  {
  }

  predicate Apart(a: seq<Breakpoint>, b: seq<Breakpoint>) {
    forall i, j :: 0 <= i < |a| && 0 <= j < |b| ==> a[i] != b[j]
  }

  class Stub {
    const sw: BreakList
    const hw: BreakList
    const write: BreakList
    const read: BreakList
    const access: BreakList
    const pages: array<bool>

    /** Lists of different kinds share no node. */
    ghost predicate Shaped()
      reads this
    {
      && sw.kind == P.Software && hw.kind == P.Hardware && write.kind == P.WriteWatch && read.kind == P.ReadWatch
      && access.kind == P.AccessWatch && pages.Length == P.PAGES
    }

    ghost predicate Valid()
      reads this, sw, hw, write, read, access, sw.nodes, hw.nodes, write.nodes, read.nodes, access.nodes
    {
      Shaped() && sw.Valid() && hw.Valid() && write.Valid() && read.Valid() && access.Valid()
    }

    ghost function State(): P.Stub
      reads this, sw, hw, write, read, access, sw.nodes, hw.nodes, write.nodes, read.nodes, access.nodes, pages
    {
      P.Stub(sw.Points(), hw.Points(), write.Points(), read.Points(), access.Points(), pages[..])
    }

    constructor ()
      ensures Valid() && State() == P.Start()
    {
      sw := new BreakList(P.Software);
      hw := new BreakList(P.Hardware);
      write := new BreakList(P.WriteWatch);
      read := new BreakList(P.ReadWatch);
      access := new BreakList(P.AccessWatch);
      pages := new bool[P.PAGES](_ => false);
      new;
      assert pages[..] == seq(P.PAGES, _ => false);
    }

    /** Wipes the groups of pages a watchpoint lies in and flags all watchpoints anew. */
    method Recompute(addr: nat, length: nat)
      requires Valid() && addr < 0x8000_0000 && length < 0x8000_0000
      modifies pages
      ensures State() == old(State()).(pages := P.Recomputed(old(pages[..]), addr, length, P.Watched(old(State()))))
    {
      hide P.Flagged, P.Wiped, Linked, PointsOf;
      Wipe(addr, length);
      FlagAll();
    }

    method FlagAll()
      requires Valid()
      modifies pages
      ensures pages[..] == P.Flagged(old(pages[..]), read.Points() + write.Points() + access.Points())
    {
      hide P.Flagged, Linked, PointsOf;
      ghost var was, r, w, a := pages[..], read.Points(), write.Points(), access.Points();
      read.Flag(pages);
      write.Flag(pages);
      access.Flag(pages);
      FlaggedAppend(was, r, w);
      FlaggedAppend(was, r + w, a);
    }

    method Wipe(addr: nat, length: nat)
      requires pages.Length == P.PAGES && addr < 0x8000_0000 && length < 0x8000_0000
      modifies pages
      ensures pages[..] == seq(P.PAGES, i requires 0 <= i < P.PAGES => old(pages[..])[i] && !P.Wiped(addr, length, i))
    {
      if length > 0 {
        var low := P.PageOf(addr) / P.GROUP * P.GROUP;
        var high := (P.PageOf(addr) / P.GROUP + P.PageOf(length - 1) / P.GROUP + 1) * P.GROUP;
        forall i | low <= i < high {
          pages[i] := false;
        }
      }
    }

    /** The z and Z packets; inserting or removing a software breakpoint first tries
        whether its address can be written. */
    method Handle(insert: bool, kind: P.Kind, addr: nat, length: nat, mem: array<Byte>, w: W.World)
      returns (r: P.Response)
      requires Valid() && mem.Length == SPACE
      requires P.IsWatch(kind) ==> addr < 0x8000_0000 && length < 0x8000_0000
      modifies sw, hw, write, read, access, sw.nodes, hw.nodes, write.nodes, read.nodes, access.nodes, pages, mem
      ensures Valid() && mem[..] == old(mem[..])
      ensures var x := Cell(w.phys(addr));
        (r, State()) == P.Handle(old(State()), insert, kind, addr, length, w.ram(x) || mem[x] == P.INT3)
    {
      hide P.Applied, Linked, PointsOf;
      if kind == P.Software {
        var ok := Writable(mem, w, addr);
        if !ok { return P.Silent; }
      }
      r := Apply(insert, kind, addr, length);
    }

    method Apply(insert: bool, kind: P.Kind, addr: nat, length: nat) returns (r: P.Response)
      requires Valid() && (P.IsWatch(kind) ==> addr < 0x8000_0000 && length < 0x8000_0000)
      modifies sw, hw, write, read, access, sw.nodes, hw.nodes, write.nodes, read.nodes, access.nodes, pages
      ensures Valid() && (r, State()) == P.Applied(old(State()), insert, kind, addr, length)
    {
      hide P.Request, P.Recomputed, P.List, P.WithList, P.Watched, Linked, PointsOf;
      P.FailureChangesNothing(P.List(State(), kind), insert, P.New(addr, length));
      var ok := Change(insert, kind, addr, length);
      if !ok {
        P.SameList(old(State()), kind);
        return P.E22;
      }
      if kind == P.WriteWatch || kind == P.ReadWatch || kind == P.AccessWatch { Recompute(addr, length); }
      return P.Ok;
    }

    method Change(insert: bool, kind: P.Kind, addr: nat, length: nat) returns (ok: bool)
      requires Valid()
      modifies sw, hw, write, read, access, sw.nodes, hw.nodes, write.nodes, read.nodes, access.nodes
      ensures Valid()
      ensures var (done, ps) := P.Request(P.List(old(State()), kind), insert, P.New(addr, length));
        ok == done && State() == P.WithList(old(State()), kind, ps)
    {
      hide P.Request, P.List, P.WithList, Linked, PointsOf;
      if kind == P.Software || kind == P.Hardware {
        ok := ChangeBreakpoint(insert, kind, addr, length);
      } else if kind == P.AccessWatch {
        ok := ChangeAccess(insert, addr, length);
      } else {
        ok := ChangeTyped(insert, kind, addr, length);
      }
    }

    method ChangeBreakpoint(insert: bool, kind: P.Kind, addr: nat, length: nat) returns (ok: bool)
      requires Valid() && (kind == P.Software || kind == P.Hardware)
      modifies sw, hw, write, read, access, sw.nodes, hw.nodes, write.nodes, read.nodes, access.nodes
      ensures Valid()
      ensures var (done, ps) := P.Request(P.List(old(State()), kind), insert, P.New(addr, length));
        ok == done && State() == P.WithList(old(State()), kind, ps)
    {
      hide P.Request, Linked, PointsOf;
      match kind {
        case Software =>
          Others(sw, hw, write, read, access);
          ok := sw.Request(insert, addr, length);
        case Hardware =>
          Others(hw, sw, write, read, access);
          ok := hw.Request(insert, addr, length);
      }
    }

    method ChangeTyped(insert: bool, kind: P.Kind, addr: nat, length: nat) returns (ok: bool)
      requires Valid() && (kind == P.WriteWatch || kind == P.ReadWatch)
      modifies sw, hw, write, read, access, sw.nodes, hw.nodes, write.nodes, read.nodes, access.nodes
      ensures Valid()
      ensures var (done, ps) := P.Request(P.List(old(State()), kind), insert, P.New(addr, length));
        ok == done && State() == P.WithList(old(State()), kind, ps)
    {
      hide P.Request, Linked, PointsOf;
      match kind {
        case WriteWatch =>
          Others(write, sw, hw, read, access);
          ok := write.Request(insert, addr, length);
        case ReadWatch =>
          Others(read, sw, hw, write, access);
          ok := read.Request(insert, addr, length);
      }
    }

    method ChangeAccess(insert: bool, addr: nat, length: nat) returns (ok: bool)
      requires Valid()
      modifies sw, hw, write, read, access, sw.nodes, hw.nodes, write.nodes, read.nodes, access.nodes
      ensures Valid()
      ensures var (done, ps) := P.Request(P.List(old(State()), P.AccessWatch), insert, P.New(addr, length));
        ok == done && State() == P.WithList(old(State()), P.AccessWatch, ps)
    {
      hide P.Request, Linked, PointsOf;
      Others(access, sw, hw, write, read);
      ok := access.Request(insert, addr, length);
    }

    method Writable(mem: array<Byte>, w: W.World, addr: nat) returns (ok: bool)
      requires mem.Length == SPACE
      modifies mem
      ensures mem[..] == old(mem[..]) && ok == (var x := Cell(w.phys(addr)); w.ram(x) || mem[x] == P.INT3)
    {
      var x := Cell(w.phys(addr));
      var was := mem[x];
      if w.ram(x) { mem[x] := P.INT3; }
      ok := mem[x] == P.INT3;
      if w.ram(x) { mem[x] := was; }
    }

    /** gdbstub_mem_access, outside the debugger itself. */
    method MemAccess(addrs: seq<nat>, writing: bool) returns (c: A.Caught)
      requires Valid()
      ensures c == A.Looked(State(), addrs, writing)
    {
      var hit := (if writing then write else read).AnyMatch(addrs);
      if hit { return if writing then A.ByWrite else A.ByRead; }
      hit := access.AnyMatch(addrs);
      return if hit then A.ByAccess else A.No;
    }

    /** The test in front of every access and every part of one. */
    method Test(addr: nat, width: nat, writing: bool) returns (c: A.Caught)
      requires Valid() && P.Good(State()) && addr < SPACE
      ensures c == A.Tested(State(), addr, width, writing)
    {
      A.PageInMap(addr);
      if pages[P.PageOf(addr)] {
        var addrs := seq(width, i requires 0 <= i < width => (addr + i) % SPACE);
        assert addrs == A.Span(addr, width);
        c := MemAccess(addrs, writing);
      } else {
        c := A.No;
      }
    }

    /** A read or a write of the memory system, as far as watchpoints are concerned: what it
        reports is the reason to stop. */
    method Access(addr: nat, width: nat, writing: bool, mapped: bool) returns (c: A.Caught)
      requires Valid() && P.Good(State()) && addr < SPACE && A.IsWidth(width)
      ensures c == A.Accessed(State(), addr, width, writing, mapped)
      decreases width
    {
      hide Valid, P.Good, A.Looked, A.Tested, State;
      c := Test(addr, width, writing);
      if A.Splits(addr, width, writing, mapped) {
        var half := width / 2;
        var low := Access(addr, half, writing, mapped);
        var high := Access((addr + half) % SPACE, half, writing, mapped);
        c := A.Later(A.Later(c, low), high);
      }
    }
  }
}
