/** The lists of breakpoints and watchpoints of the debugger stub, and its page map, on values. */
module GdbPoints {
  import opened DmaMemory

  const PAGES: int := 0x10_0000       // of 4096 bytes
  const GROUP: int := 64              // pages in a word of the page map
  const INT3: Byte := 0xcc

  /** A point covers the addresses from addr up to end; a software breakpoint keeps the
      byte it replaces. */
  datatype Point = Point(addr: nat, end: nat, orig: Byte)

  datatype Kind = Software | Hardware | WriteWatch | ReadWatch | AccessWatch

  datatype Response = Ok | E22 | Silent

  datatype Stub = Stub(sw: seq<Point>, hw: seq<Point>, write: seq<Point>, read: seq<Point>, access: seq<Point>,
                       pages: seq<bool>)

  // ---- One list ----

  function Find(ps: seq<Point>, addr: nat): (k: nat)
    ensures k <= |ps| && (k < |ps| ==> ps[k].addr == addr)
    ensures forall j :: 0 <= j < k ==> ps[j].addr != addr
  {
    if ps == [] then 0
    else if ps[0].addr == addr then 0
    else
      var k := Find(ps[1..], addr);
      assert forall j :: 0 < j < k + 1 ==> ps[j] == ps[1..][j - 1];
      k + 1
  }

  function New(addr: nat, length: nat): Point {
    Point(addr, (addr + length) % SPACE, 0)
  }

  /** Insertion goes to the end and fails if the address is there; removal takes it out
      and fails if it is not. */
  function Request(ps: seq<Point>, insert: bool, p: Point): (r: (bool, seq<Point>)) {
    var k := Find(ps, p.addr);
    if insert == (k < |ps|) then (false, ps)
    else if insert then (true, ps + [p])
    else (true, ps[..k] + ps[k + 1..])
  }

  predicate Unique(ps: seq<Point>) {
    forall i, j :: 0 <= i < j < |ps| ==> ps[i].addr != ps[j].addr
  }

  predicate Has(ps: seq<Point>, addr: nat) {
    exists i :: 0 <= i < |ps| && ps[i].addr == addr
  }

  /** A request succeeds exactly when it changes something, keeps addresses unique, and
      changes membership of its own address alone. */
  lemma RequestKeepsUnique(ps: seq<Point>, insert: bool, p: Point)
    requires Unique(ps)
    ensures var (ok, qs) := Request(ps, insert, p);
      && Unique(qs) && (ok <==> insert != Has(ps, p.addr)) && Has(qs, p.addr) == insert
      && forall a :: a != p.addr ==> Has(qs, a) == Has(ps, a)
  {
    var k := Find(ps, p.addr);
    var qs := Request(ps, insert, p).1;
    if k < |ps| && !insert {
      assert forall j :: 0 <= j < |qs| ==> qs[j] == ps[if j < k then j else j + 1];
      forall a | a != p.addr
        ensures Has(qs, a) == Has(ps, a)
      {
        if Has(ps, a) {
          var i :| 0 <= i < |ps| && ps[i].addr == a;
          assert qs[if i < k then i else i - 1].addr == a;
        }
      }
    } else if k == |ps| && insert {
      assert qs[|ps|] == p;
      forall a | a != p.addr
        ensures Has(qs, a) == Has(ps, a)
      {
        if Has(ps, a) {
          var i :| 0 <= i < |ps| && ps[i].addr == a;
          assert qs[i].addr == a;
        }
      }
    }
  }

  lemma FailureChangesNothing(ps: seq<Point>, insert: bool, p: Point)
    ensures !Request(ps, insert, p).0 ==> Request(ps, insert, p).1 == ps
  {
  }

  /** Inserting a point and removing it again is the identity. */
  lemma InsertThenRemove(ps: seq<Point>, p: Point, q: Point)
    requires !Has(ps, p.addr) && q.addr == p.addr
    ensures Request(ps, true, p).0 && Request(Request(ps, true, p).1, false, q) == (true, ps)
  {
    assert forall j :: 0 <= j < |ps| ==> (ps + [p])[j] == ps[j] && ps[j].addr != p.addr;
    assert (ps + [p])[|ps|].addr == q.addr;
    assert (ps + [p])[..|ps|] + (ps + [p])[|ps| + 1..] == ps;
  }

  // ---- The page map ----

  function PageOf(a: nat): nat {
    a / 0x1000
  }

  /** The pages a watchpoint is flagged in. The end may have wrapped to zero. */
  predicate Touches(p: Point, page: nat) {
    PageOf(p.addr) <= page <= PageOf((p.end - 1) % SPACE)
  }

  /** The groups of pages that are wiped before everything is flagged again. */
  predicate Wiped(addr: nat, length: nat, page: nat) {
    length > 0 && PageOf(addr) / GROUP <= page / GROUP <= PageOf(addr) / GROUP + PageOf(length - 1) / GROUP
  }

  ghost function Flagged(pages: seq<bool>, ps: seq<Point>): (r: seq<bool>)
    ensures |r| == |pages|
  {
    seq(|pages|, i requires 0 <= i < |pages| => pages[i] || exists k :: 0 <= k < |ps| && Touches(ps[k], i))
  }

  ghost function Recomputed(pages: seq<bool>, addr: nat, length: nat, ps: seq<Point>): (r: seq<bool>)
    ensures |r| == |pages|
  {
    Flagged(seq(|pages|, i requires 0 <= i < |pages| => pages[i] && !Wiped(addr, length, i)), ps)
  }

  /** Every page of every point is flagged. */
  predicate Covered(pages: seq<bool>, ps: seq<Point>) {
    forall k, i :: 0 <= k < |ps| && 0 <= i < |pages| && Touches(ps[k], i) ==> pages[i]
  }

  // ---- Requests ----

  function List(s: Stub, kind: Kind): seq<Point> {
    match kind
    case Software => s.sw
    case Hardware => s.hw
    case WriteWatch => s.write
    case ReadWatch => s.read
    case AccessWatch => s.access
  }

  function WithList(s: Stub, kind: Kind, ps: seq<Point>): Stub {
    match kind
    case Software => s.(sw := ps)
    case Hardware => s.(hw := ps)
    case WriteWatch => s.(write := ps)
    case ReadWatch => s.(read := ps)
    case AccessWatch => s.(access := ps)
  }

  lemma SameList(s: Stub, kind: Kind)
    ensures WithList(s, kind, List(s, kind)) == s
  {
  }

  function Watched(s: Stub): seq<Point> {
    s.read + s.write + s.access
  }

  predicate IsWatch(kind: Kind) {
    kind.WriteWatch? || kind.ReadWatch? || kind.AccessWatch?
  }

  /** The z and Z packets. A software breakpoint needs an address that can be written. */
  ghost function Handle(s: Stub, insert: bool, kind: Kind, addr: nat, length: nat, writable: bool): (Response, Stub) {
    if kind.Software? && !writable then (Silent, s) else Applied(s, insert, kind, addr, length)
  }

  ghost function Applied(s: Stub, insert: bool, kind: Kind, addr: nat, length: nat): (Response, Stub) {
    var (ok, ps) := Request(List(s, kind), insert, New(addr, length));
    if !ok then (E22, s) else
      var t := WithList(s, kind, ps);
      (Ok, if IsWatch(kind) then t.(pages := Recomputed(t.pages, addr, length, Watched(t))) else t)
  }

  predicate Good(s: Stub) {
    && |s.pages| == PAGES
    && Unique(s.sw) && Unique(s.hw) && Unique(s.write) && Unique(s.read) && Unique(s.access)
    && Covered(s.pages, Watched(s)) && InSpace(Watched(s))
  }

  predicate InSpace(ps: seq<Point>) {
    forall k :: 0 <= k < |ps| ==> ps[k].end < SPACE
  }

  lemma RecomputedCovers(pages: seq<bool>, addr: nat, length: nat, ps: seq<Point>)
    ensures Covered(Recomputed(pages, addr, length, ps), ps)
  {
  }

  lemma RequestInSpace(ps: seq<Point>, insert: bool, p: Point)
    requires p.end < SPACE
    ensures InSpace(ps) ==> InSpace(Request(ps, insert, p).1)
  {
  }

  lemma WatchedInSpace(s: Stub)
    ensures InSpace(Watched(s)) <==> InSpace(s.read) && InSpace(s.write) && InSpace(s.access)
  {
    if InSpace(Watched(s)) {
      forall k | 0 <= k < |s.read|
        ensures s.read[k].end < SPACE
      {
        assert Watched(s)[k] == s.read[k];
      }
      forall k | 0 <= k < |s.write|
        ensures s.write[k].end < SPACE
      {
        assert Watched(s)[|s.read| + k] == s.write[k];
      }
      forall k | 0 <= k < |s.access|
        ensures s.access[k].end < SPACE
      {
        assert Watched(s)[|s.read| + |s.write| + k] == s.access[k];
      }
    }
  }

  lemma HandleKeeps(s: Stub, insert: bool, kind: Kind, addr: nat, length: nat, writable: bool)
    requires Good(s)
    ensures Good(Handle(s, insert, kind, addr, length, writable).1)
  {
    hide Request, Unique, Covered, Recomputed;
    var ps := Request(List(s, kind), insert, New(addr, length)).1;
    RequestKeepsUnique(List(s, kind), insert, New(addr, length));
    var t := WithList(s, kind, ps);
    RecomputedCovers(t.pages, addr, length, Watched(t));
    RequestInSpace(List(s, kind), insert, New(addr, length));
    WatchedInSpace(s);
    WatchedInSpace(t);
    hide InSpace, Watched;
    match kind
    case Software => {}
    case Hardware => {}
    case WriteWatch => {}
    case ReadWatch => {}
    case AccessWatch => {}
  }

  datatype Packet = Packet(insert: bool, kind: Kind, addr: nat, length: nat, writable: bool)

  ghost function Run(s: Stub, packets: seq<Packet>): Stub {
    if packets == [] then s else
      var p := packets[|packets| - 1];
      Handle(Run(s, packets[..|packets| - 1]), p.insert, p.kind, p.addr, p.length, p.writable).1
  }

  function Start(): Stub {
    Stub([], [], [], [], [], seq(PAGES, _ => false))
  }

  /** After any packets at all, no list holds an address twice and every page of every
      watchpoint is flagged. */
  lemma {:induction false} RunIsGood(packets: seq<Packet>)
    ensures Good(Run(Start(), packets))
  {
    hide Handle;
    if packets == [] {
    } else {
      var p := packets[|packets| - 1];
      RunIsGood(packets[..|packets| - 1]);
      HandleKeeps(Run(Start(), packets[..|packets| - 1]), p.insert, p.kind, p.addr, p.length, p.writable);
    }
  }
}
