/** Which accesses a watchpoint catches, by the kind of the packet that set it. */
module GdbKinds {
  import opened DmaMemory
  import opened GdbPoints
  import opened GdbAccesses

  /** The address of byte i of an access. */
  function Reached(place: nat, i: nat): nat {
    (place + i) % SPACE
  }

  /** A byte of the access lies in the range of the packet. */
  predicate Overlaps(addr: nat, length: nat, place: nat, width: nat) {
    exists i :: 0 <= i < width && addr <= Reached(place, i) < (addr + length) % SPACE
  }

  /** Z2 is for writes, Z3 for reads, Z4 for both. */
  predicate Fits(kind: Kind, writing: bool) {
    (kind == WriteWatch && writing) || (kind == ReadWatch && !writing) || kind == AccessWatch
  }

  lemma NewMatches(addr: nat, length: nat, place: nat, width: nat)
    ensures Matches(New(addr, length), Span(place, width)) <==> Overlaps(addr, length, place, width)
  {
    if Overlaps(addr, length, place, width) {
      var i :| 0 <= i < width && addr <= Reached(place, i) < (addr + length) % SPACE;
      assert Span(place, width)[i] == Reached(place, i);
    }
    if Matches(New(addr, length), Span(place, width)) {
      var i :| 0 <= i < width && addr <= Span(place, width)[i] < (addr + length) % SPACE;
      assert Span(place, width)[i] == Reached(place, i);
    }
  }

  lemma OneMoreMatches(ps: seq<Point>, p: Point, addrs: seq<nat>)
    ensures AnyMatches(ps + [p], addrs) <==> AnyMatches(ps, addrs) || Matches(p, addrs)
  {
    hide Matches;
    if Matches(p, addrs) { assert Matches((ps + [p])[|ps|], addrs); }
    if AnyMatches(ps, addrs) {
      var k :| 0 <= k < |ps| && Matches(ps[k], addrs);
      assert Matches((ps + [p])[k], addrs);
    }
    if AnyMatches(ps + [p], addrs) {
      var k :| 0 <= k < |ps + [p]| && Matches((ps + [p])[k], addrs);
      if k < |ps| { assert Matches(ps[k], addrs); }
    }
  }

  lemma FreshIsAdded(ps: seq<Point>, p: Point)
    requires !Has(ps, p.addr)
    ensures Request(ps, true, p) == (true, ps + [p])
  {
  }

  /** The lists after a watchpoint has been set at an address that had none of its kind. */
  lemma Inserted(s: Stub, kind: Kind, addr: nat, length: nat, writable: bool, place: nat, width: nat)
    requires Good(s) && IsWatch(kind) && !Has(List(s, kind), addr)
    ensures Handle(s, true, kind, addr, length, writable).0 == Ok
    ensures var t := Handle(s, true, kind, addr, length, writable).1; var addrs := Span(place, width);
      && (AnyMatches(t.write, addrs) <==>
            AnyMatches(s.write, addrs) || (kind == WriteWatch && Overlaps(addr, length, place, width)))
      && (AnyMatches(t.read, addrs) <==>
            AnyMatches(s.read, addrs) || (kind == ReadWatch && Overlaps(addr, length, place, width)))
      && (AnyMatches(t.access, addrs) <==>
            AnyMatches(s.access, addrs) || (kind == AccessWatch && Overlaps(addr, length, place, width)))
  {
    hide Good, AnyMatches, Matches, Span, Request, Recomputed, Overlaps;
    FreshIsAdded(List(s, kind), New(addr, length));
    OneMoreMatches(List(s, kind), New(addr, length), Span(place, width));
    NewMatches(addr, length, place, width);
    match kind
    case WriteWatch => {}
    case ReadWatch => {}
    case AccessWatch => {}
  }

  /** After a Z2, Z3 or Z4 packet for an address that had no watchpoint of that kind, an
      access that can be translated is caught if and only if it was caught before, or it is
      a write, a read or either and one of its bytes lies in the packet's range. */
  lemma PacketCatches(s: Stub, kind: Kind, addr: nat, length: nat, writable: bool,
                      place: nat, width: nat, writing: bool)
    requires Good(s) && IsWatch(kind) && !Has(List(s, kind), addr) && place < SPACE && IsWidth(width)
    ensures var (answer, t) := Handle(s, true, kind, addr, length, writable);
      && answer == Ok && Good(t)
      && (Accessed(t, place, width, writing, true) != No
          <==> || Accessed(s, place, width, writing, true) != No
               || (Fits(kind, writing) && Overlaps(addr, length, place, width)))
  {
    HandleKeeps(s, true, kind, addr, length, writable);
    Inserted(s, kind, addr, length, writable, place, width);
    hide Good, AnyMatches, Span, Handle, Accessed, Overlaps;
    SlowPathIsCaught(s, place, width, writing, true);
    SlowPathIsCaught(Handle(s, true, kind, addr, length, writable).1, place, width, writing, true);
  }

  /** The answers to packets, and what they do to the lists: a software breakpoint whose
      address cannot be written gets no answer, a packet that asks for what there is already
      an error; neither changes anything. Any other changes whether its own kind has a point
      at its address, and nothing else. */
  lemma PacketAnswers(s: Stub, insert: bool, kind: Kind, addr: nat, length: nat, writable: bool)
    requires Good(s)
    ensures var (answer, t) := Handle(s, insert, kind, addr, length, writable);
      && (answer == Silent <==> kind == Software && !writable)
      && (answer == Ok <==> !(kind == Software && !writable) && insert != Has(List(s, kind), addr))
      && (answer != Ok ==> t == s)
      && (answer == Ok ==>
            && (forall a :: Has(t.sw, a) <==> if kind == Software && a == addr then insert else Has(s.sw, a))
            && (forall a :: Has(t.hw, a) <==> if kind == Hardware && a == addr then insert else Has(s.hw, a))
            && (forall a :: Has(t.write, a) <==> if kind == WriteWatch && a == addr then insert else Has(s.write, a))
            && (forall a :: Has(t.read, a) <==> if kind == ReadWatch && a == addr then insert else Has(s.read, a))
            && forall a :: Has(t.access, a) <==> if kind == AccessWatch && a == addr then insert else Has(s.access, a))
  {
    hide Covered, Unique, Request, Recomputed, Has, InSpace, Watched;
    assert Unique(List(s, kind));
    RequestKeepsUnique(List(s, kind), insert, New(addr, length));
    match kind
    case Software => {}
    case Hardware => {}
    case WriteWatch => {}
    case ReadWatch => {}
    case AccessWatch => {}
  }

  /** And what such a packet reports, for an access inside a page: a watchpoint for writes
      or reads comes before one for any access, and nothing changes for the accesses that
      the packet is not for. */
  lemma PacketReports(s: Stub, kind: Kind, addr: nat, length: nat, writable: bool,
                      place: nat, width: nat, writing: bool)
    requires Good(s) && IsWatch(kind) && !Has(List(s, kind), addr)
    requires place < SPACE && IsWidth(width) && !Crosses(place, width)
    ensures var t := Handle(s, true, kind, addr, length, writable).1;
      var was := Accessed(s, place, width, writing, true);
      && Good(t)
      && Accessed(t, place, width, writing, true) ==
           if !Fits(kind, writing) || !Overlaps(addr, length, place, width) then was
           else if kind == WriteWatch then ByWrite
           else if kind == ReadWatch then ByRead
           else if was == No then ByAccess
           else was
  {
    HandleKeeps(s, true, kind, addr, length, writable);
    Inserted(s, kind, addr, length, writable, place, width);
    hide Good, AnyMatches, Span, Handle, Accessed, Overlaps, Crosses;
    OnePageIsCaught(s, place, width, writing, true);
    OnePageIsCaught(Handle(s, true, kind, addr, length, writable).1, place, width, writing, true);
  }
}
