/** Accesses to memory, and the watchpoints that catch them. */
module GdbAccesses {
  import opened DmaMemory
  import opened GdbPoints

  predicate Matches(p: Point, addrs: seq<nat>) {
    exists i :: 0 <= i < |addrs| && p.addr <= addrs[i] < p.end
  }

  predicate AnyMatches(ps: seq<Point>, addrs: seq<nat>) {
    exists k :: 0 <= k < |ps| && Matches(ps[k], addrs)
  }

  datatype Caught = No | ByRead | ByWrite | ByAccess

  function Typed(s: Stub, writing: bool): seq<Point> {
    if writing then s.write else s.read
  }

  /** gdbstub_mem_access */
  function Looked(s: Stub, addrs: seq<nat>, writing: bool): Caught {
    if AnyMatches(Typed(s, writing), addrs) then (if writing then ByWrite else ByRead)
    else if AnyMatches(s.access, addrs) then ByAccess
    else No
  }

  // ---- What the memory system does ----

  /** The addresses of the bytes of an access, which may run past the end of memory. */
  function Span(addr: nat, width: nat): (addrs: seq<nat>)
    ensures |addrs| == width && forall i :: 0 <= i < width ==> addrs[i] == (addr + i) % SPACE
  {
    seq(width, i requires 0 <= i < width => (addr + i) % SPACE)
  }

  predicate IsWidth(width: nat) {
    width == 1 || width == 2 || width == 4 || width == 8
  }

  predicate Crosses(addr: nat, width: nat)
    requires IsWidth(width)
  {
    addr % width != 0 && addr % 0x1000 > 0x1000 - width
  }

  /** The test in front of every part: it looks only if the page of the first byte is flagged. */
  function Tested(s: Stub, addr: nat, width: nat, writing: bool): Caught
    requires Good(s) && addr < SPACE
  {
    PageInMap(addr);
    if s.pages[PageOf(addr)] then Looked(s, Span(addr, width), writing) else No
  }

  function Later(first: Caught, second: Caught): Caught {
    if second == No then first else second
  }

  /** An access that leaves its page is made in halves, unless one of its pages cannot be
      translated; a write of eight bytes does not find that out. */
  predicate Splits(addr: nat, width: nat, writing: bool, mapped: bool)
    requires IsWidth(width)
  {
    Crosses(addr, width) && (mapped || (writing && width == 8))
  }

  /** An access is tested as a whole, and then in the halves it is made in. A later hit
      replaces an earlier one as the reason to stop. */
  function Accessed(s: Stub, addr: nat, width: nat, writing: bool, mapped: bool): Caught
    requires Good(s) && addr < SPACE && IsWidth(width)
    decreases width
  {
    var whole := Tested(s, addr, width, writing);
    if Splits(addr, width, writing, mapped) then
      var half := width / 2;
      Later(Later(whole, Accessed(s, addr, half, writing, mapped)),
            Accessed(s, (addr + half) % SPACE, half, writing, mapped))
    else whole
  }

  // ---- Every access is caught ----

  lemma PageInMap(a: nat)
    requires a < SPACE
    ensures PageOf(a) < PAGES
  {
  }

  lemma MatchTouches(p: Point, a: nat)
    requires p.addr <= a < p.end < SPACE
    ensures Touches(p, PageOf(a))
  {
  }

  /** Every address a watchpoint matches lies in a flagged page. */
  lemma MatchIsFlagged(s: Stub, p: Point, a: nat)
    requires Good(s) && p in Watched(s) && p.addr <= a < p.end
    ensures PageOf(a) < PAGES && s.pages[PageOf(a)]
  {
    var k :| 0 <= k < |Watched(s)| && Watched(s)[k] == p;
    MatchTouches(p, a);
    assert Touches(Watched(s)[k], PageOf(a));
  }

  lemma MatchedIndex(s: Stub, addrs: seq<nat>, writing: bool) returns (p: Point, i: nat)
    requires Looked(s, addrs, writing) != No
    ensures p in Watched(s) && i < |addrs| && p.addr <= addrs[i] < p.end
  {
    var ps := if AnyMatches(Typed(s, writing), addrs) then Typed(s, writing) else s.access;
    var k :| 0 <= k < |ps| && Matches(ps[k], addrs);
    i :| 0 <= i < |addrs| && ps[k].addr <= addrs[i] < ps[k].end;
    p := ps[k];
  }

  lemma RoomInPage(addr: nat, width: nat)
    requires IsWidth(width) && !Crosses(addr, width)
    ensures addr % 0x1000 + width <= 0x1000
  {
    if addr % width == 0 { OffsetAligned(addr, width); }
  }

  lemma OffsetAligned(addr: nat, width: nat)
    requires IsWidth(width) && addr % width == 0
    ensures addr % 0x1000 + width <= 0x1000
  {
    if width == 2 { Aligned2(addr); } else if width == 4 { Aligned4(addr); } else if width == 8 { Aligned8(addr); }
  }

  lemma Aligned2(addr: nat)
    requires addr % 2 == 0
    ensures addr % 0x1000 <= 0xffe
  {
    assert addr % 0x1000 == 2 * (addr / 2 - 0x800 * (addr / 0x1000));
  }

  lemma Aligned4(addr: nat)
    requires addr % 4 == 0
    ensures addr % 0x1000 <= 0xffc
  {
    assert addr % 0x1000 == 4 * (addr / 4 - 0x400 * (addr / 0x1000));
  }

  lemma Aligned8(addr: nat)
    requires addr % 8 == 0
    ensures addr % 0x1000 <= 0xff8
  {
    assert addr % 0x1000 == 8 * (addr / 8 - 0x200 * (addr / 0x1000));
  }

  lemma SamePage(addr: nat, i: nat)
    requires addr < SPACE && addr % 0x1000 + i < 0x1000
    ensures PageOf((addr + i) % SPACE) == PageOf(addr)
  {
    assert addr + i < SPACE;
  }

  lemma NextPage(addr: nat, i: nat)
    requires addr < SPACE && 0x1000 <= addr % 0x1000 + i < 0x2000
    ensures PageOf((addr + i) % SPACE) != PageOf(addr)
  {
    assert (addr + i) / 0x1000 == addr / 0x1000 + 1;
  }

  /** An access that stays in its page is caught, and reported, as the watchpoints demand. */
  lemma OnePageIsCaught(s: Stub, addr: nat, width: nat, writing: bool, mapped: bool)
    requires Good(s) && addr < SPACE && IsWidth(width) && !Crosses(addr, width)
    ensures Accessed(s, addr, width, writing, mapped) == Looked(s, Span(addr, width), writing)
  {
    hide Good, PageOf, Looked;
    if Looked(s, Span(addr, width), writing) != No {
      var p, i := MatchedIndex(s, Span(addr, width), writing);
      MatchIsFlagged(s, p, (addr + i) % SPACE);
      RoomInPage(addr, width);
      SamePage(addr, i);
    }
  }

  lemma SpanSum(addr: nat, half: nat)
    ensures Span(addr, half + half) == Span(addr, half) + Span((addr + half) % SPACE, half)
  {
  }

  lemma SpanHalves(addr: nat, width: nat)
    requires IsWidth(width) && Crosses(addr, width)
    ensures var half := width / 2;
      IsWidth(half) && Span(addr, width) == Span(addr, half) + Span((addr + half) % SPACE, half)
  {
    hide Span;
    SpanSum(addr, width / 2);
  }

  lemma MatchesEither(ps: seq<Point>, a: seq<nat>, b: seq<nat>)
    ensures AnyMatches(ps, a + b) <==> AnyMatches(ps, a) || AnyMatches(ps, b)
  {
    if AnyMatches(ps, a) {
      var k :| 0 <= k < |ps| && Matches(ps[k], a);
      var i :| 0 <= i < |a| && ps[k].addr <= a[i] < ps[k].end;
      assert (a + b)[i] == a[i];
      assert Matches(ps[k], a + b);
    }
    if AnyMatches(ps, b) {
      var k :| 0 <= k < |ps| && Matches(ps[k], b);
      var i :| 0 <= i < |b| && ps[k].addr <= b[i] < ps[k].end;
      assert (a + b)[|a| + i] == b[i];
      assert Matches(ps[k], a + b);
    }
    if AnyMatches(ps, a + b) {
      var k :| 0 <= k < |ps| && Matches(ps[k], a + b);
      var i :| 0 <= i < |a + b| && ps[k].addr <= (a + b)[i] < ps[k].end;
      if i < |a| { assert Matches(ps[k], a); } else { assert b[i - |a|] == (a + b)[i]; assert Matches(ps[k], b); }
    }
  }

  predicate Covers(s: Stub, addrs: seq<nat>, writing: bool) {
    AnyMatches(Typed(s, writing), addrs) || AnyMatches(s.access, addrs)
  }

  /** What is reported is a kind of watchpoint that covers one of the addresses. */
  predicate Justified(s: Stub, c: Caught, addrs: seq<nat>, writing: bool) {
    && (c == ByAccess ==> AnyMatches(s.access, addrs))
    && (c == ByWrite ==> writing && AnyMatches(s.write, addrs))
    && (c == ByRead ==> !writing && AnyMatches(s.read, addrs))
  }

  lemma LookedMeans(s: Stub, addrs: seq<nat>, writing: bool)
    ensures Looked(s, addrs, writing) != No <==> Covers(s, addrs, writing)
    ensures Justified(s, Looked(s, addrs, writing), addrs, writing) && Justified(s, No, addrs, writing)
  {
    hide AnyMatches;
  }

  lemma PartsCover(s: Stub, a: seq<nat>, b: seq<nat>, c: Caught, d: Caught, writing: bool)
    ensures Covers(s, a + b, writing) <==> Covers(s, a, writing) || Covers(s, b, writing)
    ensures Justified(s, c, a, writing) && Justified(s, d, b, writing) ==> Justified(s, Later(c, d), a + b, writing)
  {
    hide AnyMatches;
    MatchesEither(s.read, a, b);
    MatchesEither(s.write, a, b);
    MatchesEither(s.access, a, b);
  }

  lemma TestedMeans(s: Stub, addr: nat, width: nat, writing: bool)
    requires Good(s) && addr < SPACE
    ensures PageOf(addr) < PAGES
    ensures var c := Tested(s, addr, width, writing);
      && (c != No <==> s.pages[PageOf(addr)] && Covers(s, Span(addr, width), writing))
      && Justified(s, c, Span(addr, width), writing)
  {
    hide Looked, Covers, Justified;
    PageInMap(addr);
    LookedMeans(s, Span(addr, width), writing);
  }

  lemma {:induction false} AccessIsExact(s: Stub, addr: nat, width: nat, writing: bool, mapped: bool)
    requires Good(s) && addr < SPACE && IsWidth(width)
    ensures var c := Accessed(s, addr, width, writing, mapped);
      && Justified(s, c, Span(addr, width), writing) && (c != No ==> Covers(s, Span(addr, width), writing))
      && (mapped && Covers(s, Span(addr, width), writing) ==> c != No)
    decreases width
  {
    hide Good, Looked, Crosses, Span, PageOf, Covers, Justified, Tested;
    if !Crosses(addr, width) {
      OnePageIsCaught(s, addr, width, writing, mapped);
      LookedMeans(s, Span(addr, width), writing);
    } else {
      TestedMeans(s, addr, width, writing);
      if Splits(addr, width, writing, mapped) {
        var half := width / 2;
        var next := (addr + half) % SPACE;
        SpanHalves(addr, width);
        AccessIsExact(s, addr, half, writing, mapped);
        AccessIsExact(s, next, half, writing, mapped);
        PartsCover(s, Span(addr, half), Span(next, half), Accessed(s, addr, half, writing, mapped),
                   Accessed(s, next, half, writing, mapped), writing);
        WholeThenHalves(s, Tested(s, addr, width, writing), Accessed(s, addr, half, writing, mapped),
                        Accessed(s, next, half, writing, mapped), Span(addr, width), writing);
      }
    }
  }

  lemma WholeThenHalves(s: Stub, whole: Caught, c: Caught, d: Caught, addrs: seq<nat>, writing: bool)
    requires Justified(s, whole, addrs, writing) && Justified(s, Later(c, d), addrs, writing)
    ensures Justified(s, Later(Later(whole, c), d), addrs, writing)
  {
    hide AnyMatches;
  }

  /** The test of the whole access decides nothing: what an access over two pages reports is
      what its last half that is caught reports. */
  lemma HalvesDecide(s: Stub, addr: nat, width: nat, writing: bool)
    requires Good(s) && addr < SPACE && IsWidth(width) && Crosses(addr, width)
    ensures var half := width / 2;
      Accessed(s, addr, width, writing, true)
        == Later(Accessed(s, addr, half, writing, true), Accessed(s, (addr + half) % SPACE, half, writing, true))
  {
    hide Good, Looked, Crosses, Span, PageOf, Covers, Justified, Tested;
    var half := width / 2;
    var next := (addr + half) % SPACE;
    SpanHalves(addr, width);
    TestedMeans(s, addr, width, writing);
    PartsCover(s, Span(addr, half), Span(next, half), No, No, writing);
    AccessIsExact(s, addr, half, writing, true);
    AccessIsExact(s, next, half, writing, true);
  }

  /** Every access that the memory system makes, whether or not it leaves its page, is
      caught if and only if a watchpoint for its kind, or for any access, covers one of its
      bytes; what is reported is a kind of watchpoint that does. One that faults is caught
      only if a watchpoint covers one of its bytes. */
  lemma SlowPathIsCaught(s: Stub, addr: nat, width: nat, writing: bool, mapped: bool)
    requires Good(s) && addr < SPACE && IsWidth(width)
    ensures var c := Accessed(s, addr, width, writing, mapped); var addrs := Span(addr, width);
      && (c != No ==> AnyMatches(Typed(s, writing), addrs) || AnyMatches(s.access, addrs))
      && (mapped && (AnyMatches(Typed(s, writing), addrs) || AnyMatches(s.access, addrs)) ==> c != No)
      && (c == ByAccess ==> AnyMatches(s.access, addrs))
      && (c == ByWrite ==> writing && AnyMatches(s.write, addrs))
      && (c == ByRead ==> !writing && AnyMatches(s.read, addrs))
  {
    hide Good, AnyMatches, Accessed, Span;
    AccessIsExact(s, addr, width, writing, mapped);
  }

  /** An access over two pages that faults is caught if and only if it is covered and its
      first page is flagged, or it is a write of eight bytes whose second half is covered and
      lies in the second page. */
  lemma FaultIsCaught(s: Stub, addr: nat, width: nat, writing: bool)
    requires Good(s) && addr < SPACE && IsWidth(width) && Crosses(addr, width)
    ensures PageOf(addr) < PAGES
    ensures var next := (addr + width / 2) % SPACE;
      Accessed(s, addr, width, writing, false) != No <==>
        || (s.pages[PageOf(addr)] && Covers(s, Span(addr, width), writing))
        || (writing && width == 8 && PageOf(next) != PageOf(addr) && Covers(s, Span(next, 4), writing))
  {
    hide Good, Looked, Crosses, Span, PageOf, Covers, Justified, Tested;
    var next := (addr + width / 2) % SPACE;
    TestedMeans(s, addr, width, writing);
    if writing && width == 8 {
      TestedMeans(s, addr, 4, writing);
      TestedMeans(s, next, 4, writing);
      SpanHalves(addr, 8);
      MiddlePage(addr);
      PartsCover(s, Span(addr, 4), Span(next, 4), No, No, writing);
      if PageOf(next) != PageOf(addr) {
        OnePageIsCaught(s, next, 4, writing, false);
        LookedMeans(s, Span(next, 4), writing);
      }
    }
  }

  /** The second half of eight bytes that leave their page begins in the first page exactly
      if it leaves that page again. */
  lemma MiddlePage(addr: nat)
    requires addr < SPACE && Crosses(addr, 8)
    ensures var next := (addr + 4) % SPACE; Crosses(next, 4) <==> PageOf(next) == PageOf(addr)
  {
    var next := (addr + 4) % SPACE;
    if addr % 0x1000 < 0xffc {
      SamePage(addr, 4);
      assert next == addr + 4 && next % 0x1000 == addr % 0x1000 + 4;
      assert addr % 4 != 0 by { if addr % 4 == 0 { Aligned8Or4(addr); } }
    } else {
      NextPage(addr, 4);
      assert next % 0x1000 == addr % 0x1000 + 4 - 0x1000;
    }
  }

  lemma Aligned8Or4(addr: nat)
    requires addr % 4 == 0 && addr % 0x1000 > 0xff8
    ensures addr % 0x1000 >= 0xffc
  {
    assert addr % 0x1000 == 4 * (addr / 4 - 0x400 * (addr / 0x1000));
  }

  /** An access is made in halves exactly if its bytes do not lie in one page. */
  lemma SplitIffTwoPages(addr: nat, width: nat)
    requires addr < SPACE && IsWidth(width)
    ensures Crosses(addr, width) <==> PageOf(Span(addr, width)[width - 1]) != PageOf(addr)
  {
    if Crosses(addr, width) {
      NextPage(addr, width - 1);
    } else {
      RoomInPage(addr, width);
      SamePage(addr, width - 1);
    }
  }
}
