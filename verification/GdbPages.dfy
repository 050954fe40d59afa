/** The page map after a watchpoint has been set and taken away again. */
module GdbPages {
  import opened DmaMemory
  import opened GdbPoints

  /** Some watchpoint lies, in part, in the page. */
  predicate Lies(ps: seq<Point>, page: nat) {
    exists k :: 0 <= k < |ps| && Touches(ps[k], page)
  }

  /** No page is flagged without a watchpoint in it. */
  predicate Exact(s: Stub) {
    |s.pages| == PAGES && forall i :: 0 <= i < PAGES ==> (s.pages[i] <==> Lies(Watched(s), i))
  }

  lemma FlaggedAt(pages: seq<bool>, ps: seq<Point>, i: nat)
    requires i < |pages|
    ensures Flagged(pages, ps)[i] <==> pages[i] || Lies(ps, i)
  {
  }

  lemma RecomputedAt(pages: seq<bool>, addr: nat, length: nat, ps: seq<Point>, i: nat)
    requires i < |pages|
    ensures Recomputed(pages, addr, length, ps)[i] <==> (pages[i] && !Wiped(addr, length, i)) || Lies(ps, i)
  {
    hide Flagged, Lies, Wiped;
    FlaggedAt(seq(|pages|, k requires 0 <= k < |pages| => pages[k] && !Wiped(addr, length, k)), ps, i);
  }

  lemma LiesInEither(ps: seq<Point>, qs: seq<Point>, page: nat)
    ensures Lies(ps + qs, page) <==> Lies(ps, page) || Lies(qs, page)
  {
    hide Touches;
    if Lies(ps, page) {
      var k :| 0 <= k < |ps| && Touches(ps[k], page);
      assert Touches((ps + qs)[k], page);
    }
    if Lies(qs, page) {
      var k :| 0 <= k < |qs| && Touches(qs[k], page);
      assert Touches((ps + qs)[|ps| + k], page);
    }
    if Lies(ps + qs, page) {
      var k :| 0 <= k < |ps + qs| && Touches((ps + qs)[k], page);
      if k < |ps| { assert Touches(ps[k], page); } else { assert Touches(qs[k - |ps|], page); }
    }
  }

  lemma LiesInOne(p: Point, page: nat)
    ensures Lies([p], page) <==> Touches(p, page)
  {
    if Touches(p, page) { assert Touches([p][0], page); }
  }

  /** A watchpoint of its own kind more. */
  function Extended(s: Stub, kind: Kind, p: Point): Stub {
    WithList(s, kind, List(s, kind) + [p])
  }

  lemma WatchedExtended(s: Stub, kind: Kind, p: Point, page: nat)
    requires IsWatch(kind)
    ensures Lies(Watched(Extended(s, kind, p)), page) <==> Lies(Watched(s), page) || Touches(p, page)
  {
    hide Touches, Lies;
    var t := Extended(s, kind, p);
    LiesInEither(s.read + s.write, s.access, page);
    LiesInEither(s.read, s.write, page);
    LiesInEither(t.read + t.write, t.access, page);
    LiesInEither(t.read, t.write, page);
    LiesInEither(List(s, kind), [p], page);
    LiesInOne(p, page);
    match kind
    case WriteWatch => {}
    case ReadWatch => {}
    case AccessWatch => {}
  }

  lemma NewIsAppended(ps: seq<Point>, p: Point)
    requires !Has(ps, p.addr)
    ensures Request(ps, true, p) == (true, ps + [p])
  {
  }

  /** Setting a watchpoint flags the pages it lies in and no others. */
  lemma InsertIsExact(s: Stub, kind: Kind, addr: nat, length: nat, writable: bool)
    requires Good(s) && Exact(s) && IsWatch(kind) && !Has(List(s, kind), addr)
    ensures var t := Handle(s, true, kind, addr, length, writable).1;
      && Exact(t)
      && forall i :: 0 <= i < PAGES ==> (t.pages[i] <==> s.pages[i] || Touches(New(addr, length), i))
  {
    hide Touches, Lies, Wiped, Request, Recomputed, Watched, Good;
    var p := New(addr, length);
    var t := Extended(s, kind, p);
    NewIsAppended(List(s, kind), p);
    assert Watched(Handle(s, true, kind, addr, length, writable).1) == Watched(t) by { SameWatched(t, kind); }
    forall i | 0 <= i < PAGES
      ensures var pages := Recomputed(s.pages, addr, length, Watched(t));
        (pages[i] <==> Lies(Watched(t), i)) && (pages[i] <==> s.pages[i] || Touches(p, i))
    {
      RecomputedAt(s.pages, addr, length, Watched(t), i);
      WatchedExtended(s, kind, p, i);
    }
  }

  lemma SameWatched(t: Stub, kind: Kind)
    ensures forall pages :: Watched(t.(pages := pages)) == Watched(t)
  {
  }

  /** The pages of a range, counted out. */
  lemma RangeOf(addr: nat, length: nat, page: nat)
    requires 0 < length && addr + length <= SPACE
    ensures Touches(New(addr, length), page) <==> addr / 0x1000 <= page <= (addr + length - 1) / 0x1000
  {
    var end := (addr + length) % SPACE;
    assert (end - 1) % SPACE == addr + length - 1;
  }

  /** The groups that are wiped may be one too few: the last page of the range is in one more
      exactly if the offsets of the range in its groups add up to a whole group. */
  lemma LastGroup(addr: nat, length: nat)
    requires 0 < length
    ensures var first := PageOf(addr) / GROUP; var last := PageOf(addr + length - 1) / GROUP;
      last == first + PageOf(length - 1) / GROUP
              + if addr % 0x4_0000 + (length - 1) % 0x4_0000 >= 0x4_0000 then 1 else 0
  {
    GroupOf(addr);
    GroupOf(length - 1);
    GroupOf(addr + length - 1);
    var a, b := addr / 0x4_0000, (length - 1) / 0x4_0000;
    assert addr + (length - 1) == (a + b) * 0x4_0000 + (addr % 0x4_0000 + (length - 1) % 0x4_0000);
  }

  lemma GroupOf(a: nat)
    ensures PageOf(a) / GROUP == a / 0x4_0000
  {
  }

  /** Taking a watchpoint away again as it was set restores the lists, and the pages but for
      this: a page of the range in its last group stays flagged, though nothing lies in it,
      if and only if the offsets of the range in its groups add up to a whole group. */
  lemma RemovalLeavesFlags(s: Stub, kind: Kind, addr: nat, length: nat, writable: bool, page: nat)
    requires Good(s) && Exact(s) && IsWatch(kind) && !Has(List(s, kind), addr)
    requires 0 < length && addr + length <= SPACE && page < PAGES
    ensures var t := Handle(s, true, kind, addr, length, writable).1;
      var (answer, u) := Handle(t, false, kind, addr, length, writable);
      && answer == Ok && |u.pages| == PAGES && u == s.(pages := u.pages)
      && (u.pages[page] <==>
            || s.pages[page]
            || (addr / 0x1000 <= page <= (addr + length - 1) / 0x1000
                && page / 64 == (addr + length - 1) / 0x4_0000
                && addr % 0x4_0000 + (length - 1) % 0x4_0000 >= 0x4_0000))
  {
    hide Touches, Lies, Handle, Recomputed, Watched, Has, Wiped, PageOf;
    var p := New(addr, length);
    InsertIsExact(s, kind, addr, length, writable);
    var t := Handle(s, true, kind, addr, length, writable).1;
    Removed(s, t, kind, addr, length, writable);
    RecomputedAt(t.pages, addr, length, Watched(s), page);
    RangeOf(addr, length, page);
    WipedIn(addr, length, page);
  }

  lemma Removed(s: Stub, t: Stub, kind: Kind, addr: nat, length: nat, writable: bool)
    requires IsWatch(kind) && !Has(List(s, kind), addr)
    requires t == Handle(s, true, kind, addr, length, writable).1
    ensures Handle(t, false, kind, addr, length, writable)
      == (Ok, s.(pages := Recomputed(t.pages, addr, length, Watched(s))))
  {
    hide Request, Recomputed, Has;
    var p := New(addr, length);
    NewIsAppended(List(s, kind), p);
    InsertThenRemove(List(s, kind), p, p);
    match kind
    case WriteWatch => {}
    case ReadWatch => {}
    case AccessWatch => {}
  }

  lemma WipedIn(addr: nat, length: nat, page: nat)
    requires 0 < length && page < PAGES
    ensures var spills := page / 64 == (addr + length - 1) / 0x4_0000
                          && addr % 0x4_0000 + (length - 1) % 0x4_0000 >= 0x4_0000;
      addr / 0x1000 <= page <= (addr + length - 1) / 0x1000 ==> Wiped(addr, length, page) == !spills
  {
    LastGroup(addr, length);
    GroupOf(addr + length - 1);
  }
}
