/** The processor's look-up tables of pages, and the accesses that pass the debugger by. */
module GdbLookups {
  import opened DmaMemory
  import opened GdbPoints
  import opened GdbAccesses

  const ENTRIES: int := 256

  /** One of the two tables. The core goes straight to the memory of a page that is open; a
      guarded page holds translated code and is written through the memory system. The ring
      holds the pages in the order they were added, -1 for none, and next is the entry to
      use again. */
  datatype Table = Table(open: seq<bool>, guarded: seq<bool>, ring: seq<int>, next: nat)

  predicate Shaped(t: Table) {
    && |t.open| == PAGES && |t.guarded| == PAGES && |t.ring| == ENTRIES && t.next < ENTRIES
    && forall i :: 0 <= i < ENTRIES ==> -1 <= t.ring[i] < PAGES
  }

  /** Every page in the table is in the ring, so that a flush finds it. */
  ghost predicate Sound(t: Table) {
    && Shaped(t)
    && forall p: nat {:trigger t.open[p]} {:trigger t.guarded[p]} ::
         p < PAGES && (t.open[p] || t.guarded[p]) ==> p in t.ring
  }

  function Empty(): Table {
    Table(seq(PAGES, _ => false), seq(PAGES, _ => false), seq(ENTRIES, _ => -1), 0)
  }

  /** addreadlookup and addwritelookup: a page that is there already is left alone, except
      that the second looks only for guarded ones. */
  function Add(t: Table, page: nat, writing: bool, coded: bool): Table
    requires Shaped(t) && page < PAGES
  {
    if if writing then t.guarded[page] else t.open[page] then t else
      var oldest := t.ring[t.next];
      var open := if oldest >= 0 then t.open[oldest := false] else t.open;
      var guarded := if oldest >= 0 then t.guarded[oldest := false] else t.guarded;
      Table(if writing && coded then open else open[page := true],
            if writing && coded then guarded[page := true] else guarded,
            t.ring[t.next := page], (t.next + 1) % ENTRIES)
  }

  /** flushmmucache, for one of the tables. */
  function Flushed(t: Table): Table
    requires Shaped(t)
  {
    Table(seq(PAGES, p requires 0 <= p < PAGES => t.open[p] && p !in t.ring),
          seq(PAGES, p requires 0 <= p < PAGES => t.guarded[p] && p !in t.ring),
          seq(ENTRIES, _ => -1), t.next)
  }

  lemma AddIsSound(t: Table, page: nat, writing: bool, coded: bool)
    requires Sound(t) && page < PAGES
    ensures Sound(Add(t, page, writing, coded))
  {
    var u := Add(t, page, writing, coded);
    if u != t {
      forall p: nat | p < PAGES && (u.open[p] || u.guarded[p])
        ensures p in u.ring
      {
        if p == page {
          assert u.ring[t.next] == page;
        } else {
          assert p in t.ring;
          var i :| 0 <= i < ENTRIES && t.ring[i] == p;
          assert u.ring[i] == p;
        }
      }
    }
  }

  /** Nothing survives a flush. */
  lemma FlushIsEmpty(t: Table, page: nat)
    requires Sound(t) && page < PAGES
    ensures Sound(Flushed(t)) && !Flushed(t).open[page] && !Flushed(t).guarded[page]
  {
    forall p: nat | p < PAGES
      ensures !Flushed(t).open[p] && !Flushed(t).guarded[p]
    {
      if t.open[p] || t.guarded[p] { assert p in t.ring; }
    }
  }

  // ---- Accesses of the core ----

  datatype Tables = Tables(read: Table, write: Table)
  {
    function Get(writing: bool): Table {
      if writing then write else read
    }

    function Put(writing: bool, t: Table): Tables {
      if writing then this.(write := t) else this.(read := t)
    }
  }

  /** Which pages lead to RAM, and which hold translated code. */
  datatype World = World(ram: nat -> bool, coded: nat -> bool)

  /** What the RAM handlers do with the address they are reached at. */
  function AddedAt(w: World, t: Table, addr: nat, writing: bool): Table
    requires Shaped(t) && addr < SPACE
  {
    PageInMap(addr);
    if w.ram(PageOf(addr)) && addr != 0xffff_ffff
    then Add(t, PageOf(addr), writing, w.coded(PageOf(addr))) else t
  }

  /** A part that stays in its page: a misaligned one may still find the page open; eight
      bytes are two calls of the handler. */
  function Filled(w: World, t: Table, addr: nat, width: nat, writing: bool): Table
    requires Shaped(t) && addr < SPACE && IsWidth(width)
  {
    PageInMap(addr);
    if addr % width != 0 && t.open[PageOf(addr)] then t
    else
      var u := AddedAt(w, t, addr, writing);
      AddIsShaped(w, t, addr, writing);
      if width == 8 then AddedAt(w, u, addr, writing) else u
  }

  lemma AddIsShaped(w: World, t: Table, addr: nat, writing: bool)
    requires Shaped(t) && addr < SPACE
    ensures Shaped(AddedAt(w, t, addr, writing))
  {
  }

  /** The table after an access through the memory system. */
  function Slow(w: World, t: Table, addr: nat, width: nat, writing: bool, mapped: bool): (u: Table)
    requires Shaped(t) && addr < SPACE && IsWidth(width)
    ensures Shaped(u)
    decreases width
  {
    if !mapped then t
    else if Crosses(addr, width) then
      var half := width / 2;
      var next: nat := (addr + half) % SPACE;
      Slow(w, Slow(w, t, addr, half, writing, true), next, half, writing, true)
    else
      FilledIsShaped(w, t, addr, width, writing);
      Filled(w, t, addr, width, writing)
  }

  lemma FilledIsShaped(w: World, t: Table, addr: nat, width: nat, writing: bool)
    requires Shaped(t) && addr < SPACE && IsWidth(width)
    ensures Shaped(Filled(w, t, addr, width, writing))
  {
    hide AddedAt;
    AddIsShaped(w, t, addr, writing);
    AddIsShaped(w, AddedAt(w, t, addr, writing), addr, writing);
  }

  /** The core goes straight to memory if the page of the first byte is open, the access is
      aligned and its segment usable. */
  predicate Straight(t: Table, addr: nat, width: nat, usable: bool)
    requires Shaped(t) && addr < SPACE && IsWidth(width)
  {
    PageInMap(addr);
    t.open[PageOf(addr)] && usable && addr % width == 0
  }

  ghost predicate Ready(s: Stub, ts: Tables) {
    Good(s) && Sound(ts.read) && Sound(ts.write)
  }

  /** An access of the core: what it is caught by, and the tables afterwards. */
  function Core(s: Stub, w: World, ts: Tables, addr: nat, width: nat, writing: bool, usable: bool, mapped: bool)
    : (Caught, Tables)
    requires Ready(s, ts) && addr < SPACE && IsWidth(width)
  {
    var t := ts.Get(writing);
    if Straight(t, addr, width, usable) then (No, ts)
    else (Accessed(s, addr, width, writing, mapped), ts.Put(writing, Slow(w, t, addr, width, writing, mapped)))
  }

  /** What the debugger sees of the core's accesses: one is caught if and only if a
      watchpoint for its kind, or for any access, covers one of its bytes, and its page is
      not open to the core, or it is misaligned, or its segment is not usable. One that
      faults is caught only if so. */
  lemma CoreCatches(s: Stub, w: World, ts: Tables, addr: nat, width: nat, writing: bool, usable: bool, mapped: bool)
    requires Ready(s, ts) && addr < SPACE && IsWidth(width)
    ensures PageOf(addr) < PAGES
    ensures var c := Core(s, w, ts, addr, width, writing, usable, mapped).0;
      var covered := AnyMatches(Typed(s, writing), Span(addr, width)) || AnyMatches(s.access, Span(addr, width));
      var open := ts.Get(writing).open[PageOf(addr)];
      && (c != No ==> covered && !(open && usable && addr % width == 0))
      && (mapped && covered && !(open && usable && addr % width == 0) ==> c != No)
      && Justified(s, c, Span(addr, width), writing)
  {
    hide Good, AnyMatches, Accessed;
    PageInMap(addr);
    AccessIsExact(s, addr, width, writing, mapped);
  }

  // ---- The tables over runs ----

  lemma AddedIsSound(w: World, t: Table, addr: nat, writing: bool)
    requires Sound(t) && addr < SPACE
    ensures Sound(AddedAt(w, t, addr, writing))
  {
    hide Add, Sound;
    PageInMap(addr);
    if w.ram(PageOf(addr)) { AddIsSound(t, PageOf(addr), writing, w.coded(PageOf(addr))); }
  }

  lemma FilledIsSound(w: World, t: Table, addr: nat, width: nat, writing: bool)
    requires Sound(t) && addr < SPACE && IsWidth(width)
    ensures Shaped(t) && Sound(Filled(w, t, addr, width, writing))
  {
    hide Sound, AddedAt;
    SoundIsShaped(t);
    AddedIsSound(w, t, addr, writing);
    SoundIsShaped(AddedAt(w, t, addr, writing));
    AddedIsSound(w, AddedAt(w, t, addr, writing), addr, writing);
  }

  lemma SlowInHalves(w: World, t: Table, addr: nat, width: nat, writing: bool)
    requires Shaped(t) && addr < SPACE && IsWidth(width) && Crosses(addr, width)
    ensures var half := width / 2; var next: nat := (addr + half) % SPACE;
      && IsWidth(half)
      && Slow(w, t, addr, width, writing, true)
           == Slow(w, Slow(w, t, addr, half, writing, true), next, half, writing, true)
  {
    hide Crosses, Filled;
    SpanHalves(addr, width);
  }

  lemma {:induction false} SlowIsSound(w: World, t: Table, addr: nat, width: nat, writing: bool, mapped: bool)
    requires Sound(t) && addr < SPACE && IsWidth(width)
    ensures Shaped(t) && Sound(Slow(w, t, addr, width, writing, mapped))
    decreases width
  {
    hide Sound, Crosses, Slow;
    SoundIsShaped(t);
    if mapped && Crosses(addr, width) {
      var half := width / 2;
      SlowInHalves(w, t, addr, width, writing);
      SlowIsSound(w, t, addr, half, writing, true);
      SlowIsSound(w, Slow(w, t, addr, half, writing, true), (addr + half) % SPACE, half, writing, true);
    } else {
      PartIsSound(w, t, addr, width, writing, mapped);
    }
  }

  lemma PartIsSound(w: World, t: Table, addr: nat, width: nat, writing: bool, mapped: bool)
    requires Sound(t) && addr < SPACE && IsWidth(width) && !(mapped && Crosses(addr, width))
    ensures Shaped(t) && Sound(Slow(w, t, addr, width, writing, mapped))
  {
    hide Sound, Filled, Crosses;
    FilledIsSound(w, t, addr, width, writing);
  }

  lemma SoundIsShaped(t: Table)
    requires Sound(t)
    ensures Shaped(t)
  {
  }

  /** Packets of the debugger, accesses of the core and flushes, in any order. */
  datatype Event =
    | Request(packet: Packet)
    | Access(addr: nat, width: nat, writing: bool, usable: bool, mapped: bool)
    | Flush

  predicate IsEvent(e: Event) {
    e.Access? ==> e.addr < SPACE && IsWidth(e.width)
  }

  /** A packet leaves the tables as they are. */
  ghost function Step(s: Stub, w: World, ts: Tables, e: Event): (Stub, Tables)
    requires Ready(s, ts) && IsEvent(e)
  {
    match e
    case Request(p) => (Handle(s, p.insert, p.kind, p.addr, p.length, p.writable).1, ts)
    case Access(addr, width, writing, usable, mapped) =>
      (s, Core(s, w, ts, addr, width, writing, usable, mapped).1)
    case Flush => (s, Tables(Flushed(ts.read), Flushed(ts.write)))
  }

  /** Any step at all keeps the debugger's lists in order and every open page in its ring, so
      that a flush closes it. */
  lemma StepIsReady(s: Stub, w: World, ts: Tables, e: Event)
    requires Ready(s, ts) && IsEvent(e)
    ensures var (q, us) := Step(s, w, ts, e); Ready(q, us)
  {
    hide Good, Sound, Handle, Slow, Flushed;
    match e
    case Request(p) => HandleKeeps(s, p.insert, p.kind, p.addr, p.length, p.writable);
    case Access(addr, width, writing, usable, mapped) =>
      SlowIsSound(w, ts.Get(writing), addr, width, writing, mapped);
    case Flush =>
      FlushIsEmpty(ts.read, 0);
      FlushIsEmpty(ts.write, 0);
  }

  ghost predicate Going(s: Stub, ts: Tables, events: seq<Event>) {
    Ready(s, ts) && forall k :: 0 <= k < |events| ==> IsEvent(events[k])
  }

  ghost function AfterAll(s: Stub, w: World, ts: Tables, events: seq<Event>): (Stub, Tables)
    requires Going(s, ts, events)
    decreases |events|
  {
    if events == [] then (s, ts) else
      StepIsReady(s, w, ts, events[0]);
      AfterAll(Step(s, w, ts, events[0]).0, w, Step(s, w, ts, events[0]).1, events[1..])
  }

  lemma {:induction false} RunIsReady(s: Stub, w: World, ts: Tables, events: seq<Event>)
    requires Going(s, ts, events)
    ensures var (q, us) := AfterAll(s, w, ts, events); Ready(q, us)
    decreases |events|
  {
    hide Ready, Step;
    if events != [] {
      StepIsReady(s, w, ts, events[0]);
      RunIsReady(Step(s, w, ts, events[0]).0, w, Step(s, w, ts, events[0]).1, events[1..]);
    }
  }

  /** Over whole runs from the start: after any packets, accesses and flushes, an access
      that can be translated is caught if and only if a watchpoint set by then covers one of
      its bytes and the core does not go straight to memory. */
  lemma RunCatches(w: World, events: seq<Event>, addr: nat, width: nat, writing: bool, usable: bool)
    requires Going(Start(), Tables(Empty(), Empty()), events) && addr < SPACE && IsWidth(width)
    ensures var (s, ts) := AfterAll(Start(), w, Tables(Empty(), Empty()), events);
      && Ready(s, ts)
      && (Core(s, w, ts, addr, width, writing, usable, true).0 != No
          <==> (AnyMatches(Typed(s, writing), Span(addr, width)) || AnyMatches(s.access, Span(addr, width)))
               && !Straight(ts.Get(writing), addr, width, usable))
  {
    hide Good, Sound, AnyMatches, Core, AfterAll, Start, Empty;
    RunIsReady(Start(), w, Tables(Empty(), Empty()), events);
    var (s, ts) := AfterAll(Start(), w, Tables(Empty(), Empty()), events);
    SoundIsShaped(ts.Get(writing));
    CoreCatches(s, w, ts, addr, width, writing, usable, true);
  }

  // ---- An access opens its page ----

  /** A page that is not open is open after an access in it, exactly if it is RAM, without
      translated code if written, and the access does not begin at the last address. */
  lemma AccessOpens(w: World, t: Table, addr: nat, width: nat, writing: bool)
    requires Shaped(t) && addr < SPACE && IsWidth(width) && !Crosses(addr, width)
    requires PageOf(addr) < PAGES && !t.open[PageOf(addr)]
    ensures Slow(w, t, addr, width, writing, true).open[PageOf(addr)] <==>
      w.ram(PageOf(addr)) && addr != 0xffff_ffff && !(writing && (w.coded(PageOf(addr)) || t.guarded[PageOf(addr)]))
  {
    var u := AddedAt(w, t, addr, writing);
    AddIsShaped(w, t, addr, writing);
    hide Crosses;
  }

  /** So a watched page is good for one access: after it the core goes straight to memory at
      every aligned access to the page, whatever watchpoints there are by then. */
  lemma SecondIsMissed(s: Stub, w: World, ts: Tables, addr: nat, width: nat, writing: bool, r: Stub, again: nat,
    size: nat)
    requires Ready(s, ts) && addr < SPACE && IsWidth(width) && addr % width == 0
    requires PageOf(addr) < PAGES && w.ram(PageOf(addr)) && addr != 0xffff_ffff
    requires writing ==> !w.coded(PageOf(addr)) && !ts.write.guarded[PageOf(addr)]
    requires Good(r) && again < SPACE && IsWidth(size) && again % size == 0 && PageOf(again) == PageOf(addr)
    ensures var us := Core(s, w, ts, addr, width, writing, true, true).1;
      Ready(r, us) && Core(r, w, us, again, size, writing, true, true) == (No, us)
  {
    hide Good, Sound, Slow, PageOf;
    SoundIsShaped(ts.read);
    SoundIsShaped(ts.write);
    SlowIsSound(w, ts.Get(writing), addr, width, writing, true);
    if !ts.Get(writing).open[PageOf(addr)] { AccessOpens(w, ts.Get(writing), addr, width, writing); }
  }

  /** An instance: a watched word of RAM is read twice, and only the first read is caught. */
  lemma WatchedTwice()
    ensures var (s, ts) := (OneWatch(), Tables(Empty(), Empty()));
      && Ready(s, ts) && Core(s, AllRam(), ts, 0x2000, 4, false, true, true).0 == ByRead
      && var us := Core(s, AllRam(), ts, 0x2000, 4, false, true, true).1;
         Ready(s, us) && Core(s, AllRam(), us, 0x2000, 4, false, true, true) == (No, us)
  {
    var (s, ts) := (OneWatch(), Tables(Empty(), Empty()));
    OneWatchIsGood();
    EmptyIsSound();
    hide OneWatch, Good, Sound, Slow, Accessed;
    CoreCatches(s, AllRam(), ts, 0x2000, 4, false, true, true);
    SecondIsMissed(s, AllRam(), ts, 0x2000, 4, false, s, 0x2000, 4);
  }

  /** And a page that the core has read before the watchpoint is set is never caught at all. */
  lemma WatchedTooLate()
    ensures var (s, ts) := (Start(), Tables(Empty(), Empty()));
      && Ready(s, ts)
      && var us := Core(s, AllRam(), ts, 0x2000, 4, false, true, true).1;
         Ready(OneWatch(), us) && Core(OneWatch(), AllRam(), us, 0x2000, 4, false, true, true) == (No, us)
  {
    RunIsGood([]);
    OneWatchIsGood();
    EmptyIsSound();
    hide OneWatch, Start, Good, Sound, Slow, Accessed;
    SecondIsMissed(Start(), AllRam(), Tables(Empty(), Empty()), 0x2000, 4, false, OneWatch(), 0x2000, 4);
  }

  function AllRam(): World {
    World(page => true, page => false)
  }

  ghost function OneWatch(): Stub {
    Handle(Start(), true, ReadWatch, 0x2000, 4, true).1
  }

  lemma EmptyIsSound()
    ensures Sound(Empty())
  {
  }

  lemma OneWatchIsGood()
    ensures var s := OneWatch();
      && Good(s) && s.access == [] && AnyMatches(s.read, Span(0x2000, 4))
  {
    RunIsGood([]);
    HandleKeeps(Start(), true, ReadWatch, 0x2000, 4, true);
    var s := OneWatch();
    assert s.read == [Point(0x2000, 0x2004, 0)];
    assert Span(0x2000, 4)[0] == 0x2000;
    assert Matches(s.read[0], Span(0x2000, 4));
  }

  // ---- How long a page stays open to reads ----

  /** The read table: its open pages are those in the ring, each once. */
  ghost predicate Queued(t: Table) {
    && Shaped(t)
    && (forall p: nat :: p < PAGES ==> (t.open[p] <==> p in t.ring))
    && (forall p: nat :: p < PAGES ==> !t.guarded[p])
    && forall i, j :: 0 <= i < j < ENTRIES && t.ring[i] >= 0 ==> t.ring[i] != t.ring[j]
  }

  /** How many pages can still be added before the entry at place i is used again. */
  function Left(t: Table, i: nat): nat
    requires t.next < ENTRIES && i < ENTRIES
  {
    (i - t.next) % ENTRIES
  }

  lemma AddIsQueued(t: Table, page: nat)
    requires Queued(t) && page < PAGES
    ensures Queued(Add(t, page, false, false))
  {
    var u := Add(t, page, false, false);
    if u != t {
      assert page !in t.ring;
      forall p: nat | p < PAGES
        ensures u.open[p] <==> p in u.ring
      {
        if p == page {
          assert u.ring[t.next] == page;
        } else if p in u.ring {
          var i :| 0 <= i < ENTRIES && u.ring[i] == p;
          assert t.ring[i] == p;
        } else if p in t.ring {
          var i :| 0 <= i < ENTRIES && t.ring[i] == p;
          assert u.ring[i] in u.ring;
        }
      }
    }
  }

  /** Adding a page that is not open takes one away from what an entry has left, and closes
      the page that has nothing left. */
  lemma AddAges(t: Table, page: nat, i: nat)
    requires Queued(t) && page < PAGES && i < ENTRIES && t.ring[i] >= 0 && page != t.ring[i]
    ensures var u := Add(t, page, false, false); var p: nat := t.ring[i];
      if t.open[page] then u == t
      else if Left(t, i) == 0 then !u.open[p]
      else u.ring[i] == p && u.open[p] && Left(u, i) == Left(t, i) - 1
  {
    AddIsQueued(t, page);
    var u := Add(t, page, false, false);
    assert t.ring[i] in t.ring;
    if !t.open[page] && Left(t, i) != 0 { assert u.ring[i] in u.ring; }
  }

  function AddAll(t: Table, pages: seq<nat>): (u: Table)
    requires Shaped(t) && forall k :: 0 <= k < |pages| ==> pages[k] < PAGES
    ensures Shaped(u)
    decreases |pages|
  {
    if pages == [] then t else AddAll(Add(t, pages[0], false, false), pages[1..])
  }

  /** How many of the pages are not open at their turn. */
  function Additions(t: Table, pages: seq<nat>): nat
    requires Shaped(t) && forall k :: 0 <= k < |pages| ==> pages[k] < PAGES
    decreases |pages|
  {
    if pages == [] then 0
    else (if t.open[pages[0]] then 0 else 1) + Additions(Add(t, pages[0], false, false), pages[1..])
  }

  lemma {:induction false} StaysClosed(t: Table, pages: seq<nat>, p: nat)
    requires Shaped(t) && (forall k :: 0 <= k < |pages| ==> pages[k] < PAGES && pages[k] != p)
    requires p < PAGES && !t.open[p]
    ensures !AddAll(t, pages).open[p]
    decreases |pages|
  {
    if pages != [] { StaysClosed(Add(t, pages[0], false, false), pages[1..], p); }
  }

  /** An open page that is not read again stays open until just as many others have been
      added as its entry had left. */
  lemma {:induction false} OpenUntilEvicted(t: Table, pages: seq<nat>, i: nat)
    requires Queued(t) && i < ENTRIES && t.ring[i] >= 0
    requires Shaped(t) && forall k :: 0 <= k < |pages| ==> pages[k] < PAGES && pages[k] != t.ring[i]
    ensures AddAll(t, pages).open[t.ring[i]] <==> Additions(t, pages) <= Left(t, i)
    decreases |pages|
  {
    QueuedIsShaped(t);
    hide Queued, Add, Left;
    var p: nat := t.ring[i];
    if pages == [] {
      OpenIfInRing(t, i);
    } else {
      var u := Add(t, pages[0], false, false);
      AddIsQueued(t, pages[0]);
      AddAges(t, pages[0], i);
      QueuedIsShaped(u);
      if t.open[pages[0]] || Left(t, i) != 0 {
        OpenUntilEvicted(u, pages[1..], i);
      } else {
        StaysClosed(u, pages[1..], p);
      }
    }
  }

  lemma OpenIfInRing(t: Table, i: nat)
    requires Queued(t) && i < ENTRIES && t.ring[i] >= 0
    ensures t.open[t.ring[i]]
  {
    assert t.ring[i] in t.ring;
  }

  lemma QueuedIsShaped(t: Table)
    requires Queued(t)
    ensures Shaped(t)
  {
  }

  // ---- Runs of reads ----

  /** The pages whose RAM handlers a read through the memory system reaches. */
  function Asks(w: World, addr: nat, width: nat, mapped: bool): (pages: seq<nat>)
    requires addr < SPACE && IsWidth(width)
    ensures forall k :: 0 <= k < |pages| ==> pages[k] < PAGES
    decreases width
  {
    PageInMap(addr);
    if !mapped then []
    else if Crosses(addr, width) then
      var half := width / 2;
      Asks(w, addr, half, true) + Asks(w, (addr + half) % SPACE, half, true)
    else if w.ram(PageOf(addr)) && addr != 0xffff_ffff then [PageOf(addr)]
    else []
  }

  lemma {:induction false} AddAllAppend(t: Table, a: seq<nat>, b: seq<nat>)
    requires Shaped(t)
    requires (forall k :: 0 <= k < |a| ==> a[k] < PAGES) && forall k :: 0 <= k < |b| ==> b[k] < PAGES
    ensures AddAll(t, a + b) == AddAll(AddAll(t, a), b)
    decreases |a|
  {
    if a == [] {
      assert [] + b == b;
    } else {
      assert (a + b)[0] == a[0] && (a + b)[1..] == a[1..] + b;
      AddAllAppend(Add(t, a[0], false, false), a[1..], b);
    }
  }

  lemma AddTwice(t: Table, page: nat)
    requires Shaped(t) && page < PAGES
    ensures var u := Add(t, page, false, false); Shaped(u) && Add(u, page, false, false) == u
  {
  }

  lemma AskedInHalves(w: World, addr: nat, width: nat)
    requires addr < SPACE && IsWidth(width) && Crosses(addr, width)
    ensures var half := width / 2; var next: nat := (addr + half) % SPACE;
      IsWidth(half) && Asks(w, addr, width, true) == Asks(w, addr, half, true) + Asks(w, next, half, true)
  {
    hide Crosses;
    SpanHalves(addr, width);
  }

  lemma InOne(w: World, t: Table, addr: nat, width: nat)
    requires Shaped(t) && addr < SPACE && IsWidth(width) && !Crosses(addr, width)
    ensures Slow(w, t, addr, width, false, true) == AddAll(t, Asks(w, addr, width, true))
  {
    hide Crosses, Filled, AddAll, Shaped;
    PageInMap(addr);
    FilledAddsAsked(w, t, addr, width);
  }

  lemma NotMapped(w: World, t: Table, addr: nat, width: nat)
    requires Shaped(t) && addr < SPACE && IsWidth(width)
    ensures Slow(w, t, addr, width, false, false) == AddAll(t, Asks(w, addr, width, false))
  {
    AddNone(t);
  }

  lemma {:induction false} SlowAddsAsked(w: World, t: Table, addr: nat, width: nat, mapped: bool)
    requires Shaped(t) && addr < SPACE && IsWidth(width)
    ensures Slow(w, t, addr, width, false, mapped) == AddAll(t, Asks(w, addr, width, mapped))
    decreases width
  {
    hide Shaped, AddAll, Crosses, Slow, Asks;
    if !mapped {
      NotMapped(w, t, addr, width);
    } else if Crosses(addr, width) {
      var half := width / 2;
      var next: nat := (addr + half) % SPACE;
      SlowInHalves(w, t, addr, width, false);
      AskedInHalves(w, addr, width);
      SlowAddsAsked(w, t, addr, half, true);
      SlowAddsAsked(w, AddAll(t, Asks(w, addr, half, true)), next, half, true);
      AddAllAppend(t, Asks(w, addr, half, true), Asks(w, next, half, true));
    } else {
      InOne(w, t, addr, width);
    }
  }

  lemma AddNone(t: Table)
    requires Shaped(t)
    ensures AddAll(t, []) == t
  {
  }

  lemma FilledAddsAsked(w: World, t: Table, addr: nat, width: nat)
    requires Shaped(t) && addr < SPACE && IsWidth(width) && PageOf(addr) < PAGES
    ensures Filled(w, t, addr, width, false)
      == AddAll(t, if w.ram(PageOf(addr)) && addr != 0xffff_ffff then [PageOf(addr)] else [])
  {
    hide Shaped, Add;
    var p := PageOf(addr);
    AddTwice(t, p);
    AddOpen(t, p);
    AddOpen(Add(t, p, false, false), p);
    assert AddAll(t, [p]) == Add(t, p, false, false);
    assert AddAll(t, []) == t;
  }

  lemma AddOpen(t: Table, page: nat)
    requires Shaped(t) && page < PAGES
    ensures t.open[page] ==> Add(t, page, false, false) == t
    ensures forall coded :: Add(t, page, false, coded) == Add(t, page, false, false)
  {
  }

  datatype Read = Read(addr: nat, width: nat, usable: bool, mapped: bool)

  predicate AreReads(rs: seq<Read>) {
    forall k :: 0 <= k < |rs| ==> rs[k].addr < SPACE && IsWidth(rs[k].width)
  }

  /** The read table after reads of the core. */
  function AfterReads(w: World, t: Table, rs: seq<Read>): (u: Table)
    requires Shaped(t) && AreReads(rs)
    ensures Shaped(u)
    decreases |rs|
  {
    if rs == [] then t else
      var r := rs[0];
      var u := if Straight(t, r.addr, r.width, r.usable) then t else Slow(w, t, r.addr, r.width, false, r.mapped);
      AfterReads(w, u, rs[1..])
  }

  /** The pages whose RAM handlers the reads would reach if no page were open. */
  function Asked(w: World, rs: seq<Read>): (pages: seq<nat>)
    requires AreReads(rs)
    ensures forall k :: 0 <= k < |pages| ==> pages[k] < PAGES
    decreases |rs|
  {
    if rs == [] then []
    else Asks(w, rs[0].addr, rs[0].width, rs[0].mapped) + Asked(w, rs[1..])
  }

  lemma StraightAddsAsked(w: World, t: Table, r: Read)
    requires Shaped(t) && r.addr < SPACE && IsWidth(r.width) && Straight(t, r.addr, r.width, r.usable)
    ensures AddAll(t, Asks(w, r.addr, r.width, r.mapped)) == t
  {
    hide Shaped, Add;
    PageInMap(r.addr);
    var p := PageOf(r.addr);
    AddOpen(t, p);
    assert AddAll(t, [p]) == Add(t, p, false, false);
    assert AddAll(t, []) == t;
  }

  /** A page that is open would be added in vain. */
  lemma {:induction false} ReadsAddAsked(w: World, t: Table, rs: seq<Read>)
    requires Shaped(t) && AreReads(rs)
    ensures AfterReads(w, t, rs) == AddAll(t, Asked(w, rs))
    decreases |rs|
  {
    if rs != [] {
      hide Shaped, Straight, Asks, Slow, AddAll;
      var r := rs[0];
      var asks := Asks(w, r.addr, r.width, r.mapped);
      if Straight(t, r.addr, r.width, r.usable) {
        StraightAddsAsked(w, t, r);
      } else {
        SlowAddsAsked(w, t, r.addr, r.width, r.mapped);
      }
      ReadsAddAsked(w, AddAll(t, asks), rs[1..]);
      AddAllAppend(t, asks, Asked(w, rs[1..]));
    } else {
      AddNone(t);
    }
  }

  /** When a watchpoint is met again: once the core has read a page of RAM, another read of
      it is caught, if a watchpoint covers it, exactly when 256 other pages have been added
      in between. */
  lemma CaughtAgain(s: Stub, w: World, ts: Tables, addr: nat, size: nat, rs: seq<Read>, again: nat, width: nat)
    requires Good(s) && Queued(ts.read) && Sound(ts.write) && PageOf(addr) < PAGES
    requires addr < 0xffff_ffff && IsWidth(size) && addr % size == 0
    requires w.ram(PageOf(addr)) && !ts.read.open[PageOf(addr)]
    requires AreReads(rs) && PageOf(addr) !in Asked(w, rs)
    requires again < SPACE && IsWidth(width) && again % width == 0 && PageOf(again) == PageOf(addr)
    ensures Ready(s, ts)
    ensures var t := Core(s, w, ts, addr, size, false, true, true).1.read;
      var us := ts.(read := AfterReads(w, t, rs));
      && Ready(s, us)
      && (Core(s, w, us, again, width, false, true, true).0 != No
          <==> Covers(s, Span(again, width), false) && Additions(t, Asked(w, rs)) >= ENTRIES)
  {
    hide Good, Queued, Sound, Accessed, Covers, Slow, Asks, Asked, AddAll, Additions, AfterReads, PageOf;
    var p := PageOf(addr);
    QueuedIsSound(ts.read);
    FirstRead(w, ts.read, addr, size);
    var t := Add(ts.read, p, false, false);
    ReadsAddAsked(w, t, rs);
    OpenUntilEvicted(t, Asked(w, rs), ts.read.next);
    AddAllIsQueued(t, Asked(w, rs));
    QueuedIsSound(AddAll(t, Asked(w, rs)));
    AccessIsExact(s, again, width, false, true);
  }

  lemma QueuedIsSound(t: Table)
    requires Queued(t)
    ensures Sound(t)
  {
  }

  lemma {:induction false} AddAllIsQueued(t: Table, pages: seq<nat>)
    requires Queued(t) && Shaped(t) && forall k :: 0 <= k < |pages| ==> pages[k] < PAGES
    ensures Queued(AddAll(t, pages))
    decreases |pages|
  {
    hide Queued, Add;
    if pages != [] {
      AddIsQueued(t, pages[0]);
      AddAllIsQueued(Add(t, pages[0], false, false), pages[1..]);
    }
  }

  lemma AskedOnce(w: World, addr: nat, size: nat)
    requires PageOf(addr) < PAGES && addr < 0xffff_ffff && IsWidth(size) && addr % size == 0 && w.ram(PageOf(addr))
    ensures Asks(w, addr, size, true) == [PageOf(addr)]
  {
  }

  lemma AddOne(t: Table, page: nat)
    requires Shaped(t) && page < PAGES
    ensures AddAll(t, [page]) == Add(t, page, false, false)
  {
    hide Add;
    assert [page][1..] == [];
  }

  lemma NewestOfRing(t: Table, page: nat)
    requires Queued(t) && Shaped(t) && page < PAGES && !t.open[page]
    ensures var u := Add(t, page, false, false);
      Queued(u) && Shaped(u) && u.ring[t.next] == page && Left(u, t.next) == ENTRIES - 1
  {
    AddIsQueued(t, page);
    hide Queued;
  }

  /** The page becomes the newest of the ring. */
  lemma FirstRead(w: World, t: Table, addr: nat, size: nat)
    requires Queued(t) && Shaped(t) && PageOf(addr) < PAGES && addr < 0xffff_ffff && IsWidth(size) && addr % size == 0
    requires w.ram(PageOf(addr)) && !t.open[PageOf(addr)]
    ensures var u := Add(t, PageOf(addr), false, false);
      && Slow(w, t, addr, size, false, true) == u && Queued(u) && Shaped(u)
      && u.ring[t.next] == PageOf(addr) && Left(u, t.next) == ENTRIES - 1
  {
    hide Queued, Add, Asks, Slow, AddAll, Left, PageOf;
    NewestOfRing(t, PageOf(addr));
    AskedOnce(w, addr, size);
    AddOne(t, PageOf(addr));
    SlowAddsAsked(w, t, addr, size, true);
  }
}
