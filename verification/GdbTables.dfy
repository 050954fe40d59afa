/** The processor's look-up tables over whole runs: what the two tables keep, and which
    accesses of a run reach the watchpoints. */
module GdbTables {
  import opened DmaMemory
  import opened GdbPoints
  import opened GdbAccesses
  import opened GdbKinds
  import opened GdbLookups

  // ---- What a write enters ----

  /** How many entries of the ring have been used between two tables. */
  function Entered(t: Table, u: Table): nat {
    (u.next - t.next) % ENTRIES
  }

  lemma AddEnters(t: Table, page: nat, coded: bool)
    requires Shaped(t) && page < PAGES
    ensures var u := Add(t, page, true, coded);
      && Shaped(u)
      && Entered(t, u) == (if t.guarded[page] then 0 else 1)
      && (t.guarded[page] ==> u == t)
      && (!t.guarded[page] ==> (coded ==> u.guarded[page]))
      && (!t.guarded[page] && !coded ==> u.open[page] && !u.guarded[page])
  {
    if !t.guarded[page] { NextEntry(t.next); }
  }

  lemma NextEntry(next: nat)
    requires next < ENTRIES
    ensures ((next + 1) % ENTRIES - next) % ENTRIES == 1
    ensures (((next + 1) % ENTRIES + 1) % ENTRIES - next) % ENTRIES == 2
  {
  }

  /** A write through the memory system that stays in its page enters the page once if it
      holds translated code and is not there yet; a page without is entered again by every
      such write, and twice by one of eight bytes, unless the write is misaligned and the
      page open. */
  lemma WriteEnters(w: World, t: Table, addr: nat, width: nat)
    requires Shaped(t) && PageOf(addr) < PAGES && addr < SPACE && IsWidth(width) && !Crosses(addr, width)
    ensures Entered(t, Slow(w, t, addr, width, true, true)) ==
      if addr % width != 0 && t.open[PageOf(addr)] then 0
      else if !w.ram(PageOf(addr)) || addr == 0xffff_ffff || t.guarded[PageOf(addr)] then 0
      else if width == 8 && !w.coded(PageOf(addr)) then 2
      else 1
  {
    hide Add, Crosses, Shaped, PageOf;
    var p := PageOf(addr);
    AddIsShaped(w, t, addr, true);
    AddEnters(t, p, w.coded(p));
    var u := Add(t, p, true, w.coded(p));
    AddEnters(u, p, w.coded(p));
    AddMoves(t, p, w.coded(p));
    AddMoves(u, p, w.coded(p));
    NextOf(t);
    NextEntry(t.next);
  }

  lemma NextOf(t: Table)
    requires Shaped(t)
    ensures t.next < ENTRIES
  {
  }

  lemma AddMoves(t: Table, page: nat, coded: bool)
    requires Shaped(t) && page < PAGES
    ensures Add(t, page, true, coded).next == if t.guarded[page] then t.next else (t.next + 1) % ENTRIES
  {
  }

  // ---- What the tables keep ----

  /** Only pages with translated code are guarded. */
  ghost predicate Marked(w: World, t: Table) {
    Shaped(t) && forall p: nat :: p < PAGES && t.guarded[p] ==> w.coded(p)
  }

  /** The read table holds its open pages once each; the write table guards only code. */
  ghost predicate Tidy(w: World, ts: Tables) {
    Queued(ts.read) && Marked(w, ts.write)
  }

  lemma AddedIsMarked(w: World, t: Table, addr: nat)
    requires Marked(w, t) && addr < SPACE
    ensures Shaped(t) && Marked(w, AddedAt(w, t, addr, true))
  {
    PageInMap(addr);
  }

  lemma MarkedIsShaped(w: World, t: Table)
    requires Marked(w, t)
    ensures Shaped(t)
  {
  }

  lemma {:induction false} SlowIsMarked(w: World, t: Table, addr: nat, width: nat, mapped: bool)
    requires Marked(w, t) && addr < SPACE && IsWidth(width)
    ensures Shaped(t) && Marked(w, Slow(w, t, addr, width, true, mapped))
    decreases width
  {
    hide Marked, Crosses, Slow;
    MarkedIsShaped(w, t);
    if mapped && Crosses(addr, width) {
      var half := width / 2;
      SlowInHalves(w, t, addr, width, true);
      SlowIsMarked(w, t, addr, half, true);
      SlowIsMarked(w, Slow(w, t, addr, half, true, true), (addr + half) % SPACE, half, true);
    } else {
      PartIsMarked(w, t, addr, width, mapped);
    }
  }

  lemma PartIsMarked(w: World, t: Table, addr: nat, width: nat, mapped: bool)
    requires Marked(w, t) && addr < SPACE && IsWidth(width) && !(mapped && Crosses(addr, width))
    ensures Shaped(t) && Marked(w, Slow(w, t, addr, width, true, mapped))
  {
    hide Marked, AddedAt, Crosses;
    MarkedIsShaped(w, t);
    AddedIsMarked(w, t, addr);
    MarkedIsShaped(w, AddedAt(w, t, addr, true));
    AddedIsMarked(w, AddedAt(w, t, addr, true), addr);
  }

  lemma FlushIsTidy(w: World, ts: Tables)
    requires Tidy(w, ts)
    ensures Shaped(ts.read) && Shaped(ts.write) && Tidy(w, Tables(Flushed(ts.read), Flushed(ts.write)))
  {
    QueuedIsSound(ts.read);
    var u := Flushed(ts.read);
    forall p: nat | p < PAGES
      ensures !u.open[p] && !u.guarded[p]
    {
      FlushIsEmpty(ts.read, p);
    }
  }

  lemma EmptyIsTidy(w: World)
    ensures Tidy(w, Tables(Empty(), Empty()))
  {
  }

  lemma StepIsTidy(s: Stub, w: World, ts: Tables, e: Event)
    requires Ready(s, ts) && Tidy(w, ts) && IsEvent(e)
    ensures Tidy(w, Step(s, w, ts, e).1)
  {
    hide Good, Sound, Handle, Slow, Flushed, Queued, Marked, Asks, AddAll;
    QueuedIsShaped(ts.read);
    MarkedIsShaped(w, ts.write);
    match e
    case Request(p) => {}
    case Access(addr, width, writing, usable, mapped) =>
      SlowIsMarked(w, ts.write, addr, width, mapped);
      SlowAddsAsked(w, ts.read, addr, width, mapped);
      AddAllIsQueued(ts.read, Asks(w, addr, width, mapped));
    case Flush => FlushIsTidy(w, ts);
  }

  /** Whatever happens, the two tables stay tidy. */
  lemma {:induction false} RunIsTidy(s: Stub, w: World, ts: Tables, events: seq<Event>)
    requires Going(s, ts, events) && Tidy(w, ts)
    ensures Tidy(w, AfterAll(s, w, ts, events).1)
    decreases |events|
  {
    hide Ready, Step, Tidy;
    if events != [] {
      StepIsReady(s, w, ts, events[0]);
      StepIsTidy(s, w, ts, events[0]);
      RunIsTidy(Step(s, w, ts, events[0]).0, w, Step(s, w, ts, events[0]).1, events[1..]);
    }
  }

  // ---- Runs ----

  lemma {:induction false} RunsAppend(s: Stub, w: World, ts: Tables, events: seq<Event>, e: Event)
    requires Going(s, ts, events) && IsEvent(e)
    ensures Going(s, ts, events + [e])
    ensures var (q, us) := AfterAll(s, w, ts, events);
      Ready(q, us) && AfterAll(s, w, ts, events + [e]) == Step(q, w, us, e)
    decreases |events|
  {
    hide Ready, Step;
    var all := events + [e];
    if events == [] {
      assert all[0] == e && all[1..] == [];
      StepIsReady(s, w, ts, e);
    } else {
      assert all[0] == events[0] && all[1..] == events[1..] + [e];
      StepIsReady(s, w, ts, events[0]);
      RunsAppend(Step(s, w, ts, events[0]).0, w, Step(s, w, ts, events[0]).1, events[1..], e);
    }
  }

  /** Once the tables have been flushed, the next access that can be translated is caught if
      and only if a watchpoint for its kind, or for any access, covers one of its bytes. */
  lemma FlushedRunCatches(w: World, events: seq<Event>, addr: nat, width: nat, writing: bool, usable: bool)
    requires Going(Start(), Tables(Empty(), Empty()), events) && addr < SPACE && IsWidth(width)
    ensures var all := events + [Flush]; Going(Start(), Tables(Empty(), Empty()), all)
    ensures var (s, ts) := AfterAll(Start(), w, Tables(Empty(), Empty()), events + [Flush]);
      && Ready(s, ts)
      && (Core(s, w, ts, addr, width, writing, usable, true).0 != No
          <==> AnyMatches(Typed(s, writing), Span(addr, width)) || AnyMatches(s.access, Span(addr, width)))
  {
    hide Good, Sound, AnyMatches, Core, AfterAll, Start, Empty, Flushed;
    var empty := Tables(Empty(), Empty());
    RunsAppend(Start(), w, empty, events, Flush);
    RunIsReady(Start(), w, empty, events + [Flush]);
    var (q, us) := AfterAll(Start(), w, empty, events);
    var (s, ts) := AfterAll(Start(), w, empty, events + [Flush]);
    PageInMap(addr);
    RunIsReady(Start(), w, empty, events);
    FlushIsEmpty(us.Get(writing), PageOf(addr));
    CoreCatches(s, w, ts, addr, width, writing, usable, true);
  }

  /** So a watchpoint set at any point of any run, at an address that has none of its kind,
      catches from the next flush on exactly the accesses of its kind to its range, beside
      those that were covered before. */
  lemma SetAndFlushed(w: World, events: seq<Event>, kind: Kind, addr: nat, length: nat, writable: bool,
                      place: nat, width: nat, writing: bool, usable: bool)
    requires Going(Start(), Tables(Empty(), Empty()), events) && place < SPACE && IsWidth(width)
    requires IsWatch(kind) && !Has(List(AfterAll(Start(), w, Tables(Empty(), Empty()), events).0, kind), addr)
    ensures var all := events + [Event.Request(Packet(true, kind, addr, length, writable))] + [Flush];
      Going(Start(), Tables(Empty(), Empty()), all)
    ensures var all := events + [Event.Request(Packet(true, kind, addr, length, writable))] + [Flush];
      var was := AfterAll(Start(), w, Tables(Empty(), Empty()), events).0;
      var (s, ts) := AfterAll(Start(), w, Tables(Empty(), Empty()), all);
      && Ready(s, ts)
      && (Core(s, w, ts, place, width, writing, usable, true).0 != No
          <==> || AnyMatches(Typed(was, writing), Span(place, width))
               || AnyMatches(was.access, Span(place, width))
               || (Fits(kind, writing) && Overlaps(addr, length, place, width)))
  {
    hide Good, Sound, AnyMatches, Core, AfterAll, Start, Empty, Flushed, Handle, Overlaps, Has;
    var empty := Tables(Empty(), Empty());
    var more := events + [Event.Request(Packet(true, kind, addr, length, writable))];
    RunsAppend(Start(), w, empty, events, Event.Request(Packet(true, kind, addr, length, writable)));
    RunsAppend(Start(), w, empty, more, Flush);
    RunIsReady(Start(), w, empty, events);
    Inserted(AfterAll(Start(), w, empty, events).0, kind, addr, length, writable, place, width);
    FlushedRunCatches(w, more, place, width, writing, usable);
  }

  predicate ArePackets(events: seq<Event>) {
    forall k :: 0 <= k < |events| ==> events[k].Request?
  }

  lemma {:induction false} PacketsLeaveTables(s: Stub, w: World, ts: Tables, events: seq<Event>)
    requires Going(s, ts, events) && ArePackets(events)
    ensures AfterAll(s, w, ts, events).1 == ts
    decreases |events|
  {
    hide Ready, Handle, Core;
    if events != [] {
      StepIsReady(s, w, ts, events[0]);
      PacketsLeaveTables(Step(s, w, ts, events[0]).0, w, Step(s, w, ts, events[0]).1, events[1..]);
    }
  }

  /** At any point of any run, once the core has made an aligned access to a page of RAM
      (without translated code, if it writes), every watchpoint set from then on is too
      late: an aligned access of the same direction to the page is not caught. */
  lemma OpenedRunMisses(w: World, events: seq<Event>, addr: nat, width: nat, writing: bool,
                        packets: seq<Event>, again: nat, size: nat)
    requires Going(Start(), Tables(Empty(), Empty()), events) && ArePackets(packets)
    requires addr < 0xffff_ffff && IsWidth(width) && addr % width == 0 && PageOf(addr) < PAGES
    requires w.ram(PageOf(addr)) && (writing ==> !w.coded(PageOf(addr)))
    requires again < SPACE && IsWidth(size) && again % size == 0 && PageOf(again) == PageOf(addr)
    ensures var e := Access(addr, width, writing, true, true);
      Going(Start(), Tables(Empty(), Empty()), events + [e])
    ensures var e := Access(addr, width, writing, true, true);
      var (q, us) := AfterAll(Start(), w, Tables(Empty(), Empty()), events + [e]);
      && Going(q, us, packets)
      && var (r, vs) := AfterAll(q, w, us, packets);
         Ready(r, vs) && Core(r, w, vs, again, size, writing, true, true) == (No, vs)
  {
    hide Good, Sound, Marked, Queued, AfterAll, Start, Empty, Slow, Handle, PageOf, AnyMatches;
    var empty := Tables(Empty(), Empty());
    var e := Access(addr, width, writing, true, true);
    RunsAppend(Start(), w, empty, events, e);
    RunIsReady(Start(), w, empty, events);
    EmptyIsTidy(w);
    RunIsTidy(Start(), w, empty, events);
    var (s, ts) := AfterAll(Start(), w, empty, events);
    StepIsReady(s, w, ts, e);
    var (q, us) := Step(s, w, ts, e);
    RunIsReady(q, w, us, packets);
    PacketsLeaveTables(q, w, us, packets);
    var r := AfterAll(q, w, us, packets).0;
    Unguarded(w, ts.write, PageOf(addr));
    SecondIsMissed(s, w, ts, addr, width, writing, r, again, size);
    SoundIsShaped(us.Get(writing));
  }

  lemma Unguarded(w: World, t: Table, page: nat)
    requires Marked(w, t) && page < PAGES
    ensures |t.guarded| == PAGES && (!w.coded(page) ==> !t.guarded[page])
  {
  }
}
