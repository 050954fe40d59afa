/** The transfers of one DMA channel, on values: neither advanced nor PS/2 mode. */
module DmaChannels {
  import opened DmaMemory
  import opened Division

  datatype Chan = Chan(
    mode: bv8,      // 2-3 direction, 4 auto-initialise, 5 addresses go down
    wide: bool,     // words, not bytes
    cb: nat,        // transfers to make, less one
    cc: int,        // and what is left of them
    ab: nat, ac: nat)

  const READ: bv8 := 8
  const WRITE: bv8 := 4

  datatype Dma = Dma(
    chans: seq<Chan>,
    enabled: set<nat>, masked: set<nat>, off: set<nat>,   // off: the controllers, 0 or 1, that are disabled
    requested: set<nat>, done: set<nat>, pending: set<nat>,
    soft: bool,     // the transfer was requested by software
    space: nat,     // one more than the address mask
    mem: Memory)

  datatype Reply = NoData | Data(value: int, over: bool)

  predicate Valid(d: Dma) {
    |d.chans| == 8 && (d.space == 0x100_0000 || d.space == SPACE)
  }

  function Controller(ch: nat): nat {
    if ch < 4 then 0 else 1
  }

  predicate Auto(c: Chan) {
    c.mode & 0x10 != 0
  }

  predicate Down(c: Chan) {
    c.mode & 0x20 != 0
  }

  predicate Admits(d: Dma, ch: nat, direction: bv8)
    requires ch < |d.chans|
  {
    && Controller(ch) !in d.off && ch in d.enabled && (ch !in d.masked || d.soft)
    && d.chans[ch].mode & 0xc == direction
  }

  // ---- Addresses ----

  function Page(c: Chan): (p: nat)
    ensures p > 0
  {
    if c.wide then 0x20000 else 0x10000
  }

  /** How far one transfer moves the address. */
  function Stride(c: Chan): int {
    (if Down(c) then -1 else 1) * if c.wide then 2 else 1
  }

  /** The address moves inside its page. */
  function Moved(ac: nat, page: nat, step: int, space: nat): nat
    requires page > 0 && space > 0
  {
    (ac % space) / page * page + (ac + step) % page
  }

  /** A write to a channel of words that goes down moves twice. */
  function AfterWrite(c: Chan, space: nat): nat
    requires space > 0
  {
    var once := Moved(c.ac, Page(c), Stride(c), space);
    if c.wide && Down(c) then Moved(once, Page(c), Stride(c), space) else once
  }

  // ---- One transfer ----

  function Fetched(m: Memory, wide: bool, ac: nat): int {
    if wide then m[Cell(ac)] as int + 0x100 * m[Cell(ac + 1)] as int else m[Cell(ac)] as int
  }

  function Stored(m: Memory, wide: bool, ac: nat, value: nat): Memory {
    var low := Poke(m, ac, [(value % 0x100) as Byte]);
    if wide then Poke(low, ac + 1, [(value / 0x100 % 0x100) as Byte]) else low
  }

  /** One transfer has been counted; the count runs out when it passes zero. */
  function Counted(d: Dma, ch: nat): Dma
    requires ch < |d.chans|
  {
    var c := d.chans[ch];
    if c.cc > 0 then d.(chans := d.chans[ch := c.(cc := c.cc - 1)])
    else if Auto(c) then d.(chans := d.chans[ch := c.(cc := c.cb, ac := c.ab)], done := d.done + {ch})
    else d.(chans := d.chans[ch := c.(cc := c.cc - 1)], masked := d.masked + {ch}, done := d.done + {ch})
  }

  /** A count that was put off is caught up. */
  function Advance(d: Dma, ch: nat): Dma
    requires ch < |d.chans|
  {
    if ch in d.pending then Counted(d, ch).(pending := d.pending - {ch}) else d
  }

  function Transferred(d: Dma, ch: nat): (Dma, int)
    requires ch < |d.chans| && d.space > 0
  {
    var c := d.chans[ch];
    (d.(chans := d.chans[ch := c.(ac := Moved(c.ac, Page(c), Stride(c), d.space))], requested := d.requested + {ch}),
     Fetched(d.mem, c.wide, c.ac))
  }

  /** dma_channel_read */
  function Read(d: Dma, ch: nat): (Dma, Reply)
    requires ch < |d.chans| && d.space > 0
  {
    if !Admits(d, ch, READ) then (d, NoData) else
      var (e, value) := Transferred(Advance(d, ch), ch);
      (Counted(e, ch), Data(value, e.chans[ch].cc <= 0))
  }

  /** dma_channel_read_only: the count is put off. */
  function ReadOnly(d: Dma, ch: nat): (Dma, Reply)
    requires ch < |d.chans| && d.space > 0
  {
    if !Admits(d, ch, READ) then (d, NoData) else
      var (e, value) := Transferred(Advance(d, ch), ch);
      (e.(pending := e.pending + {ch}), Data(value, false))
  }

  /** dma_channel_write */
  function Write(d: Dma, ch: nat, value: nat): (Dma, Reply)
    requires ch < |d.chans| && d.space > 0
  {
    if !Admits(d, ch, WRITE) then (d, NoData) else
      var c := d.chans[ch];
      var e := Counted(d.(mem := Stored(d.mem, c.wide, c.ac, value),
                          chans := d.chans[ch := c.(ac := AfterWrite(c, d.space))],
                          requested := d.requested + {ch}, pending := d.pending - {ch}), ch);
      (e, Data(0, ch in e.masked))
  }

  // ---- Runs ----

  function Reads(d: Dma, ch: nat, n: nat): (r: (Dma, seq<Reply>))
    requires Valid(d) && ch < 8
    ensures Valid(r.0) && |r.1| == n
  {
    if n == 0 then (d, []) else
      var (e, rs) := Reads(d, ch, n - 1);
      var (f, r) := Read(e, ch);
      (f, rs + [r])
  }

  function Writes(d: Dma, ch: nat, values: seq<nat>): (e: Dma)
    requires Valid(d) && ch < 8
    ensures Valid(e)
  {
    if values == [] then d else
      Write(Writes(d, ch, values[..|values| - 1]), ch, values[|values| - 1]).0
  }

  /** The channel has been given an address and a count. */
  predicate Programmed(d: Dma, ch: nat) {
    && Valid(d) && ch < 8 && ch !in d.pending
    && var c := d.chans[ch]; c.ac == c.ab < d.space && c.cc == c.cb && c.cb < 0x10000
  }

  /** The address k steps from the base, inside its page. */
  function At(c: Chan, step: int, k: nat): nat {
    c.ab / Page(c) * Page(c) + (c.ab + step * k) % Page(c)
  }

  lemma AtStart(c: Chan, step: int)
    ensures At(c, step, 0) == c.ab
  {
    assert step * 0 == 0;
    if c.wide {} else {}
  }

  lemma AtNext(c: Chan, step: int, k: nat, space: nat)
    requires c.ab < space && (space == 0x100_0000 || space == SPACE)
    ensures Moved(At(c, step, k), Page(c), step, space) == At(c, step, k + 1)
  {
    assert step * (k + 1) == step * k + step;
    MovedAgain(c.ab, Page(c), step * k, step, space);
  }

  lemma MovedAgain(a: nat, page: nat, step: int, more: int, space: nat)
    requires a < space && (page == 0x10000 || page == 0x20000) && (space == 0x100_0000 || space == SPACE)
    ensures Moved(a / page * page + (a + step) % page, page, more, space) == a / page * page + (a + step + more) % page
  {
    if page == 0x10000 { MovedAgain64(a, step, more, space); } else { MovedAgain128(a, step, more, space); }
  }

  lemma MovedAgain64(a: nat, step: int, more: int, space: nat)
    requires a < space && (space == 0x100_0000 || space == SPACE)
    ensures Moved(a / 0x10000 * 0x10000 + (a + step) % 0x10000, 0x10000, more, space)
      == a / 0x10000 * 0x10000 + (a + step + more) % 0x10000
  {
    var q, r := a / 0x10000, (a + step) % 0x10000;
    InPage64(a, r, space);
    Restart64(q, a + step, more);
    assert (q * 0x10000 + r) % space == q * 0x10000 + r;
  }

  lemma MovedAgain128(a: nat, step: int, more: int, space: nat)
    requires a < space && (space == 0x100_0000 || space == SPACE)
    ensures Moved(a / 0x20000 * 0x20000 + (a + step) % 0x20000, 0x20000, more, space)
      == a / 0x20000 * 0x20000 + (a + step + more) % 0x20000
  {
    var q, r := a / 0x20000, (a + step) % 0x20000;
    InPage128(a, r, space);
    Restart128(q, a + step, more);
    assert (q * 0x20000 + r) % space == q * 0x20000 + r;
  }

  lemma InPage64(a: nat, r: nat, space: nat)
    requires a < space && r < 0x10000 && (space == 0x100_0000 || space == SPACE)
    ensures a / 0x10000 * 0x10000 + r < space
  {
  }

  lemma InPage128(a: nat, r: nat, space: nat)
    requires a < space && r < 0x20000 && (space == 0x100_0000 || space == SPACE)
    ensures a / 0x20000 * 0x20000 + r < space
  {
  }

  lemma Restart64(q: nat, b: int, more: int)
    ensures (q * 0x10000 + b % 0x10000 + more) % 0x10000 == (b + more) % 0x10000
  {
  }

  lemma Restart128(q: nat, b: int, more: int)
    ensures (q * 0x20000 + b % 0x20000 + more) % 0x20000 == (b + more) % 0x20000
  {
  }

  // ---- Auto-initialise ----

  /** The channel after n reads, with auto-initialise. */
  function AutoAt(d: Dma, ch: nat, n: nat): Dma
    requires ch < |d.chans|
  {
    var c := d.chans[ch];
    var k := Phase(n, c.cb + 1);
    d.(chans := d.chans[ch := c.(cc := c.cb - k, ac := At(c, Stride(c), k))],
       requested := if n == 0 then d.requested else d.requested + {ch},
       done := if Periods(n, c.cb + 1) == 0 then d.done else d.done + {ch})
  }

  lemma AutoRead(d: Dma, ch: nat, n: nat)
    requires Programmed(d, ch) && Auto(d.chans[ch]) && Admits(d, ch, READ)
    ensures var c := d.chans[ch]; var k := Phase(n, c.cb + 1);
      Read(AutoAt(d, ch, n), ch)
        == (AutoAt(d, ch, n + 1), Data(Fetched(d.mem, c.wide, At(c, Stride(c), k)), Phase(n + 1, c.cb + 1) == 0))
  {
    hide Phase, Periods, At, Moved, Fetched;
    var c := d.chans[ch];
    PhaseNext(n, c.cb + 1);
    AtNext(c, Stride(c), Phase(n, c.cb + 1), d.space);
    AtStart(c, Stride(c));
    ReadEffect(AutoAt(d, ch, n), ch);
    hide Read;
    var e := Read(AutoAt(d, ch, n), ch).0;
    assert e.chans == AutoAt(d, ch, n + 1).chans;
    assert e.done == AutoAt(d, ch, n + 1).done;
    assert e.requested == AutoAt(d, ch, n + 1).requested;
  }

  /** An admitted read with nothing put off, in one piece. */
  lemma ReadEffect(d: Dma, ch: nat)
    requires Valid(d) && ch < 8 && Admits(d, ch, READ) && ch !in d.pending
    ensures var c := d.chans[ch]; var tc := c.cc <= 0; var to := Moved(c.ac, Page(c), Stride(c), d.space);
      Read(d, ch) ==
        (d.(chans := d.chans[ch := c.(cc := if tc && Auto(c) then c.cb else c.cc - 1,
                                      ac := if tc && Auto(c) then c.ab else to)],
            masked := if tc && !Auto(c) then d.masked + {ch} else d.masked,
            done := if tc then d.done + {ch} else d.done,
            requested := d.requested + {ch}),
         Data(Fetched(d.mem, c.wide, c.ac), tc))
  {
    hide Moved, Fetched, Admits;
    var c := d.chans[ch];
    var tc, to := c.cc <= 0, Moved(c.ac, Page(c), Stride(c), d.space);
    var last := c.(cc := if tc && Auto(c) then c.cb else c.cc - 1, ac := if tc && Auto(c) then c.ab else to);
    assert d.chans[ch := c.(ac := to)][ch := last] == d.chans[ch := last];
    if c.cc > 0 {} else if Auto(c) {} else {}
  }

  /** Auto-initialise in closed form: after n reads the count is cb - (n mod (cb + 1)),
      the address is that many transfers from the base inside its page, and exactly
      every (cb + 1)-th read has ended in a terminal count. */
  lemma {:induction false} AutoReads(d: Dma, ch: nat, n: nat)
    requires Programmed(d, ch) && Auto(d.chans[ch]) && Admits(d, ch, READ)
    ensures Reads(d, ch, n).0 == AutoAt(d, ch, n)
    ensures var c := d.chans[ch]; forall i :: 0 <= i < n ==>
      Reads(d, ch, n).1[i] == Data(Fetched(d.mem, c.wide, At(c, Stride(c), Phase(i, c.cb + 1))),
        Phase(i + 1, c.cb + 1) == 0)
  {
    hide Phase, Periods, At, Fetched, Read, Admits;
    var c := d.chans[ch];
    if n == 0 {
      PhaseAtStart(c.cb + 1);
      AtStart(c, Stride(c));
      assert d.chans[ch := c] == d.chans;
    } else {
      AutoReads(d, ch, n - 1);
      AutoRead(d, ch, n - 1);
    }
  }

  function Overs(rs: seq<Reply>): nat {
    if rs == [] then 0 else Overs(rs[..|rs| - 1]) + if rs[|rs| - 1].Data? && rs[|rs| - 1].over then 1 else 0
  }

  /** The number of terminal counts in n reads is n div (cb + 1). */
  lemma {:induction false} TerminalCounts(d: Dma, ch: nat, n: nat)
    requires Programmed(d, ch) && Auto(d.chans[ch]) && Admits(d, ch, READ)
    ensures Overs(Reads(d, ch, n).1) == Periods(n, d.chans[ch].cb + 1)
  {
    hide Phase, Periods, At, Fetched, Read, Admits;
    var cb := d.chans[ch].cb;
    if n == 0 {
      PhaseAtStart(cb + 1);
    } else {
      TerminalCounts(d, ch, n - 1);
      AutoReads(d, ch, n);
      PhaseNext(n - 1, cb + 1);
      var rs := Reads(d, ch, n).1;
      assert rs[..n - 1] == Reads(d, ch, n - 1).1;
    }
  }

  // ---- Without ----

  /** The channel after n reads, without auto-initialise: hardware gets exactly cb + 1
      of them, software goes on and on. */
  function OnceAt(d: Dma, ch: nat, n: nat): Dma
    requires ch < |d.chans|
  {
    var c := d.chans[ch];
    var k := if d.soft || n <= c.cb then n else c.cb + 1;
    d.(chans := d.chans[ch := c.(cc := c.cb - k, ac := At(c, Stride(c), k))],
       requested := if n == 0 then d.requested else d.requested + {ch},
       masked := if n > c.cb then d.masked + {ch} else d.masked,
       done := if n > c.cb then d.done + {ch} else d.done)
  }

  function OnceReply(d: Dma, ch: nat, i: nat): Reply
    requires ch < |d.chans|
  {
    var c := d.chans[ch];
    if d.soft || i <= c.cb then Data(Fetched(d.mem, c.wide, At(c, Stride(c), i)), i >= c.cb) else NoData
  }

  lemma OnceRead(d: Dma, ch: nat, n: nat)
    requires Programmed(d, ch) && !Auto(d.chans[ch]) && Admits(d, ch, READ)
    ensures Read(OnceAt(d, ch, n), ch) == (OnceAt(d, ch, n + 1), OnceReply(d, ch, n))
  {
    hide At, Moved, Fetched;
    var c := d.chans[ch];
    if d.soft || n <= c.cb {
      AtNext(c, Stride(c), n, d.space);
      ReadEffect(OnceAt(d, ch, n), ch);
      hide Read;
      var e := Read(OnceAt(d, ch, n), ch).0;
      assert e.chans == OnceAt(d, ch, n + 1).chans;
      assert e.requested == OnceAt(d, ch, n + 1).requested;
      assert e.masked == OnceAt(d, ch, n + 1).masked && e.done == OnceAt(d, ch, n + 1).done;
    }
  }

  /** Without auto-initialise exactly cb + 1 hardware requests are served, the last one
      with a terminal count; then the channel is masked and nothing changes any more. */
  lemma {:induction false} OnceReads(d: Dma, ch: nat, n: nat)
    requires Programmed(d, ch) && !Auto(d.chans[ch]) && Admits(d, ch, READ)
    ensures Reads(d, ch, n).0 == OnceAt(d, ch, n)
    ensures forall i :: 0 <= i < n ==> Reads(d, ch, n).1[i] == OnceReply(d, ch, i)
  {
    hide At, Read, Admits, Fetched, OnceReply;
    var c := d.chans[ch];
    if n == 0 {
      AtStart(c, Stride(c));
      assert d.chans[ch := c] == d.chans;
    } else {
      OnceReads(d, ch, n - 1);
      OnceRead(d, ch, n - 1);
    }
  }

  // ---- Reads whose count is put off ----

  /** A read that puts off its count, followed by the catching up, is a read. */
  lemma DeferredIsRead(d: Dma, ch: nat)
    requires Valid(d) && ch < 8 && Admits(d, ch, READ)
    ensures Advance(ReadOnly(d, ch).0, ch) == Read(d, ch).0.(pending := d.pending - {ch})
    ensures ReadOnly(d, ch).1 == Read(d, ch).1.(over := false)
  {
    hide Moved, Fetched, Admits;
    var e := Transferred(Advance(d, ch), ch).0;
    assert ch !in e.pending;
    assert e.pending + {ch} - {ch} == e.pending;
    assert e.pending == d.pending - {ch} by { if ch in d.pending {} else { assert d.pending - {ch} == d.pending; } }
    if e.chans[ch].cc > 0 {} else if Auto(e.chans[ch]) {} else {}
  }
}
