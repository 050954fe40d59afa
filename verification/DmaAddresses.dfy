/** Where the transfers of a channel lie and what they report, told from its mode bits. */
module DmaAddresses {
  import opened DmaMemory
  import opened Division
  import opened DmaChannels
  import opened DmaCopies

  /** Address k of a channel: it keeps to the page of the base and, by bit 5 of the mode,
      counts up or down from the base, by one for bytes and by two for words. */
  function Place(c: Chan, k: nat): (a: nat) {
    var page := if c.wide then 0x20000 else 0x10000;
    var far := if c.wide then 2 * k else k;
    c.ab - c.ab % page + (if c.mode & 0x20 == 0 then c.ab + far else c.ab - far) % page
  }

  lemma PlaceIsAt(c: Chan, k: nat)
    ensures Place(c, k) == At(c, Stride(c), k)
  {
    if c.wide { PageStarts(c.ab, 0x20000); } else { PageStarts(c.ab, 0x10000); }
    if c.mode & 0x20 == 0 {} else {}
  }

  lemma PageStarts(a: nat, page: nat)
    requires page > 0
    ensures a - a % page == a / page * page
  {
  }

  /** Up to the end of its page a channel goes straight on. */
  lemma PlaceInside(c: Chan, k: nat)
    ensures var far := if c.wide then 2 * k else k; var page := if c.wide then 0x20000 else 0x10000;
      && (c.mode & 0x20 == 0 && c.ab % page + far < page ==> Place(c, k) == c.ab + far)
      && (c.mode & 0x20 != 0 && far <= c.ab % page ==> Place(c, k) == c.ab - far)
  {
    var far := if c.wide then 2 * k else k;
    var page := if c.wide then 0x20000 else 0x10000;
    var q := c.ab / page;
    assert c.ab == q * page + c.ab % page;
    if c.mode & 0x20 == 0 && c.ab % page + far < page {
      ModUnique(c.ab + far, q, c.ab % page + far, page);
    } else if c.mode & 0x20 != 0 && far <= c.ab % page {
      ModUnique(c.ab - far, q, c.ab % page - far, page);
    }
  }

  /** What a read of the channel brings from address a: a byte, or a word with its low byte first. */
  function Brought(m: Memory, wide: bool, a: nat): int {
    if wide then m[a % SPACE] as int + 0x100 * m[(a + 1) % SPACE] as int else m[a % SPACE] as int
  }

  /** Read i of a programmed channel, counted from zero: it brings what lies at the address
      of its number in the count, and reports the end exactly when the count is complete. */
  lemma ReadsInOrder(d: Dma, ch: nat, n: nat, i: nat)
    requires Programmed(d, ch) && Admits(d, ch, READ) && i < n
    ensures var c := d.chans[ch]; var r := Reads(d, ch, n).1[i];
      if c.mode & 0x10 != 0 then
        r == Data(Brought(d.mem, c.wide, Place(c, i % (c.cb + 1))), (i + 1) % (c.cb + 1) == 0)
      else if i <= c.cb then r == Data(Brought(d.mem, c.wide, Place(c, i)), i == c.cb)
      else if d.soft then r == Data(Brought(d.mem, c.wide, Place(c, i)), true)
      else r == NoData
  {
    hide Reads, Admits, At, Place;
    var c := d.chans[ch];
    PlaceIsAt(c, i);
    PlaceIsAt(c, i % (c.cb + 1));
    if Auto(c) {
      AutoReads(d, ch, n);
    } else {
      OnceReads(d, ch, n);
    }
  }

  // ---- Refusals ----

  /** A channel takes a request if its controller (channels 0 to 3 and 4 to 7) is not
      disabled, it is enabled, it is not masked unless software asks, and the direction in
      its mode is the one asked for. */
  predicate Serves(d: Dma, ch: nat, reading: bool)
    requires ch < |d.chans|
  {
    && (if ch <= 3 then 0 !in d.off else 1 !in d.off)
    && ch in d.enabled && !(ch in d.masked && !d.soft)
    && d.chans[ch].mode & 0x8 == (if reading then 0x8 else 0) && d.chans[ch].mode & 0x4 == (if reading then 0 else 0x4)
  }

  lemma DirectionBits(mode: bv8)
    ensures mode & 0xc == READ <==> mode & 0x8 == 0x8 && mode & 0x4 == 0
    ensures mode & 0xc == WRITE <==> mode & 0x8 == 0 && mode & 0x4 == 0x4
  {
  }

  /** A request that the channel does not take gets no data and changes nothing; any other
      is answered, and marks the channel as requested. */
  lemma Requests(d: Dma, ch: nat, value: nat)
    requires Valid(d) && ch < 8
    ensures if Serves(d, ch, true) then Read(d, ch).1.Data? && ch in Read(d, ch).0.requested
            else Read(d, ch) == (d, NoData)
    ensures if Serves(d, ch, true) then ReadOnly(d, ch).1.Data? && ch in ReadOnly(d, ch).0.requested
            else ReadOnly(d, ch) == (d, NoData)
    ensures if Serves(d, ch, false) then Write(d, ch, value).1.Data? && ch in Write(d, ch, value).0.requested
            else Write(d, ch, value) == (d, NoData)
  {
    hide Moved, Fetched, Stored;
    DirectionBits(d.chans[ch].mode);
  }

  // ---- Writes ----

  /** The place of write k: words that go down skip every second word. */
  function Target(c: Chan, k: nat): nat {
    Place(c, if c.wide && c.mode & 0x20 != 0 then 2 * k else k)
  }

  lemma TargetIsAt(c: Chan, k: nat)
    ensures Target(c, k) == At(c, WriteStride(c), k)
  {
    PlaceIsAt(c, if c.wide && c.mode & 0x20 != 0 then 2 * k else k);
    hide Place;
    assert c.wide && Down(c) ==> Stride(c) * (2 * k) == WriteStride(c) * k;
  }

  /** One more write of a programmed channel: it changes the byte at its place, or the two
      bytes of a word, and no other; and it reports the end exactly when the channel is
      masked, which the last write of the count does without auto-initialise. */
  lemma WriteLands(d: Dma, ch: nat, values: seq<nat>, value: nat)
    requires Programmed(d, ch) && Admits(d, ch, WRITE) && |values| <= d.chans[ch].cb
    ensures var c := d.chans[ch]; var k := |values|; var a := Target(c, k);
      var before := Writes(d, ch, values); var (after, r) := Write(before, ch, value);
      && after.mem[a % SPACE] as int == value % 0x100
      && (c.wide ==> after.mem[(a + 1) % SPACE] as int == value / 0x100 % 0x100)
      && (forall x :: 0 <= x < SPACE && x != a % SPACE && (c.wide ==> x != (a + 1) % SPACE) ==>
            after.mem[x] == before.mem[x])
      && r == Data(0, ch in d.masked || (k == c.cb && c.mode & 0x10 == 0))
  {
    hide Writes, At, Target, Poke, Moved;
    var c := d.chans[ch];
    var before := Writes(d, ch, values);
    ProgrammedWrites(d, ch, values);
    TargetIsAt(c, |values|);
    WriteEffect(before, ch, value);
    WriteReplies(before, ch, value);
    hide Write;
    StoredBytes(before.mem, c.wide, Target(c, |values|), value);
  }

  lemma WriteReplies(d: Dma, ch: nat, value: nat)
    requires Valid(d) && ch < 8 && Admits(d, ch, WRITE)
    ensures Write(d, ch, value).1 == Data(0, ch in d.masked || (d.chans[ch].cc <= 0 && !Auto(d.chans[ch])))
  {
    hide Moved, Stored, Admits;
    var c := d.chans[ch];
    if c.cc > 0 {} else if Auto(c) {} else {}
  }

  lemma StoredBytes(m: Memory, wide: bool, a: nat, value: nat)
    ensures var n := Stored(m, wide, a, value);
      && n[a % SPACE] as int == value % 0x100
      && (wide ==> n[(a + 1) % SPACE] as int == value / 0x100 % 0x100)
      && forall x :: 0 <= x < SPACE && x != a % SPACE && (wide ==> x != (a + 1) % SPACE) ==> n[x] == m[x]
  {
    hide Poke;
    var low := (value % 0x100) as Byte;
    PokeOne(m, a, low);
    if wide {
      assert a % SPACE != (a + 1) % SPACE;
      PokeOne(Poke(m, a, [low]), a + 1, (value / 0x100 % 0x100) as Byte);
    }
  }

  /** A write forgets a count that a read of the channel has put off. */
  lemma WriteForgets(d: Dma, ch: nat, value: nat)
    requires Valid(d) && ch < 8 && Admits(d, ch, WRITE)
    ensures Write(d, ch, value).0.pending == d.pending - {ch}
    ensures Write(d, ch, value) == Write(d.(pending := d.pending - {ch}), ch, value)
  {
    hide Moved, Stored;
    assert d.pending - {ch} - {ch} == d.pending - {ch};
  }

  // ---- Memory to memory ----

  /** What becomes of the channel itself in a whole pass by software: with auto-initialise it
      is ready again, without it is used up, one address past its last, and masked. */
  function Spent(c: Chan, to: nat): Chan {
    if c.mode & 0x10 != 0 then c else c.(cc := -1, ac := to)
  }

  lemma PassEnds(d: Dma, ch: nat)
    requires Programmed(d, ch) && Admits(d, ch, READ) && d.soft
    ensures var c := d.chans[ch]; var e := Reads(d, ch, c.cb + 1).0;
      e == d.(chans := d.chans[ch := Spent(c, Place(c, c.cb + 1))], requested := d.requested + {ch},
              done := d.done + {ch}, masked := if c.mode & 0x10 != 0 then d.masked else d.masked + {ch})
  {
    hide Reads, At, Place, Phase, Periods, Admits;
    var c := d.chans[ch];
    PlaceIsAt(c, c.cb + 1);
    if Auto(c) {
      AutoReads(d, ch, c.cb + 1);
      FirstLap(c.cb, c.cb + 1);
      WholePeriod(c.cb + 1);
      AtStart(c, Stride(c));
    } else {
      OnceReads(d, ch, c.cb + 1);
    }
  }

  lemma WholePeriod(n: nat)
    requires n > 0
    ensures Periods(n, n) == 1 && Phase(n, n) == 0
  {
    ModUnique(n, 1, 0, n);
  }

  /** A memory-to-memory transfer is fatal if and only if channel 0 is not set to read or
      channel 1 not to write; otherwise it is over at once, and has used up both channels
      and touched no other. */
  lemma MemToMemEnds(d: Dma, buffer: seq<Byte>)
    requires Programmed(d, 0) && Programmed(d, 1) && |buffer| == 0x10000
    requires 0 !in d.off && 0 in d.enabled && 1 in d.enabled
    ensures var c, w := d.chans[0], d.chans[1]; var out := MemToMem(d, buffer);
      && (out.Copied? <==> && c.mode & 0x8 == 0x8 && c.mode & 0x4 == 0 && w.mode & 0x8 == 0 && w.mode & 0x4 == 0x4)
      && (out.Copied? ==>
            out.dma == d.(mem := out.dma.mem, soft := false,
                          chans := d.chans[0 := Spent(c, Place(c, c.cb + 1))][1 := Spent(w, Target(w, w.cb + 1))],
                          requested := d.requested + {0} + {1}, done := d.done + {0} + {1},
                          masked := d.masked + (if c.mode & 0x10 != 0 then {} else {0})
                                      + if w.mode & 0x10 != 0 then {} else {1}))
  {
    hide Reads, Writes, At, Place, Target, Put;
    var c, w := d.chans[0], d.chans[1];
    DirectionBits(c.mode);
    DirectionBits(w.mode);
    if MemToMem(d, buffer).Copied? {
      var s := d.(soft := true);
      PassEnds(s, 0);
      var e := Reads(s, 0, c.cb + 1).0;
      var filled := MemToMem(d, buffer).buffer;
      ProgrammedWrites(e, 1, Values(filled[..w.cb + 1]));
      TargetIsAt(w, w.cb + 1);
    }
  }
}
