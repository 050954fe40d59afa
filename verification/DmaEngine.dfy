/** The DMA controller and a scatter/gather channel as they are: arrays and fields
    updated in place. */
module DmaEngine {
  import opened DmaMemory
  import C = DmaChannels
  import DmaCopies
  import S = DmaScatter

  class Controller {
    const chans: array<C.Chan>
    const mem: array<Byte>
    const buffer: array<Byte>
    var enabled: set<nat>
    var masked: set<nat>
    var off: set<nat>
    var requested: set<nat>
    var done: set<nat>
    var pending: set<nat>
    var soft: bool
    var space: nat

    ghost predicate Shaped()
      reads this, chans
    {
      && chans.Length == 8 && mem.Length == SPACE && buffer.Length == 0x10000 && mem != buffer
      && (space == 0x100_0000 || space == SPACE)
    }

    ghost function State(): C.Dma
      requires Shaped()
      reads this, chans, mem
    {
      C.Dma(chans[..], enabled, masked, off, requested, done, pending, soft, space, mem[..])
    }

    constructor (mem: array<Byte>, space: nat)
      requires mem.Length == SPACE && (space == 0x100_0000 || space == SPACE)
      ensures Shaped() && fresh(chans) && fresh(buffer) && this.mem == mem
      ensures State() == C.Dma(seq(8, _ => C.Chan(0, false, 0, 0, 0, 0)), {}, {0, 1, 2, 3, 4, 5, 6, 7}, {}, {}, {},
                               {}, false, space, mem[..])
    {
      this.mem := mem;
      this.space := space;
      chans := new C.Chan[8](_ => C.Chan(0, false, 0, 0, 0, 0));
      buffer := new Byte[0x10000](_ => 0);
      enabled, masked, off, requested, done, pending, soft := {}, {0, 1, 2, 3, 4, 5, 6, 7}, {}, {}, {}, {}, false;
      new;
      assert chans[..] == seq(8, _ => C.Chan(0, false, 0, 0, 0, 0));
    }

    predicate Admits(ch: nat, direction: bv8)
      requires chans.Length == 8 && ch < 8
      reads this, chans
    {
      C.Controller(ch) !in off && ch in enabled && (ch !in masked || soft) && chans[ch].mode & 0xc == direction
    }

    method Counted(ch: nat) returns (tc: bool)
      requires Shaped() && ch < 8
      modifies `masked, `done, chans
      ensures Shaped() && State() == C.Counted(old(State()), ch) && tc == (old(chans[ch].cc) <= 0)
    {
      var c := chans[ch];
      var cc := c.cc - 1;
      tc := cc < 0;
      if !tc {
        chans[ch] := c.(cc := cc);
      } else {
        if C.Auto(c) {
          chans[ch] := c.(cc := c.cb, ac := c.ab);
        } else {
          chans[ch] := c.(cc := cc);
          masked := masked + {ch};
        }
        done := done + {ch};
      }
    }

    method Advance(ch: nat)
      requires Shaped() && ch < 8
      modifies `masked, `done, `pending, chans
      ensures Shaped() && State() == C.Advance(old(State()), ch)
    {
      hide C.Counted;
      if ch in pending {
        ghost var was := State();
        var tc := Counted(ch);
        pending := pending - {ch};
        CountedKeepsPending(was, ch);
      }
    }

    method Transfer(ch: nat) returns (value: int)
      requires Shaped() && ch < 8
      modifies `requested, chans
      ensures Shaped() && (State(), value) == C.Transferred(old(State()), ch)
    {
      hide C.Moved;
      var c := chans[ch];
      value := mem[Cell(c.ac)] as int;
      if c.wide { value := value + 0x100 * mem[Cell(c.ac + 1)] as int; }
      chans[ch] := c.(ac := C.Moved(c.ac, C.Page(c), C.Stride(c), space));
      requested := requested + {ch};
    }

    method Read(ch: nat) returns (r: C.Reply)
      requires Shaped() && ch < 8
      modifies `masked, `done, `pending, `requested, chans
      ensures Shaped() && (State(), r) == C.Read(old(State()), ch)
    {
      hide C.Advance, C.Transferred, C.Counted;
      if !Admits(ch, C.READ) { return C.NoData; }
      Advance(ch);
      var value := Transfer(ch);
      var tc := Counted(ch);
      return C.Data(value, tc);
    }

    method ReadOnly(ch: nat) returns (r: C.Reply)
      requires Shaped() && ch < 8
      modifies `masked, `done, `pending, `requested, chans
      ensures Shaped() && (State(), r) == C.ReadOnly(old(State()), ch)
    {
      hide C.Advance, C.Transferred, C.Counted;
      if !Admits(ch, C.READ) { return C.NoData; }
      Advance(ch);
      var value := Transfer(ch);
      pending := pending + {ch};
      return C.Data(value, false);
    }

    method Store(ch: nat, value: nat)
      requires Shaped() && ch < 8
      modifies mem
      ensures mem[..] == C.Stored(old(mem[..]), chans[ch].wide, chans[ch].ac, value)
    {
      hide Poke;
      var c := chans[ch];
      WritePhys(mem, c.ac, [(value % 0x100) as Byte]);
      if c.wide { WritePhys(mem, c.ac + 1, [(value / 0x100 % 0x100) as Byte]); }
    }

    method Write(ch: nat, value: nat) returns (r: C.Reply)
      requires Shaped() && ch < 8
      modifies `masked, `done, `pending, `requested, chans, mem
      ensures Shaped() && (State(), r) == C.Write(old(State()), ch, value)
    {
      hide C.Stored, C.Counted, C.Moved;
      if !Admits(ch, C.WRITE) { return C.NoData; }
      Store(ch, value);
      var c := chans[ch];
      var ac := C.Moved(c.ac, C.Page(c), C.Stride(c), space);
      if c.wide && C.Down(c) { ac := C.Moved(ac, C.Page(c), C.Stride(c), space); }
      chans[ch] := c.(ac := ac);
      requested := requested + {ch};
      pending := pending - {ch};
      var tc := Counted(ch);
      return C.Data(0, ch in masked);
    }

    /** Channel 0 fills the buffer, channel 1 empties it. */
    method MemToMem() returns (ok: bool)
      requires Shaped() && chans[0].cb < 0x10000 && chans[1].cb < 0x10000
      modifies `masked, `done, `pending, `requested, `soft, chans, mem, buffer
      ensures Shaped()
      ensures var out := DmaCopies.MemToMem(old(State()), old(buffer[..]));
        if ok then out == DmaCopies.Copied(State(), buffer[..])
        else out == DmaCopies.Fatal && State() == old(State()) && buffer[..] == old(buffer[..])
    {
      hide C.Read, C.Write, C.Reads, C.Writes, DmaCopies.Taken, DmaCopies.Received, DmaCopies.Values;
      if chans[0].mode & 0xc != C.READ || chans[1].mode & 0xc != C.WRITE { return false; }
      soft := true;
      Fill();
      Empty();
      soft := false;
      return true;
    }

    method Fill()
      requires Shaped() && chans[0].cb < 0x10000
      modifies `masked, `done, `pending, `requested, chans, buffer
      ensures Shaped() && (forall k :: 0 <= k < 8 ==> chans[k].cb == old(chans[k].cb))
      ensures var (e, rs) := C.Reads(old(State()), 0, old(chans[0].cb) + 1);
        State() == e && buffer[..] == DmaCopies.Received(rs) + old(buffer[chans[0].cb + 1..])
    {
      hide C.Read, DmaCopies.Received, DmaCopies.Taken;
      ghost var was, held := State(), buffer[..];
      var i := 0;
      assert DmaCopies.Received([]) == [];
      while i <= chans[0].cb
        invariant Shaped() && i <= chans[0].cb + 1 && forall k :: 0 <= k < 8 ==> chans[k].cb == old(chans[k].cb)
        invariant State() == C.Reads(was, 0, i).0
        invariant buffer[..] == DmaCopies.Received(C.Reads(was, 0, i).1) + held[i..]
        decreases chans[0].cb + 1 - i
      {
        ghost var before, filled := State(), buffer[..];
        ghost var rs := C.Reads(was, 0, i).1;
        var r := FillOne(i);
        ReadKeepsCounts(before, 0);
        assert C.Reads(was, 0, i + 1).1 == rs + [r];
        FilledNext(rs, r, held, i);
        i := i + 1;
      }
    }

    method FillOne(i: nat) returns (r: C.Reply)
      requires Shaped() && i < 0x10000
      modifies `masked, `done, `pending, `requested, chans, buffer
      ensures Shaped() && (State(), r) == C.Read(old(State()), 0)
      ensures buffer[..] == old(buffer[..])[i := DmaCopies.Taken(r)]
    {
      hide C.Read;
      r := Read(0);
      buffer[i] := if r.NoData? then 0xff else (r.value % 0x100) as Byte;
    }

    method Empty()
      requires Shaped() && chans[1].cb < 0x10000
      modifies `masked, `done, `pending, `requested, chans, mem
      ensures Shaped()
      ensures State() == C.Writes(old(State()), 1, DmaCopies.Values(buffer[..old(chans[1].cb) + 1]))
    {
      hide C.Write;
      ghost var was := State();
      var i := 0;
      while i <= chans[1].cb
        invariant Shaped() && i <= chans[1].cb + 1 && chans[1].cb == was.chans[1].cb
        invariant State() == C.Writes(was, 1, DmaCopies.Values(buffer[..i]))
        decreases chans[1].cb + 1 - i
      {
        ghost var before := State();
        var r := Write(1, buffer[i] as nat);
        WriteKeepsCounts(before, 1, buffer[i] as nat);
        ghost var vs := DmaCopies.Values(buffer[..i + 1]);
        assert vs[..i] == DmaCopies.Values(buffer[..i]);
        i := i + 1;
      }
    }
  }

  lemma CountedKeepsPending(d: C.Dma, ch: nat)
    requires ch < |d.chans|
    ensures C.Counted(d, ch).pending == d.pending
  {
  }

  lemma FilledNext(rs: seq<C.Reply>, r: C.Reply, held: seq<Byte>, i: nat)
    requires |rs| == i < |held|
    ensures (DmaCopies.Received(rs) + held[i..])[i := DmaCopies.Taken(r)]
      == DmaCopies.Received(rs + [r]) + held[i + 1..]
  {
    hide DmaCopies.Taken;
    assert DmaCopies.Received(rs + [r]) == DmaCopies.Received(rs) + [DmaCopies.Taken(r)];
  }

  lemma ReadKeepsCounts(d: C.Dma, ch: nat)
    requires C.Valid(d) && ch < 8
    ensures forall k :: 0 <= k < 8 ==> C.Read(d, ch).0.chans[k].cb == d.chans[k].cb
  {
    hide C.Moved, C.Fetched;
  }

  lemma WriteKeepsCounts(d: C.Dma, ch: nat, value: nat)
    requires C.Valid(d) && ch < 8
    ensures forall k :: 0 <= k < 8 ==> C.Write(d, ch, value).0.chans[k].cb == d.chans[k].cb
  {
    hide C.AfterWrite, C.Stored;
  }

  // ---- Scatter/gather ----

  class SgChannel {
    var addr: nat
    var count: nat
    var eot: bool
    var ptr: nat
    var cb: nat
    var cc: int
    var ab: nat
    var ac: nat
    var page: nat
    var pageHigh: nat
    var running: bool
    const format: S.Format
    const mem: array<Byte>

    ghost predicate Shaped()
      reads this
    {
      mem.Length == SPACE && Width(format.width) && S.Proper(format) && 0 < count <= 0x1_0000
    }

    ghost function State(): S.Table
      reads this
    {
      S.Table(addr, count, eot, ptr, cb, cc, ab, ac, page, pageHigh)
    }

    constructor (mem: array<Byte>, format: S.Format, ptr: nat)
      requires mem.Length == SPACE && Width(format.width) && S.Proper(format)
      ensures this.mem == mem && this.format == format && running && Shaped()
      ensures State() == S.After(mem[..], S.Table(0, 0, false, ptr, 0, 0, 0, 0, 0, 0), format)
    {
      this.mem := mem;
      this.format := format;
      addr, count, eot, this.ptr, cb, cc, ab, ac, page, pageHigh := 0, 0, false, ptr, 0, 0, 0, 0, 0, 0;
      running := true;
      new;
      NextAddr();
    }

    method ReadWord(a: nat) returns (w: nat)
      requires mem.Length == SPACE && Width(format.width)
      ensures w == S.Word(Peek(mem[..], a, 4))
    {
      hide Peek, Overlay;
      var bytes := new Byte[4](_ => 0);
      OverlayAll(bytes[..], Peek(mem[..], a, 4));
      BmRead(mem, a, bytes, 0, 4, format.width);
      w := S.Word(bytes[..]);
    }

    method NextAddr()
      requires mem.Length == SPACE && Width(format.width) && S.Proper(format)
      modifies `addr, `count, `eot, `ptr, `cb, `cc, `ab, `ac, `page, `pageHigh
      ensures State() == S.After(mem[..], old(State()), format) && 2 <= count <= 0x1_0000
    {
      hide S.Word, Peek;
      addr := ReadWord(ptr);
      var word := ReadWord(ptr + 4);
      eot := word >= 0x8000_0000;
      count := S.Length(word);
      cb := count;
      cc := count;
      if count == 0 { count := 0x1_0000; }
      if format.width == 2 { addr := addr - addr % 2; }
      ab := addr % format.space;
      ac := addr % format.space;
      page := ac / 0x1_0000 % 0x100;
      pageHigh := ac / 0x100_0000 % 0x100;
      ptr := Cell(ptr + 8);
    }

    /** The transfer stops inside the current block. */
    method Stop(want: nat)
      requires want <= count
      modifies `addr, `count
      ensures State() == S.Part(old(State()), want) && count == old(count) - want
    {
      addr, count := Cell(addr + want), count - want;
    }

    /** dma_sg out of memory: 2 if the channel is not running, else 1, 4 or 5. */
    method Fetch(data: array<Byte>) returns (code: nat)
      requires Shaped() && data != mem
      modifies `addr, `count, `eot, `ptr, `cb, `cc, `ab, `ac, `page, `pageHigh, data
      ensures Shaped()
      ensures !running ==> code == 2 && State() == old(State()) && data[..] == old(data[..])
      ensures running ==> var r := S.Fetch(mem[..], old(State()), format, data.Length);
        |r.data| <= data.Length && code == Code(r.status) && State() == r.table
          && data[..] == Overlay(old(data[..]), 0, r.data)
    {
      hide S.Fetch, Overlay;
      if running { code := Gather(data); } else { code := 2; }
    }

    method Gather(data: array<Byte>) returns (code: nat)
      requires Shaped() && data != mem
      modifies `addr, `count, `eot, `ptr, `cb, `cc, `ab, `ac, `page, `pageHigh, data
      ensures Shaped()
      ensures var r := S.Fetch(mem[..], old(State()), format, data.Length);
        |r.data| <= data.Length && code == Code(r.status) && State() == r.table
          && data[..] == Overlay(old(data[..]), 0, r.data)
    {
      hide S.After, S.Part, Peek, Overlay;
      var at, left := 0, data.Length;
      ghost var m: Memory := mem[..];
      ghost var goal := S.Fetch(m, State(), format, data.Length);
      ghost var sent: seq<Byte> := [];
      OverlayNothing(data[..], 0, sent);
      while true
        invariant Shaped() && 0 <= left && at + left == data.Length && |sent| == at && mem[..] == m
        invariant var r := S.Fetch(m, State(), format, left);
          r.status == goal.status && r.table == goal.table && sent + r.data == goal.data
        invariant data[..] == Overlay(old(data[..]), 0, sent)
        decreases left
      {
        ghost var chunk := Peek(m, addr, if count <= left then count else left);
        OverlayAppend(old(data[..]), 0, sent, chunk);
        ghost var rest := S.Fetch(m, State(), format, left);
        sent := sent + chunk;
        if count > left {
          BmRead(mem, addr, data, at, left, 4);
          Stop(left);
          return 1;
        }
        BmRead(mem, addr, data, at, count, 4);
        at, left := at + count, left - count;
        if left == 0 && !eot { return 1; }
        if left > 0 && eot { return 4; }
        if eot { return 5; }
        NextAddr();
        assert rest.data == chunk + rest.data[|chunk|..];
      }
    }

    /** dma_sg into memory. */
    method Deliver(data: array<Byte>) returns (code: nat)
      requires Shaped() && data != mem
      modifies `addr, `count, `eot, `ptr, `cb, `cc, `ab, `ac, `page, `pageHigh, mem
      ensures Shaped()
      ensures !running ==> code == 2 && State() == old(State()) && mem[..] == old(mem[..])
      ensures running ==> var r := S.Deliver(old(mem[..]), old(State()), format, data[..]);
        code == Code(r.status) && State() == r.table && mem[..] == r.mem
    {
      hide S.Deliver;
      if running { code := Scatter(data); } else { code := 2; }
    }

    method Scatter(data: array<Byte>) returns (code: nat)
      requires Shaped() && data != mem
      modifies `addr, `count, `eot, `ptr, `cb, `cc, `ab, `ac, `page, `pageHigh, mem
      ensures Shaped()
      ensures var r := S.Deliver(old(mem[..]), old(State()), format, data[..]);
        code == Code(r.status) && State() == r.table && mem[..] == r.mem
    {
      hide S.Deliver, S.After, S.Part, Poke;
      var at, left := 0, data.Length;
      ghost var goal := S.Deliver(mem[..], State(), format, data[..]);
      assert data[0..] == data[..];
      while true
        invariant Shaped() && 0 <= at && 0 <= left && at + left == data.Length
          && S.Deliver(mem[..], State(), format, data[at..]) == goal
        decreases left
      {
        DeliverStep(mem[..], State(), format, data[at..]);
        if count > left {
          BmWrite(mem, addr, data, at, left, 4);
          assert data[at..] == data[at..at + left];
          Stop(left);
          return 1;
        }
        BmWrite(mem, addr, data, at, count, 4);
        assert data[at..][..count] == data[at..at + count] && data[at..][count..] == data[at + count..];
        at, left := at + count, left - count;
        if left == 0 && !eot { return 1; }
        if left > 0 && eot { return 4; }
        if eot { return 5; }
        NextAddr();
      }
    }
  }

  lemma DeliverStep(m: Memory, t: S.Table, f: S.Format, data: seq<Byte>)
    requires S.Proper(f) && t.count > 0
    ensures |data| < t.count ==>
      S.Deliver(m, t, f, data) == S.Delivered(S.More, S.Part(t, |data|), Poke(m, t.addr, data))
    ensures |data| >= t.count ==>
      var stored := Poke(m, t.addr, data[..t.count]);
      S.Deliver(m, t, f, data) ==
        if t.eot then S.Delivered(if |data| == t.count then S.Done else S.Over, t, stored)
        else if |data| == t.count then S.Delivered(S.More, t, stored)
        else S.Deliver(stored, S.After(stored, t, f), f, data[t.count..])
  {
  }

  /** What dma_sg returns. */
  function Code(s: S.Status): nat {
    match s
    case More => 1
    case Over => 4
    case Done => 5
  }

  lemma OverlayAll(s: seq<Byte>, d: seq<Byte>)
    requires |s| == |d|
    ensures Overlay(s, 0, d) == d
  {
  }
}
