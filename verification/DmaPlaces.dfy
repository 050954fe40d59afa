/** Whether the values of a transfer to memory end up where the channel's address says. */
module DmaPlaces {
  import opened DmaMemory
  import opened Division
  import opened DmaChannels
  import opened DmaCopies

  /** A write lands where the channel's address says if and only if the channel does not
      write words downwards, or it is the first. */
  lemma WordsDownSkip(c: Chan, k: nat)
    requires k < 0x10000
    ensures At(c, WriteStride(c), k) == At(c, Stride(c), k) <==> !(c.wide && Down(c)) || k == 0
  {
    if c.wide && Down(c) { OffsetsMeet(c.ab, k); }
  }

  lemma OffsetsMeet(a: int, k: nat)
    requires k < 0x10000
    ensures (a + -4 * k) % 0x20000 == (a + -2 * k) % 0x20000 <==> k == 0
  {
  }

  /** What lies at the place of value k. */
  function Held(m: Memory, c: Chan, k: nat): int {
    Fetched(m, c.wide, At(c, Stride(c), k))
  }

  /** The part of a value that the channel carries. */
  function Carried(c: Chan, value: nat): int {
    if c.wide then value % 0x10000 else value % 0x100
  }

  // ---- One store ----

  predicate Apart(wide: bool, x: nat, y: nat) {
    Cell(x) != Cell(y) && (wide ==> Cell(x) != Cell(y + 1) && Cell(x + 1) != Cell(y) && Cell(x + 1) != Cell(y + 1))
  }

  lemma StoredElsewhere(m: Memory, wide: bool, x: nat, y: nat, value: nat)
    requires Apart(wide, x, y)
    ensures Fetched(Stored(m, wide, y, value), wide, x) == Fetched(m, wide, x)
  {
    hide Cell, Poke;
    var low := (value % 0x100) as Byte;
    PokeOne(m, y, low);
    if wide { PokeOne(Poke(m, y, [low]), y + 1, (value / 0x100 % 0x100) as Byte); }
  }

  lemma StoredThere(m: Memory, c: Chan, x: nat, value: nat)
    ensures Fetched(Stored(m, c.wide, x, value), c.wide, x) == Carried(c, value)
  {
    hide Poke, Cell;
    var low := (value % 0x100) as Byte;
    PokeOne(m, x, low);
    if c.wide {
      PokeOne(Poke(m, x, [low]), x + 1, (value / 0x100 % 0x100) as Byte);
      NextCell(x);
      Halves(value);
    }
  }

  lemma NextCell(x: nat)
    ensures Cell(x) != Cell(x + 1)
  {
  }

  lemma Halves(value: nat)
    ensures value % 0x100 + 0x100 * (value / 0x100 % 0x100) == value % 0x10000
  {
    var high := value / 0x100;
    ModUnique(value, high / 0x100, 0x100 * (high % 0x100) + value % 0x100, 0x10000);
  }

  // ---- Places ----

  lemma PlacesApart(c: Chan, i: nat, j: nat, space: nat)
    requires i < j < 0x10000 && c.ab < space && (space == 0x100_0000 || space == SPACE)
    ensures Apart(c.wide, At(c, Stride(c), i), At(c, Stride(c), j))
  {
    if c.wide { WordPlacesApart(c, i, j, space); } else { CellsDiffer(c.ab, Stride(c), i, j, space); }
  }

  lemma WordPlacesApart(c: Chan, i: nat, j: nat, space: nat)
    requires c.wide && i < j < 0x10000 && c.ab < space && (space == 0x100_0000 || space == SPACE)
    ensures Apart(true, At(c, Stride(c), i), At(c, Stride(c), j))
  {
    hide Apart;
    if Down(c) { WordsApart(c.ab, c.ab - 2 * i, j - i, space); } else { WordsApart(c.ab, c.ab + 2 * j, j - i, space); }
  }

  /** Two words of a page, k words apart. */
  lemma WordsApart(a: nat, b: int, k: nat, space: nat)
    requires 0 < k < 0x10000 && a < space && (space == 0x100_0000 || space == SPACE)
    ensures var page := a / 0x20000 * 0x20000;
      var x, y := page + b % 0x20000, page + (b - 2 * k) % 0x20000;
      Apart(true, x, y) && Apart(true, y, x)
  {
    var p, q := b % 0x20000, (b - 2 * k) % 0x20000;
    assert 2 <= p - q || 2 <= q - p;
    InPage128(a, p, space);
    InPage128(a, q, space);
    WordsInPage(a / 0x20000, p, q);
    WordsInPage(a / 0x20000, q, p);
  }

  lemma WordsInPage(n: nat, p: nat, q: nat)
    requires p < 0x20000 && q < 0x20000 && (p - q >= 2 || q - p >= 2) && n * 0x20000 + p < SPACE
      && n * 0x20000 + q < SPACE
    ensures Apart(true, n * 0x20000 + p, n * 0x20000 + q)
  {
    assert n < 0x8000;
  }

  /** Words written downwards never touch the place of a value with an odd number. */
  lemma OddPlacesApart(c: Chan, k: nat, j: nat)
    requires c.wide && Down(c) && k % 2 == 1
    ensures Apart(true, At(c, Stride(c), k), At(c, WriteStride(c), j))
  {
    var w := OddOffsets(c.ab, k, j);
    QuadsApart(c.ab / 0x20000 * 0x20000 + (c.ab - 2 * k) % 0x20000,
      c.ab / 0x20000 * 0x20000 + (c.ab - 4 * j) % 0x20000, w);
  }

  lemma OddOffsets(a: int, k: nat, j: nat) returns (w: int)
    requires k % 2 == 1
    ensures (a - 2 * k) % 0x20000 - (a - 4 * j) % 0x20000 == 4 * w + 2
  {
    w := j - k / 2 - 1 + 0x8000 * ((a - 4 * j) / 0x20000 - (a - 2 * k) / 0x20000);
  }

  lemma QuadsApart(x: nat, y: nat, w: int)
    requires x - y == 4 * w + 2
    ensures Apart(true, x, y)
  {
    CellsApart(x, y, w, 2);
    CellsApart(x, y + 1, w, 1);
    CellsApart(x + 1, y, w, 3);
    CellsApart(x + 1, y + 1, w, 2);
  }

  lemma CellsApart(x: int, y: int, w: int, d: int)
    requires x - y == 4 * w + d && 1 <= d <= 3
    ensures Cell(x) != Cell(y)
  {
    NoMultiple(w - 0x4000_0000 * (x / SPACE - y / SPACE), d);
    assert Cell(x) - Cell(y) == 4 * (w - 0x4000_0000 * (x / SPACE - y / SPACE)) + d;
  }

  lemma NoMultiple(k: int, d: int)
    requires 1 <= d <= 3
    ensures 4 * k + d != 0
  {
  }

  // ---- Transfers ----

  predicate Sound(c: Chan, n: nat) {
    !(c.wide && Down(c)) || n <= 1
  }

  lemma {:induction false} PutHolds(m: Memory, c: Chan, values: seq<nat>, k: nat, space: nat)
    requires k < |values| <= 0x10000 && c.ab < space && (space == 0x100_0000 || space == SPACE) && Sound(c, |values|)
    ensures Held(Put(m, c, values), c, k) == Carried(c, values[k])
    decreases |values|
  {
    hide At, Cell, Fetched, Stored, Stride;
    var last := |values| - 1;
    var before := Put(m, c, values[..last]);
    WordsDownSkip(c, last);
    if k == last {
      StoredThere(before, c, At(c, Stride(c), k), values[k]);
    } else {
      PutHolds(m, c, values[..last], k, space);
      PlacesApart(c, k, last, space);
      StoredElsewhere(before, c.wide, At(c, Stride(c), k), At(c, Stride(c), last), values[last]);
    }
  }

  lemma {:induction false} PutSkips(m: Memory, c: Chan, values: seq<nat>, k: nat)
    requires c.wide && Down(c) && k % 2 == 1
    ensures Held(Put(m, c, values), c, k) == Held(m, c, k)
    decreases |values|
  {
    hide At, Cell, Fetched, Stored, Stride, WriteStride;
    if values != [] {
      var last := |values| - 1;
      PutSkips(m, c, values[..last], k);
      OddPlacesApart(c, k, last);
      StoredElsewhere(Put(m, c, values[..last]), c.wide, At(c, Stride(c), k), At(c, WriteStride(c), last),
        values[last]);
    }
  }

  /** Every value lies where the channel's address says after the transfer. */
  predicate InPlace(d: Dma, ch: nat, values: seq<nat>)
    requires Valid(d) && ch < 8
  {
    var c := d.chans[ch];
    forall k :: 0 <= k < |values| ==> Held(Writes(d, ch, values).mem, c, k) == Carried(c, values[k])
  }

  /** A transfer of words downwards leaves the place of every second word as it was. */
  lemma SecondWordsAreLost(d: Dma, ch: nat, values: seq<nat>, k: nat)
    requires Programmed(d, ch) && Admits(d, ch, WRITE) && |values| <= d.chans[ch].cb + 1
    requires d.chans[ch].wide && Down(d.chans[ch]) && k % 2 == 1
    ensures Held(Writes(d, ch, values).mem, d.chans[ch], k) == Held(d.mem, d.chans[ch], k)
  {
    hide Held, Put, Writes;
    ProgrammedWrites(d, ch, values);
    PutSkips(d.mem, d.chans[ch], values, k);
  }

  /** A transfer of n values puts them in place, whatever they are, if and only if it does not
      write words downwards or it writes at most one. */
  lemma InPlaceExactly(d: Dma, ch: nat, n: nat)
    requires Programmed(d, ch) && Admits(d, ch, WRITE) && n <= d.chans[ch].cb + 1
    ensures (forall values {:trigger InPlace(d, ch, values)} :: |values| == n ==> InPlace(d, ch, values))
      <==> !(d.chans[ch].wide && Down(d.chans[ch])) || n <= 1
  {
    hide Held, Put, Writes, Admits;
    var c := d.chans[ch];
    if Sound(c, n) {
      forall values: seq<nat> | |values| == n
        ensures InPlace(d, ch, values)
      {
        ProgrammedWrites(d, ch, values);
        forall k | 0 <= k < n
          ensures Held(Writes(d, ch, values).mem, c, k) == Carried(c, values[k])
        {
          PutHolds(d.mem, c, values, k, d.space);
        }
      }
    } else {
      var other: nat := if Held(d.mem, c, 1) == 0 then 1 else 0;
      var values := seq(n, _ => other);
      SecondWordsAreLost(d, ch, values, 1);
      assert !InPlace(d, ch, values) by { assert Carried(c, values[1]) == other; }
    }
  }
}
