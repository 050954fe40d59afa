/** Software breakpoints: the opcode swapped into memory and out again. */
module GdbSwaps {
  import opened DmaMemory
  import opened GdbPoints

  /** Where linear addresses lie, and which cells can be written. */
  datatype World = World(phys: nat -> nat, ram: nat -> bool)

  function Place(w: World, p: Point): (x: nat)
    ensures x < SPACE
  {
    Cell(w.phys(p.addr))
  }

  function Store(m: Memory, w: World, x: nat, b: Byte): Memory
    requires x < SPACE
  {
    if w.ram(x) then m[x := b] else m
  }

  function SwapIn(m: Memory, w: World, ps: seq<Point>): (r: (Memory, seq<Point>))
    ensures |r.1| == |ps| && forall k :: 0 <= k < |ps| ==> r.1[k].addr == ps[k].addr
    decreases |ps|
  {
    if ps == [] then (m, []) else
      var x := Place(w, ps[0]);
      var (n, qs) := SwapIn(Store(m, w, x, INT3), w, ps[1..]);
      (n, [ps[0].(orig := m[x])] + qs)
  }

  /** The guest may have changed the mapping since the breakpoints were swapped in. */
  function SwapOut(m: Memory, w: World, ps: seq<Point>): Memory
    decreases |ps|
  {
    if ps == [] then m else
      var x := Place(w, ps[0]);
      SwapOut(if m[x] == INT3 then Store(m, w, x, ps[0].orig) else m, w, ps[1..])
  }

  // ---- Swapping in ----

  predicate Hit(w: World, ps: seq<Point>, x: nat) {
    exists k :: 0 <= k < |ps| && Place(w, ps[k]) == x
  }

  lemma HitCons(w: World, ps: seq<Point>, x: nat)
    requires ps != []
    ensures Hit(w, ps, x) <==> Place(w, ps[0]) == x || Hit(w, ps[1..], x)
  {
    if Hit(w, ps[1..], x) {
      var k :| 0 <= k < |ps[1..]| && Place(w, ps[1..][k]) == x;
      assert Place(w, ps[k + 1]) == x;
    }
    if Hit(w, ps, x) && Place(w, ps[0]) != x {
      var k :| 0 <= k < |ps| && Place(w, ps[k]) == x;
      assert Place(w, ps[1..][k - 1]) == x;
    }
  }

  lemma {:induction false} SwappedIn(m: Memory, w: World, ps: seq<Point>, x: nat)
    requires x < SPACE
    ensures SwapIn(m, w, ps).0[x] == if Hit(w, ps, x) && w.ram(x) then INT3 else m[x]
    decreases |ps|
  {
    hide Cell, Place;
    if ps != [] {
      SwappedIn(Store(m, w, Place(w, ps[0]), INT3), w, ps[1..], x);
      HitCons(w, ps, x);
    }
  }

  /** A breakpoint saves the byte it replaces, or the opcode if an earlier one was put into
      the same cell. */
  lemma {:induction false} SavedIs(m: Memory, w: World, ps: seq<Point>, k: nat)
    requires k < |ps|
    ensures var x := Place(w, ps[k]);
      SwapIn(m, w, ps).1[k].orig == if Hit(w, ps[..k], x) && w.ram(x) then INT3 else m[x]
    decreases |ps|
  {
    hide Cell, Place;
    var x := Place(w, ps[k]);
    if k > 0 {
      SavedIs(Store(m, w, Place(w, ps[0]), INT3), w, ps[1..], k - 1);
      HitCons(w, ps[..k], x);
      assert ps[..k][1..] == ps[1..][..k - 1];
    }
  }

  // ---- Swapping out ----

  /** The byte a cell that holds the opcode ends up with: the first byte other than the
      opcode that was saved by a breakpoint which now lies there. */
  function Back(w: World, qs: seq<Point>, x: nat): Byte {
    if qs == [] then INT3
    else if Place(w, qs[0]) == x && qs[0].orig != INT3 then qs[0].orig
    else Back(w, qs[1..], x)
  }

  lemma {:induction false} SwappedOut(g: Memory, w: World, qs: seq<Point>, x: nat)
    requires x < SPACE
    ensures SwapOut(g, w, qs)[x] == if g[x] == INT3 && w.ram(x) then Back(w, qs, x) else g[x]
    decreases |qs|
  {
    hide Cell, Place;
    if qs != [] {
      var c := Place(w, qs[0]);
      SwappedOut(if g[c] == INT3 then Store(g, w, c, qs[0].orig) else g, w, qs[1..], x);
      if g[x] == INT3 && w.ram(x) && c == x && qs[0].orig == INT3 { assert g[x := INT3] == g; }
    }
  }

  lemma {:induction false} BackIsOpcode(w: World, qs: seq<Point>, x: nat)
    ensures Back(w, qs, x) == INT3 <==> forall k :: 0 <= k < |qs| && Place(w, qs[k]) == x ==> qs[k].orig == INT3
    decreases |qs|
  {
    hide Place;
    if qs != [] {
      BackIsOpcode(w, qs[1..], x);
      assert forall k :: 0 < k < |qs| ==> qs[k] == qs[1..][k - 1];
    }
  }

  lemma PlacesOf(w: World, ps: seq<Point>, qs: seq<Point>)
    requires |ps| == |qs| && forall k :: 0 <= k < |ps| ==> qs[k].addr == ps[k].addr
    ensures forall k :: 0 <= k < |ps| ==> Place(w, qs[k]) == Place(w, ps[k])
  {
  }

  // ---- In and out again ----

  /** A breakpoint lies where it lay, and can be written if it could. */
  predicate Agree(v: World, w: World, ps: seq<Point>) {
    forall k :: 0 <= k < |ps| ==> Place(v, ps[k]) == Place(w, ps[k]) && v.ram(Place(v, ps[k])) == w.ram(Place(v, ps[k]))
  }

  /** A cell left holding the opcode by the guest keeps it if and only if it cannot be written
      now, or every breakpoint that lies there now found the opcode in its own cell, already
      there or put there by an earlier breakpoint, when it was swapped in. The two worlds may
      be any two. */
  lemma OpcodeStays(m: Memory, v: World, w: World, ps: seq<Point>, g: Memory, x: nat)
    requires x < SPACE && g[x] == INT3
    ensures SwapOut(g, w, SwapIn(m, v, ps).1)[x] == INT3 <==>
      || !w.ram(x)
      || forall k :: 0 <= k < |ps| && Place(w, ps[k]) == x ==>
           var y := Place(v, ps[k]); m[y] == INT3 || (v.ram(y) && Hit(v, ps[..k], y))
  {
    hide Place, SwapIn, SwapOut, Hit, Back;
    var qs := SwapIn(m, v, ps).1;
    SwappedOut(g, w, qs, x);
    BackIsOpcode(w, qs, x);
    PlacesOf(w, ps, qs);
    forall k | 0 <= k < |ps|
      ensures var y := Place(v, ps[k]); qs[k].orig == if Hit(v, ps[..k], y) && v.ram(y) then INT3 else m[y]
    {
      SavedIs(m, v, ps, k);
    }
  }

  /** The guest may change the mapping between the two swaps: here the page of the only
      breakpoint moves, and the cell it was in keeps the opcode. */
  lemma RemappedPageKeepsOpcode(m: Memory)
    requires m[0x1000] != INT3
    ensures var ps := [Point(0x1000, 0x1001, 0)];
      var v, w := World(a => a, _ => true), World(a => a + 0x1000, _ => true);
      var (g, qs) := SwapIn(m, v, ps);
      SwapOut(g, w, qs)[0x1000] == INT3 != m[0x1000]
  {
    hide SwapIn, SwapOut;
    var ps := [Point(0x1000, 0x1001, 0)];
    var v, w := World(a => a, _ => true), World(a => a + 0x1000, _ => true);
    assert Place(v, ps[0]) == 0x1000;
    SwappedIn(m, v, ps, 0x1000);
    OpcodeStays(m, v, w, ps, SwapIn(m, v, ps).0, 0x1000);
  }

  /** If they agree, swapping out changes exactly the cells that still hold the opcode, back
      to what they held before, whatever the guest has done to memory and even where several
      addresses share a cell. */
  lemma {:induction false} SwapRestores(m: Memory, v: World, w: World, ps: seq<Point>, g: Memory, x: nat)
    requires x < SPACE && Agree(v, w, ps)
    ensures SwapOut(g, w, SwapIn(m, v, ps).1)[x] == if Hit(w, ps, x) && w.ram(x) && g[x] == INT3 then m[x] else g[x]
    decreases |ps|
  {
    hide Cell, Place;
    if ps != [] {
      var c := Place(v, ps[0]);
      var m' := Store(m, v, c, INT3);
      var g' := if g[c] == INT3 then Store(g, w, c, m[c]) else g;
      SwapRestores(m', v, w, ps[1..], g', x);
      HitCons(w, ps, x);
      var qs := SwapIn(m, v, ps).1;
      PlacesOf(w, ps, qs);
      assert qs[1..] == SwapIn(m', v, ps[1..]).1;
    }
  }

  /** In and out again is then the identity on every cell the guest leaves alone. */
  lemma SwapIsIdentity(m: Memory, v: World, w: World, ps: seq<Point>, g: Memory, x: nat)
    requires x < SPACE && g[x] == SwapIn(m, v, ps).0[x] && Agree(v, w, ps)
    ensures SwapOut(g, w, SwapIn(m, v, ps).1)[x] == m[x]
  {
    SwappedIn(m, v, ps, x);
    SwapRestores(m, v, w, ps, g, x);
  }

  /** A byte the guest itself sets to the opcode is then lost if and only if a breakpoint in
      writable memory lies there and the byte was another before. */
  lemma GuestOpcodeLost(m: Memory, v: World, w: World, ps: seq<Point>, g: Memory, x: nat)
    requires x < SPACE && g[x] == INT3 && Agree(v, w, ps)
    ensures SwapOut(g, w, SwapIn(m, v, ps).1)[x] != g[x] <==> Hit(w, ps, x) && w.ram(x) && m[x] != INT3
  {
    SwapRestores(m, v, w, ps, g, x);
  }
}
