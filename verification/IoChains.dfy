/** The port table: a doubly linked chain of handlers per port, edited in place. */
module IoChains {
  import opened Division
  import opened IoPorts

  class Node {
    const handler: Handler
    ghost const port: nat
    var prev: Node?
    var next: Node?

    constructor (handler: Handler, ghost port: nat, prev: Node?)
      ensures this.handler == handler && this.port == port && this.prev == prev && next == null
    {
      this.handler, this.port, this.prev, next := handler, port, prev, null;
    }
  }

  function NodeAt(ns: seq<Node>, k: int): Node? {
    if 0 <= k < |ns| then ns[k] else null
  }

  ghost predicate Linked(ns: seq<Node>, p: nat)
    reads ns
  {
    && (forall k {:trigger ns[k].prev} {:trigger ns[k].next} :: 0 <= k < |ns| ==>
          ns[k].prev == NodeAt(ns, k - 1) && ns[k].next == NodeAt(ns, k + 1))
    && (forall k :: 0 <= k < |ns| ==> ns[k].port == p)
    && forall i, j :: 0 <= i < j < |ns| ==> ns[i] != ns[j]
  }

  function HandlersOf(ns: seq<Node>): (hs: seq<Handler>)
    ensures |hs| == |ns| && forall k :: 0 <= k < |hs| ==> hs[k] == ns[k].handler
  {
    seq(|ns|, k requires 0 <= k < |ns| => ns[k].handler)
  }

  function AllHandlers(chains: seq<seq<Node>>): (c: Chains)
    requires |chains| == NPORTS
    ensures forall p :: 0 <= p < NPORTS ==> c[p] == HandlersOf(chains[p])
  {
    seq(NPORTS, p requires 0 <= p < NPORTS => HandlersOf(chains[p]))
  }

  lemma StateReplaced(chains: seq<seq<Node>>, p: nat, ns: seq<Node>)
    requires |chains| == NPORTS && p < NPORTS
    ensures AllHandlers(chains[p := ns]) == AllHandlers(chains)[p := HandlersOf(ns)]
  {
    hide HandlersOf;
  }

  lemma AppendedTo(chains: seq<seq<Node>>, p: nat, node: Node)
    requires |chains| == NPORTS && p < NPORTS
    ensures var after := chains[p := chains[p] + [node]];
      && AllHandlers(after) == AllHandlers(chains)[p := AllHandlers(chains)[p] + [node.handler]]
  {
    var ns := chains[p];
    assert HandlersOf(ns + [node]) == HandlersOf(ns) + [node.handler];
    StateReplaced(chains, p, ns + [node]);
  }

  lemma RestOf(chains: seq<seq<Node>>, p: nat, k: nat)
    requires |chains| == NPORTS && p < NPORTS && k < |chains[p]|
    ensures var ns := chains[p]; var rest := ns[..k] + ns[k + 1..];
      && AllHandlers(chains[p := rest])
           == AllHandlers(chains)[p := AllHandlers(chains)[p][..k] + AllHandlers(chains)[p][k + 1..]]
  {
    var ns := chains[p];
    var rest := ns[..k] + ns[k + 1..];
    assert HandlersOf(rest) == HandlersOf(ns)[..k] + HandlersOf(ns)[k + 1..];
    StateReplaced(chains, p, rest);
  }

  lemma EndsOfRest(ns: seq<Node>, k: nat)
    requires k < |ns|
    ensures var rest := ns[..k] + ns[k + 1..];
      && NodeAt(rest, 0) == (if k == 0 then NodeAt(ns, 1) else NodeAt(ns, 0))
      && NodeAt(rest, |rest| - 1) == (if k == |ns| - 1 then NodeAt(ns, k - 1) else NodeAt(ns, |ns| - 1))
      && forall j :: 0 <= j < |rest| ==> rest[j] in ns
  {
  }

  /** A chain whose k-th node has been bypassed in both directions. */
  lemma BypassedLinks(ns: seq<Node>, k: nat, p: nat)
    requires k < |ns| && (forall j :: 0 <= j < |ns| ==> ns[j].port == p)
    requires forall i, j :: 0 <= i < j < |ns| ==> ns[i] != ns[j]
    requires forall j {:trigger ns[j].next} :: 0 <= j < |ns| && j != k ==>
      ns[j].next == NodeAt(ns, if j == k - 1 then k + 1 else j + 1)
    requires forall j {:trigger ns[j].prev} :: 0 <= j < |ns| && j != k ==>
      ns[j].prev == NodeAt(ns, if j == k + 1 then k - 1 else j - 1)
    ensures Linked(ns[..k] + ns[k + 1..], p)
  {
    var rest := ns[..k] + ns[k + 1..];
    assert forall j :: 0 <= j < |rest| ==> rest[j] == ns[if j < k then j else j + 1];
    forall j | 0 <= j < |rest|
      ensures rest[j].next == NodeAt(rest, j + 1) && rest[j].prev == NodeAt(rest, j - 1)
    {
      var i := if j < k then j else j + 1;
      assert ns[i].next == NodeAt(ns, if i == k - 1 then k + 1 else i + 1);
      assert ns[i].prev == NodeAt(ns, if i == k + 1 then k - 1 else i - 1);
    }
  }

  lemma AppendedLinks(ns: seq<Node>, node: Node, p: nat)
    requires node.port == p && node.next == null && node.prev == NodeAt(ns, |ns| - 1) && node !in ns
    requires forall j :: 0 <= j < |ns| ==> ns[j].port == p
    requires forall i, j :: 0 <= i < j < |ns| ==> ns[i] != ns[j]
    requires forall j {:trigger ns[j].next} :: 0 <= j < |ns| ==>
      ns[j].next == if j == |ns| - 1 then node else NodeAt(ns, j + 1)
    requires forall j {:trigger ns[j].prev} :: 0 <= j < |ns| ==> ns[j].prev == NodeAt(ns, j - 1)
    ensures Linked(ns + [node], p)
  {
  }

  class Ports {
    const heads: array<Node?>
    const tails: array<Node?>
    ghost var chains: seq<seq<Node>>
    ghost var nodes: set<Node>

    ghost predicate PortValid(p: nat)
      requires |chains| == NPORTS == heads.Length == tails.Length && p < NPORTS
      reads this, heads, tails, nodes
    {
      && (forall k :: 0 <= k < |chains[p]| ==> chains[p][k] in nodes)
      && heads[p] == NodeAt(chains[p], 0) && tails[p] == NodeAt(chains[p], |chains[p]| - 1)
      && Linked(chains[p], p)
    }

    ghost predicate Valid()
      reads this, heads, tails, nodes
    {
      && |chains| == NPORTS == heads.Length == tails.Length && heads != tails
      && forall p :: 0 <= p < NPORTS ==> PortValid(p)
    }

    /** The handlers of every port, in order. */
    ghost function State(): Chains
      requires |chains| == NPORTS
      reads this
    {
      AllHandlers(chains)
    }

    constructor ()
      ensures Valid() && State() == seq(NPORTS, _ => [])
      ensures fresh(heads) && fresh(tails) && nodes == {}
    {
      heads := new Node?[NPORTS](_ => null);
      tails := new Node?[NPORTS](_ => null);
      chains := seq(NPORTS, _ => []);
      nodes := {};
      new;
      assert State() == seq(NPORTS, _ => []);
    }

    /** A new handler goes to the end of the chain of its port. */
    method Append(p: nat, h: Handler)
      requires Valid() && p < NPORTS
      modifies this, heads, tails, nodes
      ensures Valid() && State() == old(State())[p := old(State())[p] + [h]]
      ensures fresh(nodes - old(nodes))
    {
      hide AllHandlers, HandlersOf, Linked;
      var last := tails[p];
      ghost var ns := chains[p];
      assert PortValid(p);
      OnlyOfPort(p);
      forall q | 0 <= q < NPORTS && q != p
        ensures PortValid(q) && forall j :: 0 <= j < |chains[q]| ==> chains[q][j] != last
      {
        assert PortValid(q);
        OnlyOfPort(q);
      }
      var node := new Node(h, p, last);
      Hook(p, node, last);
      AppendedTo(chains, p, node);
      chains := chains[p := ns + [node]];
      nodes := nodes + {node};
      assert PortValid(p);
      forall q | 0 <= q < NPORTS && q != p
        ensures PortValid(q)
      {
        assert old(PortValid(q));
      }
    }

    method Hook(p: nat, node: Node, last: Node?)
      requires p < NPORTS == heads.Length == tails.Length == |chains| && heads != tails && PortValid(p)
      requires last == tails[p] && node.port == p && node.prev == last && node.next == null && node !in chains[p]
      modifies heads, tails, last
      ensures Linked(chains[p] + [node], p)
      ensures forall q :: 0 <= q < heads.Length ==> heads[q] == if q == p && last == null then node else old(heads[q])
      ensures forall q :: 0 <= q < tails.Length ==> tails[q] == if q == p then node else old(tails[q])
    {
      ghost var ns := chains[p];
      if last != null {
        assert last == ns[|ns| - 1];
        last.next := node;
      } else {
        heads[p] := node;
      }
      tails[p] := node;
      AppendedLinks(ns, node, p);
    }

    /** The first equal handler leaves the chain of its port, if there is one. */
    method Remove(p: nat, h: Handler)
      requires Valid() && p < NPORTS
      modifies this, heads, tails, nodes
      ensures Valid() && State() == old(State())[p := Without(old(State())[p], h)]
      ensures nodes == old(nodes)
    {
      hide Without;
      ghost var ns := chains[p];
      assert PortValid(p);
      ghost var k := 0;
      var cur := heads[p];
      while cur != null
        invariant k <= |ns| && cur == NodeAt(ns, k) && forall j :: 0 <= j < k ==> ns[j].handler != h
        decreases |ns| - k
      {
        assert cur.next == NodeAt(ns, k + 1) && cur.prev == NodeAt(ns, k - 1);
        if cur.handler == h {
          Unlink(p, cur, k);
          FirstMatch(HandlersOf(ns), h, k);
          return;
        }
        cur := cur.next;
        k := k + 1;
      }
      NoMatch(HandlersOf(ns), h);
      assert State() == State()[p := State()[p]];
    }

    method Unlink(p: nat, cur: Node, ghost k: nat)
      requires Valid() && p < NPORTS && k < |chains[p]| && cur == chains[p][k]
      requires cur.next == NodeAt(chains[p], k + 1) && cur.prev == NodeAt(chains[p], k - 1)
      modifies this, heads, tails, nodes
      ensures Valid() && nodes == old(nodes)
      ensures State() == old(State())[p := old(State())[p][..k] + old(State())[p][k + 1..]]
    {
      hide AllHandlers, HandlersOf, Linked;
      ghost var ns := chains[p];
      RestOf(chains, p, k);
      EndsOfRest(ns, k);
      assert PortValid(p);
      NeighboursOfPort(p, k);
      forall q | 0 <= q < NPORTS && q != p
        ensures PortValid(q)
        ensures forall j :: 0 <= j < |chains[q]| ==> chains[q][j] != cur.prev && chains[q][j] != cur.next
      {
        assert PortValid(q);
        OnlyOfPort(q);
      }
      Bypass(p, cur.prev, cur.next, k);
      chains := chains[p := ns[..k] + ns[k + 1..]];
      assert PortValid(p);
      forall q | 0 <= q < NPORTS && q != p
        ensures PortValid(q)
      {
        assert old(PortValid(q));
      }
    }

    lemma OnlyOfPort(q: nat)
      requires Valid() && q < NPORTS
      ensures forall j :: 0 <= j < |chains[q]| ==> chains[q][j].port == q
    {
      assert PortValid(q);
    }

    lemma NeighboursOfPort(p: nat, k: nat)
      requires Valid() && p < NPORTS && k < |chains[p]|
      ensures var before := NodeAt(chains[p], k - 1); var after := NodeAt(chains[p], k + 1);
        && (before != null ==> before.port == p) && (after != null ==> after.port == p)
        && (before != after || before == null)
    {
      assert PortValid(p);
    }

    method Bypass(p: nat, before: Node?, after: Node?, ghost k: nat)
      requires p < NPORTS == heads.Length == tails.Length == |chains| && heads != tails && k < |chains[p]|
      requires PortValid(p) && before == NodeAt(chains[p], k - 1) && after == NodeAt(chains[p], k + 1)
      modifies heads, tails, before, after
      ensures Linked(chains[p][..k] + chains[p][k + 1..], p)
      ensures forall q :: 0 <= q < heads.Length ==>
        heads[q] == if q == p && before == null then after else old(heads[q])
      ensures forall q :: 0 <= q < tails.Length ==>
        tails[q] == if q == p && after == null then before else old(tails[q])
    {
      assert before != after || before == null;
      Splice(p, before, after);
      BypassedLinks(chains[p], k, p);
    }

    /** The neighbours of a node that goes are joined. */
    method Splice(p: nat, before: Node?, after: Node?)
      requires p < heads.Length == tails.Length && heads != tails && (before != after || before == null)
      modifies heads, tails, before, after
      ensures forall q :: 0 <= q < heads.Length ==>
        heads[q] == if q == p && before == null then after else old(heads[q])
      ensures forall q :: 0 <= q < tails.Length ==>
        tails[q] == if q == p && after == null then before else old(tails[q])
      ensures before != null ==> before.next == after && before.prev == old(before.prev)
      ensures after != null ==> after.prev == before && after.next == old(after.next)
    {
      if before != null { before.next := after; } else { heads[p] := after; }
      if after != null { after.prev := before; } else { tails[p] := before; }
    }

    /** io_sethandler_common: every covered port gets the handler at the end of its chain. */
    method SetHandler(base: nat, size: nat, h: Handler, step: nat)
      requires Valid() && step > 0 && base + size <= NPORTS
      modifies this, heads, tails, nodes
      ensures Valid()
      ensures forall p :: 0 <= p < NPORTS ==>
        State()[p] == if Covers(base, size, step, p) then old(State())[p] + [h] else old(State())[p]
    {
      hide HandlersOf, AllHandlers;
      var c := 0;
      while c < size
        invariant Valid() && fresh(nodes - old(nodes)) && c % step == 0
        invariant forall p :: 0 <= p < NPORTS ==>
          State()[p] == if Covers(base, size, step, p) && p < base + c then old(State())[p] + [h] else old(State())[p]
        decreases size - c
      {
        CoversNext(base, size, step, c);
        Append(base + c, h);
        c := c + step;
      }
    }

    /** io_removehandler_common: every covered port loses its first equal handler. */
    method RemoveHandler(base: nat, size: nat, h: Handler, step: nat)
      requires Valid() && step > 0 && base + size <= NPORTS
      modifies this, heads, tails, nodes
      ensures Valid()
      ensures forall p :: 0 <= p < NPORTS ==>
        State()[p] == if Covers(base, size, step, p) then Without(old(State())[p], h) else old(State())[p]
    {
      hide HandlersOf, AllHandlers, Without;
      var c := 0;
      while c < size
        invariant Valid() && nodes == old(nodes) && c % step == 0
        invariant forall p :: 0 <= p < NPORTS ==>
          State()[p]
            == if Covers(base, size, step, p) && p < base + c then Without(old(State())[p], h) else old(State())[p]
        decreases size - c
      {
        CoversNext(base, size, step, c);
        Remove(base + c, h);
        c := c + step;
      }
    }

    lemma NextOf(p: nat, k: nat)
      requires Valid() && p < NPORTS && k < |chains[p]|
      ensures chains[p][k].next == NodeAt(chains[p], k + 1)
    {
      assert PortValid(p);
    }

    /** Byte handlers of a port, each pulling down what it does not drive. */
    method AndBytes(d: Devices, p: nat, start: bv8, skip: Skip) returns (ret: bv8)
      requires Valid() && p < NPORTS
      ensures ret == And8(start, AndB(d, State()[p], p, skip))
    {
      hide And8, AndB, Linked;
      ghost var hs := State()[p];
      assert PortValid(p);
      ret := start;
      assert hs[..0] == [] && AndB(d, [], p, skip) == 0xff by { AndNothing(d, p, skip, false); }
      And8Laws(start, 0, 0);
      var cur := heads[p];
      ghost var k := 0;
      while cur != null
        invariant k <= |hs| && cur == NodeAt(chains[p], k) && ret == And8(start, AndB(d, hs[..k], p, skip))
        decreases |hs| - k
      {
        AndNext(d, hs, k, p, skip, false);
        if cur.handler.inb.Some? && Passed(cur.handler, skip) {
          var got := d.b(cur.handler.inb.value, p, cur.handler.device);
          And8Laws(start, AndB(d, hs[..k], p, skip), got);
          ret := And8(ret, got);
        }
        NextOf(p, k);
        cur := cur.next;
        k := k + 1;
      }
      assert hs[..k] == hs;
    }

    method AndWords(d: Devices, p: nat, start: bv16, skipLongs: bool) returns (ret: bv16)
      requires Valid() && p < NPORTS
      ensures ret == And16(start, AndW(d, State()[p], p, skipLongs))
    {
      hide And16, AndW, Linked;
      ghost var hs := State()[p];
      assert PortValid(p);
      ret := start;
      assert hs[..0] == [] && AndW(d, [], p, skipLongs) == 0xffff by { AndNothing(d, p, Nothing, skipLongs); }
      And16Laws(start, 0, 0);
      var cur := heads[p];
      ghost var k := 0;
      while cur != null
        invariant k <= |hs| && cur == NodeAt(chains[p], k) && ret == And16(start, AndW(d, hs[..k], p, skipLongs))
        decreases |hs| - k
      {
        AndNext(d, hs, k, p, Nothing, skipLongs);
        if cur.handler.inw.Some? && (skipLongs ==> cur.handler.inl.None?) {
          var got := d.w(cur.handler.inw.value, p, cur.handler.device);
          And16Laws(start, AndW(d, hs[..k], p, skipLongs), got);
          ret := And16(ret, got);
        }
        NextOf(p, k);
        cur := cur.next;
        k := k + 1;
      }
      assert hs[..k] == hs;
    }

    method AndLongs(d: Devices, p: nat) returns (ret: bv32)
      requires Valid() && p < NPORTS
      ensures ret == AndL(d, State()[p], p)
    {
      ghost var hs := State()[p];
      assert PortValid(p);
      ret := 0xffff_ffff;
      var cur := heads[p];
      ghost var k := 0;
      while cur != null
        invariant k <= |hs| && cur == NodeAt(chains[p], k) && ret == AndL(d, hs[..k], p)
        decreases |hs| - k
      {
        assert hs[..k + 1][..k] == hs[..k];
        if cur.handler.inl.Some? { ret := ret & d.l(cur.handler.inl.value, p, cur.handler.device); }
        assert cur.next == NodeAt(chains[p], k + 1);
        cur := cur.next;
        k := k + 1;
      }
      assert hs[..k] == hs;
    }

    /** inb */
    method ReadB(d: Devices, p: nat) returns (ret: bv8)
      requires Valid() && p < NPORTS
      ensures ret == InB(d, State(), p)
    {
      hide And8, AndB;
      ret := AndBytes(d, Port(p, 0), 0xff, Nothing);
      OnesAreNeutral(AndB(d, State()[Port(p, 0)], Port(p, 0), Nothing), 0);
    }

    method ReadWithBytes(d: Devices, p: nat, w: bv16, skip: Skip) returns (ret: bv16)
      requires Valid() && p < NPORTS
      ensures ret == WithBytes(d, State(), p, w, skip)
    {
      hide And8, AndB, Low8, High8, Join16;
      var low := AndBytes(d, Port(p, 0), Low8(w), skip);
      var high := AndBytes(d, Port(p, 1), High8(w), skip);
      ret := Join16(low, high);
    }

    /** inw */
    method ReadW(d: Devices, p: nat) returns (ret: bv16)
      requires Valid() && p < NPORTS
      ensures ret == InW(d, State(), p)
    {
      hide And16, AndW, WithBytes;
      var w := AndWords(d, Port(p, 0), 0xffff, false);
      OnesAreNeutral(0, AndW(d, State()[Port(p, 0)], Port(p, 0), false));
      ret := ReadWithBytes(d, p, w, Words);
    }

    /** inl */
    method ReadL(d: Devices, p: nat) returns (ret: bv32)
      requires Valid() && p < NPORTS
      ensures ret == InL(d, State(), p)
    {
      hide And16, AndW, AndL, WithBytes, Low16, High16, Join32;
      var l := AndLongs(d, Port(p, 0));
      var low := AndWords(d, Port(p, 0), Low16(l), true);
      var high := AndWords(d, Port(p, 2), High16(l), true);
      low := ReadWithBytes(d, p, low, WordsAndLongs);
      high := ReadWithBytes(d, Port(p, 2), high, WordsAndLongs);
      ret := Join32(low, high);
    }

    /** The calls of the byte handlers of a port. */
    method CallBytes(p: nat, b: bv8, skip: Skip) returns (calls: seq<Call>)
      requires Valid() && p < NPORTS
      ensures calls == CallsB(State()[p], p, b, skip)
    {
      ghost var hs := State()[p];
      assert PortValid(p);
      calls := [];
      var cur := heads[p];
      ghost var k := 0;
      while cur != null
        invariant k <= |hs| && cur == NodeAt(chains[p], k) && calls == CallsB(hs[..k], p, b, skip)
        decreases |hs| - k
      {
        assert hs[..k + 1][..k] == hs[..k];
        if cur.handler.outb.Some? && OutPassed(cur.handler, skip) {
          calls := calls + [CallB(cur.handler.outb.value, p, b, cur.handler.device)];
        }
        assert cur.next == NodeAt(chains[p], k + 1);
        cur := cur.next;
        k := k + 1;
      }
      assert hs[..k] == hs;
    }

    method CallWords(p: nat, w: bv16, skipLongs: bool) returns (calls: seq<Call>)
      requires Valid() && p < NPORTS
      ensures calls == CallsW(State()[p], p, w, skipLongs)
    {
      ghost var hs := State()[p];
      assert PortValid(p);
      calls := [];
      var cur := heads[p];
      ghost var k := 0;
      while cur != null
        invariant k <= |hs| && cur == NodeAt(chains[p], k) && calls == CallsW(hs[..k], p, w, skipLongs)
        decreases |hs| - k
      {
        assert hs[..k + 1][..k] == hs[..k];
        if cur.handler.outw.Some? && (skipLongs ==> cur.handler.outl.None?) {
          calls := calls + [CallW(cur.handler.outw.value, p, w, cur.handler.device)];
        }
        assert cur.next == NodeAt(chains[p], k + 1);
        cur := cur.next;
        k := k + 1;
      }
      assert hs[..k] == hs;
    }

    method CallLongs(p: nat, l: bv32) returns (calls: seq<Call>)
      requires Valid() && p < NPORTS
      ensures calls == CallsL(State()[p], p, l)
    {
      ghost var hs := State()[p];
      assert PortValid(p);
      calls := [];
      var cur := heads[p];
      ghost var k := 0;
      while cur != null
        invariant k <= |hs| && cur == NodeAt(chains[p], k) && calls == CallsL(hs[..k], p, l)
        decreases |hs| - k
      {
        assert hs[..k + 1][..k] == hs[..k];
        if cur.handler.outl.Some? { calls := calls + [CallL(cur.handler.outl.value, p, l, cur.handler.device)]; }
        assert cur.next == NodeAt(chains[p], k + 1);
        cur := cur.next;
        k := k + 1;
      }
      assert hs[..k] == hs;
    }

    /** outb */
    method WriteB(p: nat, b: bv8) returns (calls: seq<Call>)
      requires Valid() && p < NPORTS
      ensures calls == OutB(State(), p, b)
    {
      hide CallsB;
      calls := CallBytes(Port(p, 0), b, Nothing);
    }

    /** outw */
    method WriteW(p: nat, w: bv16) returns (calls: seq<Call>)
      requires Valid() && p < NPORTS
      ensures calls == OutW(State(), p, w)
    {
      hide CallsB, CallsW, Low8, High8;
      calls := CallWords(Port(p, 0), w, false);
      var low := CallBytes(Port(p, 0), Low8(w), Words);
      var high := CallBytes(Port(p, 1), High8(w), Words);
      calls := calls + low + high;
    }

    /** outl */
    method WriteL(p: nat, l: bv32) returns (calls: seq<Call>)
      requires Valid() && p < NPORTS
      ensures calls == OutL(State(), p, l)
    {
      hide CallsB, CallsW, CallsL, Low8, High8, Low16, High16;
      calls := CallLongs(Port(p, 0), l);
      var more := CallWords(Port(p, 0), Low16(l), true);
      calls := calls + more;
      more := CallWords(Port(p, 2), High16(l), true);
      calls := calls + more;
      more := CallBytes(Port(p, 0), Low8(Low16(l)), WordsAndLongs);
      calls := calls + more;
      more := CallBytes(Port(p, 1), High8(Low16(l)), WordsAndLongs);
      calls := calls + more;
      more := CallBytes(Port(p, 2), Low8(High16(l)), WordsAndLongs);
      calls := calls + more;
      more := CallBytes(Port(p, 3), High8(High16(l)), WordsAndLongs);
      calls := calls + more;
    }
  }

  lemma And8Laws(a: bv8, b: bv8, c: bv8)
    ensures And8(And8(a, b), c) == And8(a, And8(b, c)) && And8(a, 0xff) == a
  {
  }

  lemma And16Laws(a: bv16, b: bv16, c: bv16)
    ensures And16(And16(a, b), c) == And16(a, And16(b, c)) && And16(a, 0xffff) == a
  {
  }

  lemma {:induction false} FirstMatch(hs: seq<Handler>, h: Handler, k: nat)
    requires k < |hs| && hs[k] == h && forall j :: 0 <= j < k ==> hs[j] != h
    ensures Without(hs, h) == hs[..k] + hs[k + 1..]
  {
    if k > 0 {
      FirstMatch(hs[1..], h, k - 1);
      assert hs[..k] + hs[k + 1..] == [hs[0]] + (hs[1..][..k - 1] + hs[1..][k..]);
    }
  }

  lemma {:induction false} NoMatch(hs: seq<Handler>, h: Handler)
    requires forall j :: 0 <= j < |hs| ==> hs[j] != h
    ensures Without(hs, h) == hs
  {
  }

  /** Between one covered port and the next none is covered. */
  lemma CoversNext(base: nat, size: nat, step: nat, c: nat)
    requires step > 0 && c < size && c % step == 0
    ensures Covers(base, size, step, base + c) && (c + step) % step == 0
    ensures forall p :: base + c < p < base + c + step ==> !Covers(base, size, step, p)
  {
    StepOn(c, step);
    forall p | base + c < p < base + c + step
      ensures !Covers(base, size, step, p)
    {
      Between(c, p - base, step);
    }
  }

  lemma StepOn(c: nat, step: nat)
    requires step > 0 && c % step == 0
    ensures (c + step) % step == 0
  {
    var q := c / step;
    assert c + step == (q + 1) * step by { assert (q + 1) * step == q * step + step; }
    MultipleOf(q + 1, step);
  }

  lemma MultipleOf(q: nat, step: nat)
    requires step > 0
    ensures q * step % step == 0
  {
    ModUnique(q * step, q, 0, step);
  }

  lemma Between(c: nat, x: nat, step: nat)
    requires step > 0 && c % step == 0 && c < x < c + step
    ensures x % step != 0
  {
    var q := c / step;
    ModUnique(x, q, x - c, step);
  }
}
