/** Two-way links between numbered nodes, as values: nx[i] and pv[i] are the numbers
    of node i's neighbours and NONE stands for a null link. */
module TimerLinks {
  import opened Scheduling

  const NONE: int := -1

  /** The node at place k of q, NONE outside it. */
  function Ref(q: seq<nat>, k: int): int {
    if 0 <= k < |q| then q[k] else NONE
  }

  ghost predicate Distinct(q: seq<nat>) {
    forall a, b :: 0 <= a < b < |q| ==> q[a] != q[b]
  }

  /** Each queued node's link leads d places along. */
  ghost predicate Follows(q: seq<nat>, links: seq<int>, d: int) {
    && (forall k :: 0 <= k < |q| ==> q[k] < |links|)
    && (forall k {:trigger links[q[k]]} :: 0 <= k < |q| ==> links[q[k]] == Ref(q, k + d))
  }

  /** A node outside the queue has no link. */
  ghost predicate Bare(q: seq<nat>, links: seq<int>) {
    forall i :: 0 <= i < |links| && i !in q ==> links[i] == NONE
  }

  /** The links say exactly what queue q says. */
  ghost predicate Chained(q: seq<nat>, head: int, nx: seq<int>, pv: seq<int>) {
    && |nx| == |pv| && head == Ref(q, 0)
    && Follows(q, nx, 1) && Follows(q, pv, -1) && Bare(q, nx) && Bare(q, pv)
  }

  function Set(links: seq<int>, at: int, value: int): (r: seq<int>)
    ensures |r| == |links|
  {
    if 0 <= at < |links| then links[at := value] else links
  }

  lemma SetAt(links: seq<int>, at: int, value: int)
    ensures forall i :: 0 <= i < |links| ==> Set(links, at, value)[i] == if i == at then value else links[i]
  {
  }

  /** w is q without its place k. */
  ghost predicate Shorter(q: seq<nat>, w: seq<nat>, k: nat) {
    && Distinct(q) && k < |q| && |w| == |q| - 1
    && forall b :: 0 <= b < |w| ==> w[b] == q[if b < k then b else b + 1]
  }

  /** w is q with i at place k. */
  ghost predicate Longer(q: seq<nat>, w: seq<nat>, k: nat, i: nat) {
    && Distinct(q) && k <= |q| && i !in q && |w| == |q| + 1
    && forall b :: 0 <= b < |w| ==> w[b] == if b == k then i else q[if b < k then b else b - 1]
  }

  lemma UnlinkNexts(q: seq<nat>, w: seq<nat>, nx: seq<int>, k: nat)
    requires Shorter(q, w, k) && Follows(q, nx, 1)
    ensures Follows(w, Set(Set(nx, Ref(q, k as int - 1), Ref(q, k + 1)), q[k], NONE), 1)
  {
    SetAt(nx, Ref(q, k as int - 1), Ref(q, k + 1));
    SetAt(Set(nx, Ref(q, k as int - 1), Ref(q, k + 1)), q[k], NONE);
    hide Set;
    forall a | 0 <= a < |w|
      ensures w[a] < |nx| && Set(Set(nx, Ref(q, k as int - 1), Ref(q, k + 1)), q[k], NONE)[w[a]] == Ref(w, a + 1)
    {
      var b := if a < k then a else a + 1;
      assert w[a] == q[b] && q[b] != q[k] && nx[q[b]] == Ref(q, b + 1);
      if b + 1 == k {
        assert a + 1 < |w| ==> w[a + 1] == q[k + 1];
      } else {
        assert k > 0 ==> q[k - 1] != q[b];
        assert a + 1 < |w| ==> w[a + 1] == q[b + 1];
      }
    }
  }

  lemma UnlinkPrevs(q: seq<nat>, w: seq<nat>, pv: seq<int>, k: nat)
    requires Shorter(q, w, k) && Follows(q, pv, -1)
    ensures Follows(w, Set(Set(pv, Ref(q, k + 1), Ref(q, k as int - 1)), q[k], NONE), -1)
  {
    SetAt(pv, Ref(q, k + 1), Ref(q, k as int - 1));
    SetAt(Set(pv, Ref(q, k + 1), Ref(q, k as int - 1)), q[k], NONE);
    hide Set;
    forall a | 0 <= a < |w|
      ensures w[a] < |pv| && Set(Set(pv, Ref(q, k + 1), Ref(q, k as int - 1)), q[k], NONE)[w[a]] == Ref(w, a as int - 1)
    {
      var b := if a < k then a else a + 1;
      assert w[a] == q[b] && q[b] != q[k] && pv[q[b]] == Ref(q, b as int - 1);
      if b == k + 1 {
        assert a > 0 ==> w[a - 1] == q[k - 1];
      } else {
        assert k + 1 < |q| ==> q[k + 1] != q[b];
        assert a > 0 ==> w[a - 1] == q[b - 1];
      }
    }
  }

  /** Whatever neighbour k is given a link, the nodes outside stay bare. */
  lemma UnlinkOthers(q: seq<nat>, w: seq<nat>, links: seq<int>, k: int, value: int, i: nat)
    requires Bare(q, links) && forall j :: j in w <==> j in q && j != i
    ensures Bare(w, Set(Set(links, Ref(q, k), value), i, NONE))
  {
    SetAt(links, Ref(q, k), value);
    SetAt(Set(links, Ref(q, k), value), i, NONE);
    assert 0 <= k < |q| ==> q[k] in q;
    hide Set;
  }

  lemma WithoutIsShorter(q: seq<nat>, i: nat)
    requires Distinct(q) && i in q
    ensures Shorter(q, Without(q, i), IndexOf(q, i)) && Distinct(Without(q, i))
    ensures forall j :: j in Without(q, i) <==> j in q && j != i
  {
    WithoutMembers(q, i);
    hide Without, IndexOf;
  }

  /** Taking node i out: its neighbours are linked to each other, and the head moves
      on exactly when node i has none before it. */
  lemma UnlinkChain(q: seq<nat>, head: int, nx: seq<int>, pv: seq<int>, i: nat)
    requires Distinct(q) && Chained(q, head, nx, pv) && i in q
    ensures Distinct(Without(q, i)) && i < |nx| && nx[i] != i && pv[i] != i
    ensures Chained(Without(q, i), if pv[i] == NONE then nx[i] else head,
                    Set(Set(nx, pv[i], nx[i]), i, NONE), Set(Set(pv, nx[i], pv[i]), i, NONE))
  {
    var k := IndexOf(q, i);
    var w := Without(q, i);
    WithoutIsShorter(q, i);
    assert nx[q[k]] == Ref(q, k + 1) && pv[q[k]] == Ref(q, k as int - 1);
    assert if k == 0 then Ref(w, 0) == Ref(q, 1) else Ref(w, 0) == Ref(q, 0);
    hide Without, IndexOf, Follows, Bare, Distinct, Shorter;
    UnlinkNexts(q, w, nx, k);
    UnlinkPrevs(q, w, pv, k);
    UnlinkOthers(q, w, nx, k as int - 1, nx[i], i);
    UnlinkOthers(q, w, pv, k + 1, pv[i], i);
  }

  lemma LinkNexts(q: seq<nat>, w: seq<nat>, nx: seq<int>, k: nat, i: nat)
    requires Longer(q, w, k, i) && Follows(q, nx, 1) && i < |nx|
    ensures Follows(w, Set(Set(nx, i, Ref(q, k)), Ref(q, k as int - 1), i), 1)
  {
    SetAt(nx, i, Ref(q, k));
    SetAt(Set(nx, i, Ref(q, k)), Ref(q, k as int - 1), i);
    hide Set;
    forall a | 0 <= a < |w|
      ensures w[a] < |nx| && Set(Set(nx, i, Ref(q, k)), Ref(q, k as int - 1), i)[w[a]] == Ref(w, a + 1)
    {
      if a == k {
        assert k > 0 ==> q[k - 1] in q;
        assert a + 1 < |w| ==> w[a + 1] == q[k];
      } else {
        var b := if a < k then a else a - 1;
        assert w[a] == q[b] && q[b] in q && nx[q[b]] == Ref(q, b + 1);
        if a + 1 == k {
          assert w[a + 1] == i;
        } else {
          assert k > 0 ==> q[k - 1] != q[b];
          assert a + 1 < |w| ==> w[a + 1] == q[b + 1];
        }
      }
    }
  }

  lemma LinkPrevs(q: seq<nat>, w: seq<nat>, pv: seq<int>, k: nat, i: nat)
    requires Longer(q, w, k, i) && Follows(q, pv, -1) && i < |pv|
    ensures Follows(w, Set(Set(pv, i, Ref(q, k as int - 1)), Ref(q, k), i), -1)
  {
    SetAt(pv, i, Ref(q, k as int - 1));
    SetAt(Set(pv, i, Ref(q, k as int - 1)), Ref(q, k), i);
    hide Set;
    forall a | 0 <= a < |w|
      ensures w[a] < |pv| && Set(Set(pv, i, Ref(q, k as int - 1)), Ref(q, k), i)[w[a]] == Ref(w, a as int - 1)
    {
      if a == k {
        assert k < |q| ==> q[k] in q;
        assert a > 0 ==> w[a - 1] == q[k - 1];
      } else {
        var b := if a < k then a else a - 1;
        assert w[a] == q[b] && q[b] in q && pv[q[b]] == Ref(q, b as int - 1);
        if a == k + 1 {
          assert w[a - 1] == i;
        } else {
          assert k < |q| ==> q[k] != q[b];
          assert a > 0 ==> w[a - 1] == q[b - 1];
        }
      }
    }
  }

  lemma LinkOthers(q: seq<nat>, w: seq<nat>, links: seq<int>, k: int, value: int, i: nat)
    requires Bare(q, links) && forall j :: j in w <==> j in q || j == i
    ensures Bare(w, Set(Set(links, i, value), Ref(q, k), i))
  {
    SetAt(links, i, value);
    SetAt(Set(links, i, value), Ref(q, k), i);
    assert 0 <= k < |q| ==> q[k] in q;
    hide Set;
  }

  lemma SpliceIsLonger(q: seq<nat>, k: nat, i: nat)
    requires k <= |q| && i !in q && Distinct(q)
    ensures var w := Splice(q, k, i);
      Longer(q, w, k, i) && Distinct(w) && forall j :: j in w <==> j in q || j == i
  {
    assert q == q[..k] + q[k..];
  }

  /** Putting node i in at place k: between the old neighbours k - 1 and k. */
  lemma LinkChain(q: seq<nat>, head: int, nx: seq<int>, pv: seq<int>, k: nat, i: nat)
    requires Distinct(q) && Chained(q, head, nx, pv) && k <= |q| && i < |nx| && i !in q
    ensures Distinct(Splice(q, k, i))
    ensures Chained(Splice(q, k, i), if k == 0 then i else head,
                    Set(Set(nx, i, Ref(q, k)), Ref(q, k as int - 1), i),
                    Set(Set(pv, i, Ref(q, k as int - 1)), Ref(q, k), i))
  {
    var w := Splice(q, k, i);
    SpliceIsLonger(q, k, i);
    assert Ref(w, 0) == if k == 0 then i else Ref(q, 0);
    hide Splice, Follows, Bare, Distinct, Longer;
    LinkNexts(q, w, nx, k, i);
    LinkPrevs(q, w, pv, k, i);
    LinkOthers(q, w, nx, k as int - 1, Ref(q, k), i);
    LinkOthers(q, w, pv, k, Ref(q, k as int - 1), i);
  }
}
