/** What the priority resolver selects, nesting as a stack, and rotation. */
module PicPriority {
  import opened Options
  import opened Pic

  lemma PlacesAreInverse(p: Level, i: nat, j: Level)
    requires i < 8
    ensures Dist(p, At(p, i)) == i && At(p, Dist(p, j)) == j
  {
    if i + p < 8 { assert At(p, i) == i + p; } else { assert At(p, i) == i + p - 8; }
    if j < p { assert Dist(p, j) == j + 8 - p; } else { assert Dist(p, j) == j - p; }
  }

  lemma DistIsInjective(p: Level, j: Level, k: Level)
    requires Dist(p, j) == Dist(p, k)
    ensures j == k
  {
    PlacesAreInverse(p, 0, j);
    PlacesAreInverse(p, 0, k);
  }

  /** Level j may interrupt: it is requested and not masked, the chip is initialised,
      and nothing of its own or higher priority is in service. */
  ghost predicate Deliverable(c: Chip, j: Level) {
    && c.state == Ready && j in Requested(c)
    && forall k: Level :: k in c.isr ==> Dist(c.priority, j) < Dist(c.priority, k)
  }

  ghost predicate IsFirst(c: Chip, j: Level) {
    Deliverable(c, j) && forall k: Level :: Deliverable(c, k) ==> Dist(c.priority, j) <= Dist(c.priority, k)
  }

  lemma {:induction false} BestFromMeans(c: Chip, i: nat)
    requires i <= 8
    requires forall k: Level :: Dist(c.priority, k) < i ==> k !in c.isr && !(c.state == Ready && k in Requested(c))
    ensures var b := BestFrom(c, i);
      && (b.Some? ==> IsFirst(c, b.value))
      && (b.None? ==> forall k: Level :: !Deliverable(c, k))
    decreases 8 - i
  {
    if i < 8 {
      var j := At(c.priority, i);
      PlacesAreInverse(c.priority, i, j);
      forall k: Level | Dist(c.priority, k) == i ensures k == j { DistIsInjective(c.priority, j, k); }
      if j !in c.isr && !(c.state == Ready && j in Requested(c)) { BestFromMeans(c, i + 1); }
    }
  }

  /** The scan finds the deliverable level of highest rotated priority: that one and
      no other, and none only when there is none. */
  lemma BestIsFirstDeliverable(c: Chip, j: Level)
    ensures Best(c) == Some(j) <==> IsFirst(c, j)
    ensures Best(c) == None <==> forall k: Level :: !Deliverable(c, k)
  {
    BestFromMeans(c, 0);
    if IsFirst(c, j) && Best(c).Some? { DistIsInjective(c.priority, j, Best(c).value); }
  }

  lemma {:induction false} NonSpecificFromMeans(c: Chip, i: nat)
    requires i <= 8
    requires forall k: Level :: Dist(c.priority, k) < i ==> !(k in c.isr && (!c.specialMask || k !in c.imr))
    ensures var e := NonSpecificFrom(c, i);
      && (e.Some? ==> e.value in c.isr && (!c.specialMask || e.value !in c.imr))
      && (forall k: Level :: k in c.isr && (!c.specialMask || k !in c.imr) ==>
            e.Some? && Dist(c.priority, e.value) <= Dist(c.priority, k))
    decreases 8 - i
  {
    if i < 8 {
      var j := At(c.priority, i);
      PlacesAreInverse(c.priority, i, j);
      forall k: Level | Dist(c.priority, k) == i ensures k == j { DistIsInjective(c.priority, j, k); }
      if !(j in c.isr && (!c.specialMask || j !in c.imr)) { NonSpecificFromMeans(c, i + 1); }
    }
  }

  // ---- Fully nested mode ----

  /** st lists the open services, oldest first: they are the levels in service, and
      each has strictly higher priority than the one it interrupted. */
  ghost predicate Nested(c: Chip, st: seq<Level>) {
    && !c.specialMask && !c.autoRotate
    && (forall j: Level :: j in c.isr <==> j in st)
    && (forall a, b :: 0 <= a < b < |st| ==> Dist(c.priority, st[b]) < Dist(c.priority, st[a]))
  }

  /** A level that wins the resolver stacks on top of the open services. */
  lemma AcknowledgedGoesOnTop(c: Chip, st: seq<Level>, j: Level)
    requires Nested(c, st) && Best(c) == Some(j)
    ensures Nested(c.(isr := c.isr + {j}), st + [j]) && j !in st
  {
    BestIsFirstDeliverable(c, j);
    forall a | 0 <= a < |st| ensures Dist(c.priority, j) < Dist(c.priority, st[a]) {
      assert st[a] in c.isr;
    }
  }

  /** A non-specific end of interrupt means exactly the most recent open service. */
  lemma NonSpecificIsTop(c: Chip, st: seq<Level>)
    requires Nested(c, st)
    ensures NonSpecific(c) == if st == [] then None else Some(st[|st| - 1])
  {
    NonSpecificFromMeans(c, 0);
    if st != [] {
      assert st[|st| - 1] in c.isr;
      TopIsNearest(c, st);
    }
  }

  lemma TopIsNearest(c: Chip, st: seq<Level>)
    requires Nested(c, st) && st != []
    ensures forall k: Level :: k in c.isr && Dist(c.priority, k) <= Dist(c.priority, st[|st| - 1]) ==> k == st[|st| - 1]
  {
    forall k: Level | k in c.isr && Dist(c.priority, k) <= Dist(c.priority, st[|st| - 1])
      ensures k == st[|st| - 1]
    {
      var a :| 0 <= a < |st| && st[a] == k;
    }
  }

  lemma EndedComesOffTop(c: Chip, st: seq<Level>)
    requires Nested(c, st) && st != []
    ensures Nested(Ended(c, st[|st| - 1], true, false), st[..|st| - 1])
  {
    assert st == st[..|st| - 1] + [st[|st| - 1]];
    assert forall a :: 0 <= a < |st| - 1 ==> Dist(c.priority, st[|st| - 1]) < Dist(c.priority, st[a]);
  }

  /** A stack without one of its levels. */
  function Struck(st: seq<Level>, j: Level): seq<Level> {
    if st == [] then [] else if st[0] == j then st[1..] else [st[0]] + Struck(st[1..], j)
  }

  lemma {:induction false} StruckAt(st: seq<Level>, j: Level, k: nat)
    requires k <= |st| && (forall a :: 0 <= a < k ==> st[a] != j) && (k < |st| ==> st[k] == j)
    ensures Struck(st, j) == if k < |st| then st[..k] + st[k + 1..] else st
    decreases k
  {
    if st != [] && k > 0 {
      StruckAt(st[1..], j, k - 1);
      if k < |st| { assert st[..k] == [st[0]] + st[1..][..k - 1] && st[1..][k..] == st[k + 1..]; }
    }
  }

  lemma StruckMembers(st: seq<Level>, j: Level, k: nat)
    requires k < |st| && st[k] == j && forall a :: 0 <= a < |st| && a != k ==> st[a] != j
    ensures var r := Struck(st, j);
      && |r| == |st| - 1 && (forall a :: 0 <= a < |r| ==> r[a] == st[if a < k then a else a + 1])
      && forall i: Level :: i in r <==> i in st && i != j
  {
    StruckAt(st, j, k);
    var r := Struck(st, j);
    hide Struck;
    forall i: Level | i in st && i != j ensures i in r {
      var a :| 0 <= a < |st| && st[a] == i;
      assert r[if a < k then a else a - 1] == i;
    }
  }

  lemma StackIsDistinct(c: Chip, st: seq<Level>, k: nat)
    requires Nested(c, st) && k < |st|
    ensures forall a :: 0 <= a < |st| && a != k ==> st[a] != st[k]
  {
    hide Dist;
    forall a | 0 <= a < |st| && a != k ensures st[a] != st[k] {
      assert if a < k then Dist(c.priority, st[k]) < Dist(c.priority, st[a])
             else Dist(c.priority, st[a]) < Dist(c.priority, st[k]);
    }
  }

  /** Ending a service anywhere in the stack takes out that one alone. */
  lemma StruckIsNested(c: Chip, st: seq<Level>, j: Level)
    requires Nested(c, st)
    ensures Nested(Ended(c, j, true, false), Struck(st, j))
  {
    hide Struck, Dist;
    if j in st {
      var k :| 0 <= k < |st| && st[k] == j;
      StackIsDistinct(c, st, k);
      StruckMembers(st, j, k);
    } else {
      StruckAt(st, j, |st|);
    }
  }

  // ---- Rotation ----

  /** After one service with rotate-on-non-specific-EOI, a waiting level has moved up
      past everything that was served before it. */
  lemma RotationMovesUp(c: Chip, j: Level, waiting: Level)
    requires c.isr == {} && Best(c) == Some(j) && c.state == Ready && waiting in Requested(c) && waiting != j
    ensures Dist((j + 1) % 8, waiting) == Dist(c.priority, waiting) - Dist(c.priority, j) - 1
    ensures Dist((j + 1) % 8, waiting) < Dist(c.priority, waiting)
  {
    BestIsFirstDeliverable(c, j);
    assert Deliverable(c, waiting);
    if Dist(c.priority, waiting) == Dist(c.priority, j) { DistIsInjective(c.priority, waiting, j); }
    hide IsFirst, Deliverable, Best;
    DistAfterRotation(c.priority, j, waiting);
  }

  lemma DistAfterRotation(p: Level, j: Level, k: Level)
    requires Dist(p, j) < Dist(p, k)
    ensures Dist((j + 1) % 8, k) == Dist(p, k) - Dist(p, j) - 1
  {
    hide Dist;
    DistIs(p, j);
    DistIs(p, k);
    DistIs((j + 1) % 8, k);
    assert (j + 1) % 8 == if j == 7 then 0 else j + 1;
  }

  lemma DistIs(p: Level, j: Level)
    ensures Dist(p, j) == if j < p then j + 8 - p else j - p
  {
  }

  /** A chip's states just before each of a series of services, one at a time, each
      ended by rotate-on-non-specific-EOI. Requests and masks may change freely in
      between. */
  ghost predicate RotatingServices(cs: seq<Chip>) {
    && (forall k :: 0 <= k < |cs| ==> cs[k].isr == {} && cs[k].state == Ready && Best(cs[k]).Some?)
    && (forall k :: 0 < k < |cs| ==> cs[k].priority == (Best(cs[k - 1]).value + 1) % 8)
  }

  /** Rotation is starvation-free: a level that stays requested and unmasked is
      served before 8 other services have gone by, wherever it started. */
  lemma {:induction false} NobodyStarves(cs: seq<Chip>, waiting: Level)
    requires RotatingServices(cs) && |cs| > 0
    requires forall k :: 0 <= k < |cs| ==> waiting in Requested(cs[k]) && Best(cs[k]) != Some(waiting)
    ensures |cs| <= Dist(cs[0].priority, waiting) <= 7
  {
    hide Best, Dist;
    var j := Best(cs[0]).value;
    RotationMovesUp(cs[0], j, waiting);
    if |cs| > 1 {
      var rest := cs[1..];
      assert forall k :: 0 < k < |rest| ==> rest[k - 1] == cs[k];
      NobodyStarves(rest, waiting);
    }
  }
}
