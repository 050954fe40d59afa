/** Asserting and releasing interrupt lines: edge requests, and lines shared by several
    sources, which the chips count. */
module PicLines {
  import opened Pic

  type LineNo = x: nat | x < 16

  const WORD: nat := 0x1_0000_0000

  function MasterLines(num: set<LineNo>): set<Level> {
    set j: Level | 0 <= j < 8 && j in num
  }

  function SlaveLine(j: Level): LineNo {
    j + 8
  }

  function SlaveLines(num: set<LineNo>): set<Level> {
    set j: Level | 0 <= j < 8 && SlaveLine(j) in num
  }

  /** Lines that are taken by slaves are ignored, except that line 2 stands for 9. */
  function Translated(m: Chip, num: set<LineNo>): set<LineNo> {
    (set i: LineNo | i in num && !(i < 8 && i in Bits(m.icw3)))
      + if 2 in num && 2 in Bits(m.icw3) then {9} else {}
  }

  /** The lines of a set with numbers below n. */
  function Below(num: set<LineNo>, n: nat): set<LineNo> {
    set i: LineNo | i in num && i < n
  }

  /** Without slaves there are only eight lines. */
  function Reachable(m: Chip, num: set<LineNo>): set<LineNo> {
    if Bits(m.icw3) == {} then Below(num, 8) else num
  }

  function EdgeLines(p: Pair, num: set<LineNo>): set<LineNo> {
    Reachable(p.master, Translated(p.master, num))
  }

  function WithRequests(p: Pair, num: set<LineNo>, raise: bool): Pair {
    var m, s := p.master, p.slave;
    if raise
    then p.(master := m.(irr := m.irr + MasterLines(num)), slave := s.(irr := s.irr + SlaveLines(num)))
    else p.(master := m.(irr := m.irr - MasterLines(num)), slave := s.(irr := s.irr - SlaveLines(num)))
  }

  function SetRequests(p: Pair, num: set<LineNo>, raise: bool): Pair {
    UpdatePending(WithRequests(p, num, raise))
  }

  /** picint and picintc. */
  function Edge(p: Pair, num: set<LineNo>, raise: bool): Pair {
    if EdgeLines(p, num) == {} then p else SetRequests(p, EdgeLines(p, num), raise)
  }

  function StepCount(n: nat, raise: bool): nat {
    if raise then (n + 1) % WORD else (n + WORD - 1) % WORD
  }

  /** 32-bit counters one up or one down. */
  function Stepped(lines: seq<nat>, at: set<Level>, raise: bool): (r: seq<nat>)
    ensures |r| == |lines|
  {
    seq(|lines|, j requires 0 <= j < |lines| =>
      if j < 8 && j in at then StepCount(lines[j], raise) else lines[j])
  }

  function Counted(p: Pair, num: set<LineNo>, raise: bool): Pair {
    p.(master := p.master.(lines := Stepped(p.master.lines, MasterLines(num), raise)),
       slave := p.slave.(lines := Stepped(p.slave.lines, SlaveLines(num), raise)))
  }

  function SideOf(i: LineNo): Side {
    if i < 8 then Master else Slave
  }

  function LevelOf(i: LineNo): Level {
    i % 8
  }

  /** Line i's counter. */
  function Counter(p: Pair, i: LineNo): nat
    requires Wired(p)
  {
    p.Get(SideOf(i)).lines[LevelOf(i)]
  }

  predicate IsLevel(p: Pair, i: LineNo) {
    LevelTriggered(p, SideOf(i), LevelOf(i))
  }

  predicate Asking(p: Pair, i: LineNo) {
    LevelOf(i) in p.Get(SideOf(i)).irr
  }

  /** The lines whose request bit follows: every edge-triggered one, and a
      level-triggered one when its first source asserts or its last releases it. */
  function Effective(p: Pair, reach: set<LineNo>, raise: bool, changed: bool): set<LineNo>
    requires Wired(p)
  {
    set i: LineNo | i in reach && (!IsLevel(p, i) || (changed && Counter(p, i) == if raise then 1 else 0))
  }

  /** picintlevel and picintclevel for a source that was asserting or not: the pair,
      and whether the source asserts afterwards. */
  function Shared(p: Pair, num: set<LineNo>, raise: bool, asserting: bool): (Pair, bool)
    requires Wired(p)
  {
    if Translated(p.master, num) == {} then (p, asserting) else
      var reach := EdgeLines(p, num);
      var q := if asserting != raise then Counted(p, reach, raise) else p;
      var on := Effective(q, reach, raise, asserting != raise);
      (if on == {} then q else SetRequests(q, on, raise), raise)
  }

  // ---- One line at a time ----

  /** One counter up or down. */
  function StepOne(p: Pair, i: LineNo, raise: bool): Pair
    requires Wired(p)
  {
    var c := p.Get(SideOf(i));
    var n := c.lines[LevelOf(i)];
    p.Put(SideOf(i), c.(lines := c.lines[LevelOf(i) := StepCount(n, raise)]))
  }

  lemma CountedNone(p: Pair, raise: bool)
    requires Wired(p)
    ensures Counted(p, {}, raise) == p
  {
    assert Stepped(p.master.lines, MasterLines({}), raise) == p.master.lines;
    assert Stepped(p.slave.lines, SlaveLines({}), raise) == p.slave.lines;
  }

  lemma CountedOneMore(p: Pair, num: set<LineNo>, i: LineNo, raise: bool)
    requires Wired(p)
    ensures Wired(Counted(p, Below(num, i), raise))
    ensures Counted(p, Below(num, i + 1), raise) ==
      if i in num then StepOne(Counted(p, Below(num, i), raise), i, raise) else Counted(p, Below(num, i), raise)
  {
    hide MasterLines, SlaveLines, Below, Stepped;
    if i < 8 { MasterSteps(p, num, i, raise); } else { SlaveSteps(p, num, i, raise); }
  }

  lemma MasterSteps(p: Pair, num: set<LineNo>, i: LineNo, raise: bool)
    requires Wired(p) && i < 8
    ensures SlaveLines(Below(num, i + 1)) == SlaveLines(Below(num, i))
    ensures var c := Stepped(p.master.lines, MasterLines(Below(num, i)), raise);
      && |c| == 8
      && Stepped(p.master.lines, MasterLines(Below(num, i + 1)), raise)
           == if i in num then c[i := StepCount(c[i], raise)] else c
  {
  }

  lemma SlaveSteps(p: Pair, num: set<LineNo>, i: LineNo, raise: bool)
    requires Wired(p) && i >= 8
    ensures MasterLines(Below(num, i + 1)) == MasterLines(Below(num, i))
    ensures var c := Stepped(p.slave.lines, SlaveLines(Below(num, i)), raise);
      && |c| == 8
      && Stepped(p.slave.lines, SlaveLines(Below(num, i + 1)), raise)
           == if i in num then c[i - 8 := StepCount(c[i - 8], raise)] else c
  {
  }

  lemma CountNothing(p: Pair, num: set<LineNo>, raise: bool, changed: bool)
    requires Wired(p)
    ensures Counted(p, Below(num, 0), raise) == p && Effective(p, Below(num, 0), raise, changed) == {}
  {
    assert Below(num, 0) == {};
    CountedNone(p, raise);
  }

  /** Whether line i's request bit follows, once its counter has moved. */
  predicate Follows(p: Pair, i: LineNo, raise: bool, changed: bool)
    requires Wired(p)
  {
    !IsLevel(p, i) || (changed && Counter(p, i) == if raise then 1 else 0)
  }

  lemma EffectiveOneMore(p: Pair, q: Pair, num: set<LineNo>, i: LineNo, raise: bool, changed: bool)
    requires Wired(p) && (q == p || q == StepOne(p, i, raise))
    ensures Wired(q)
    ensures Effective(q, Below(num, i + 1), raise, changed) ==
      Effective(p, Below(num, i), raise, changed) + if i in num && Follows(q, i, raise, changed) then {i} else {}
  {
    forall x: LineNo | x != i ensures Counter(q, x) == Counter(p, x) && IsLevel(q, x) == IsLevel(p, x) {
      assert SideOf(x) == SideOf(i) ==> LevelOf(x) != LevelOf(i);
    }
    hide Counter, IsLevel, StepOne;
  }
}
