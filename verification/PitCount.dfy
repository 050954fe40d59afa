/** The counts a counter is given. */
module PitCount {

  /** What a written zero stands for. */
  const FULL: int := 0x10000

  function Initial(l: nat): (n: nat)
    ensures n > 0
  {
    if l == 0 then FULL else l
  }
}
