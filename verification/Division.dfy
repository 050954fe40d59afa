/** Quotients and remainders, one step at a time. */
module Division {

  /** Whole periods of n ticks in t, and the ticks left over. */
  function Periods(t: nat, n: nat): nat
    requires n > 0
  {
    t / n
  }

  function Phase(t: nat, n: nat): nat
    requires n > 0
  {
    t % n
  }

  lemma PhaseAtStart(n: nat)
    requires n > 0
    ensures Periods(0, n) == 0 && Phase(0, n) == 0
  {
    ModUnique(0, 0, 0, n);
  }

  lemma PhaseNext(t: nat, n: nat)
    requires n > 0
    ensures Phase(t, n) < n
    ensures if Phase(t, n) == n - 1 then Periods(t + 1, n) == Periods(t, n) + 1 && Phase(t + 1, n) == 0
            else Periods(t + 1, n) == Periods(t, n) && Phase(t + 1, n) == Phase(t, n) + 1
  {
    var q, r := t / n, t % n;
    assert t == q * n + r;
    if r == n - 1 {
      assert t + 1 == (q + 1) * n + 0 by { assert (q + 1) * n == q * n + n; }
      ModUnique(t + 1, q + 1, 0, n);
    } else {
      ModUnique(t + 1, q, r + 1, n);
    }
  }

  lemma ModShift(x: int, k: int, m: nat)
    requires m > 0
    ensures (x + k * m) % m == x % m
  {
    var q, r := x / m, x % m;
    assert x + k * m == (q + k) * m + r;
    ModUnique(x + k * m, q + k, r, m);
  }

  lemma ModUnique(x: int, q: int, r: int, m: nat)
    requires m > 0 && x == q * m + r && 0 <= r < m
    ensures x % m == r && x / m == q
  {
    SameQuotient(q, r, x / m, x % m, m);
  }

  lemma SameQuotient(q: int, r: int, p: int, s: int, m: int)
    requires m > 0 && 0 <= r < m && 0 <= s < m && q * m + r == p * m + s
    ensures q == p && r == s
  {
    assert (q - p) * m == s - r;
    if q > p { MultipleAtLeast(q - p, m); }
    if q < p { MultipleAtLeast(p - q, m); }
  }

  lemma MultipleAtLeast(k: int, m: int)
    requires k >= 1 && m > 0
    ensures k * m >= m
  {
  }

  lemma MulLe(a: nat, b: nat, u: nat)
    requires a <= b
    ensures a * u <= b * u
  {
    assert b * u - a * u == (b - a) * u;
  }
}
