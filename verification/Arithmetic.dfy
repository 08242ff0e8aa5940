/** Quotients and remainders. */
module Arithmetic {

  lemma {:induction false} MultipleInRange(d: int, m: int)
    requires m > 0 && -m < d * m < m
    ensures d == 0
  {
  }

  lemma {:induction false} DivModUnique(m: int, q: int, r: int, k: int, s: int)
    requires m > 0 && q * m + r == k * m + s && 0 <= r < m && 0 <= s < m
    ensures q == k && r == s
  {
    assert (q - k) * m == s - r;
    MultipleInRange(q - k, m);
  }

  lemma {:induction false} ModIs(x: int, m: int, k: int, r: int)
    requires m > 0 && x == k * m + r && 0 <= r < m
    ensures x % m == r && x / m == k
  {
    DivModUnique(m, x / m, x % m, k, r);
  }
}
