/** Division with remainder, for addresses cut into pages, chunks and stripes. */
module Arithmetic {

  /** Quotient and remainder are determined by their defining equation. */
  lemma DivModOf(x: int, m: int, q: int, r: int)
    requires x == q * m + r && 0 <= r < m
    ensures x / m == q && x % m == r
  {
    var d: int := q - x / m;
    assert m * d == x % m - r;
    assert d >= 1 ==> m * d >= m;
    assert d <= -1 ==> m * d <= -m;
  }

  lemma {:induction false} MulMonotone(a: nat, b: nat, m: nat)
    requires a < b
    ensures a * m + m <= b * m
  {
    if a < b - 1 { MulMonotone(a, b - 1, m); }
    assert b * m == (b - 1) * m + m;
  }

  lemma {:induction false} MulNonNegative(a: nat, m: nat)
    ensures a * m >= 0
  {
    if a > 0 {
      MulNonNegative(a - 1, m);
      assert a * m == (a - 1) * m + m;
    }
  }
}
