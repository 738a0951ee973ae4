/** Division facts for variable divisors. */
module Arith {

  lemma {:induction false} MulNonneg(a: int, b: int)
    requires a >= 0 && b >= 0
    ensures a * b >= 0
  {
  }

  lemma {:induction false} MulStrict(q: int, k: int, d: int)
    requires d > 0 && q < k
    ensures q * d + d <= k * d
  {
    MulNonneg(k - q - 1, d);
    assert (k - q - 1) * d == k * d - q * d - d;
  }

  /** Multiplying by a positive number keeps the order. */
  lemma {:induction false} MulOrder(q: int, k: int, d: int)
    requires d > 0
    ensures q < k <==> q * d < k * d
  {
    if q < k {
      MulStrict(q, k, d);
    } else if k < q {
      MulStrict(k, q, d);
    }
  }

  lemma {:induction false} DivModUnique(a: int, q: int, r: int, d: int)
    requires d > 0 && a == q * d + r && 0 <= r < d
    ensures a / d == q && a % d == r
  {
    var (k, m) := (a / d, a % d);
    assert a == k * d + m;
    assert (k - q) * d == r - m;
    MulOrder(k - q, 1, d);
    MulOrder(-1, k - q, d);
  }
}
