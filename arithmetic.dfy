/**
 * Facts about Euclidean division that the memory, process and scheduling models share.
 */
module Arithmetic {
  /** x = q*d + r with 0 <= r < d determines the quotient and the remainder. */
  lemma LemmaFundamentalDivMod(x: int, d: int, q: int, r: int)
    requires d > 0 && 0 <= r < d && x == q * d + r
    ensures x / d == q && x % d == r
  {
    var q', r' := x / d, x % d;
    assert (q' - q) * d == r - r' by {
      assert q' * d + r' == q * d + r;
    }
    if q' != q {
      MulAtLeast(q' - q, d);
    }
  }

  /** A non-zero multiple of d is at least d in absolute value. */
  lemma MulAtLeast(a: int, d: int)
    requires a != 0 && d > 0
    ensures a * d >= d || a * d <= -d
    decreases if a > 0 then a else -a
  {
    if a > 0 {
      assert a * d == (a - 1) * d + d;
      if a > 1 { MulAtLeast(a - 1, d); }
    } else {
      assert a * d == (a + 1) * d - d;
      if a < -1 { MulAtLeast(a + 1, d); }
    }
  }
}
