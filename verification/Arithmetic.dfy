/** Laws of products, quotients and remainders of integers. */
module Arithmetic {
  function Min(x: int, y: int): int {
    if x < y then x else y
  }

  function Max(x: int, y: int): int {
    if x < y then y else x
  }

  function Abs(x: int): nat {
    if x < 0 then -x else x
  }

  function Quotient(n: nat, d: nat): nat
    requires 0 < d
  {
    QuotientBounds(n, d);
    n / d
  }

  function Remainder(n: nat, d: nat): (r: nat)
    requires 0 < d
    ensures r < d
  {
    n % d
  }

  lemma MulMonotone(x: int, y: int, d: int)
    requires x <= y && 0 <= d
    ensures x * d <= y * d
  {
    assert (y - x) * d >= 0;
  }

  lemma MulCancels(x: int, y: int, d: int)
    requires 0 < d && x * d < y * d
    ensures x < y
  {
    if y <= x { MulMonotone(y, x, d); }
  }

  lemma ProductBound(x: int, y: int, xMax: int, yMax: int)
    requires 0 <= x <= xMax && 0 <= y <= yMax
    ensures 0 <= x * y <= xMax * yMax
  {
    MulMonotone(0, x, y);
    MulMonotone(x, xMax, y);
    MulMonotone(y, yMax, xMax);
  }

  /** The quotient is the only number whose multiple leaves a proper remainder. */
  lemma QuotientUnique(x: int, d: int, q: int)
    requires 0 < d && q * d <= x < (q + 1) * d
    ensures x / d == q && x % d == x - q * d
  {
    assert x == x / d * d + x % d;
    MulCancels(x / d, q + 1, d);
    MulCancels(q, x / d + 1, d);
  }

  lemma QuotientRemainder(n: nat, d: nat)
    requires 0 < d
    ensures Quotient(n, d) * d + Remainder(n, d) == n
  {}

  lemma QuotientBounds(x: int, d: int)
    requires 0 < d
    ensures x / d * d <= x < (x / d + 1) * d
    ensures 0 <= x ==> 0 <= x / d
  {
    assert x == x / d * d + x % d;
    if 0 <= x { MulCancels(-1, x / d, d); }
  }
}
