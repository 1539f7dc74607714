/** C++ integer division and remainder on `int`, which truncate toward zero.
    Dafny's own `/` and `%` are Euclidean, so the two agree only on
    non-negative operands; the source divides and takes remainders of
    values that may be negative. */
module CInt {

  /** `a / b` as C++ evaluates it for a positive divisor. */
  function TruncDiv(a: int, b: int): (q: int)
    requires b > 0
    ensures a >= 0 ==> 0 <= q && q * b <= a < (q + 1) * b
    ensures a < 0 ==> q <= 0 && (q - 1) * b < a <= q * b
  {
    if a >= 0 then DivBounds(a, b); a / b else DivBounds(-a, b); -((-a) / b)
  }

  /** Euclidean and truncating division agree on a non-negative dividend:
      the quotient is the largest multiple of b not above n. */
  lemma DivBounds(n: int, b: int)
    requires n >= 0 && b > 0
    ensures 0 <= n / b && (n / b) * b <= n < (n / b + 1) * b
  {
    assert n == (n / b) * b + n % b;
  }

  /** `a % b` as C++ evaluates it for a positive divisor: the remainder takes
      the sign of the dividend. */
  function TruncRem(a: int, b: int): (r: int)
    requires b > 0
    ensures a == TruncDiv(a, b) * b + r
    ensures a >= 0 ==> 0 <= r < b
    ensures a < 0 ==> -b < r <= 0
  {
    if a >= 0 then a % b else -((-a) % b)
  }
}
