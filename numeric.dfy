/** Rust's integer and float-to-integer operations, spelled out on unbounded numbers. */
module Numeric {

  const I64_MIN: int := -0x8000_0000_0000_0000
  const I64_MAX: int := 0x7FFF_FFFF_FFFF_FFFF

  /** Rust's `%` on integers: the remainder of division truncated toward zero, which
      takes the sign of the dividend (Dafny's `%` is Euclidean). */
  function TruncRem(a: int, b: int): (r: int)
    requires b > 0
    ensures -b < r < b
    ensures a >= 0 ==> 0 <= r
    ensures a <= 0 ==> r <= 0
    ensures (a - r) % b == 0
  {
    if a >= 0 then DivMod(a, b); a % b
    else DivMod(-a, b); -((-a) % b)
  }

  /** The part a remainder leaves out is a multiple of the divisor, on either side. */
  lemma {:induction false} DivMod(x: int, b: int)
    requires b > 0
    ensures (x - x % b) % b == 0 && (x % b - x) % b == 0
  {
    var q := x / b;
    assert x - x % b == q * b;
    MultipleMod(q, b);
    assert x % b - x == (-q) * b;
    MultipleMod(-q, b);
  }

  lemma {:induction false} MulAtLeast(d: int, b: int)
    requires d >= 1 && b > 0
    ensures d * b >= b
  {
  }

  /** A multiple of a positive divisor leaves no remainder. */
  lemma {:induction false} MultipleMod(k: int, b: int)
    requires b > 0
    ensures (k * b) % b == 0
  {
    var q := (k * b) / b;
    assert (k - q) * b == (k * b) % b;
    if k - q >= 1 { MulAtLeast(k - q, b); }
    else if k - q <= -1 { MulAtLeast(q - k, b); }
  }

  /** The truncating remainder is odd in the dividend, unlike the Euclidean one. */
  lemma {:induction false} TruncRemOdd(a: int, b: int)
    requires b > 0
    ensures TruncRem(-a, b) == -TruncRem(a, b)
  {
  }

  /** Rounding toward zero. */
  function Trunc(x: real): (r: int)
    ensures x >= 0.0 ==> r as real <= x < r as real + 1.0
    ensures x <= 0.0 ==> r as real - 1.0 < x <= r as real
  {
    if x >= 0.0 then x.Floor else -((-x).Floor)
  }

  /** `x as i64` for a float: truncation toward zero, saturating at the ends of the
      i64 range. */
  function CastI64(x: real): (r: int)
    ensures I64_MIN <= r <= I64_MAX
    ensures I64_MIN as real <= x <= I64_MAX as real ==> r == Trunc(x)
    ensures x >= I64_MAX as real ==> r == I64_MAX
    ensures x <= I64_MIN as real ==> r == I64_MIN
  {
    if x >= I64_MAX as real + 1.0 then I64_MAX
    else if x <= I64_MIN as real then I64_MIN
    else Trunc(x)
  }

  /** `(k as f64 / m) as i64`, including the division by zero, which gives an infinity
      (saturated by the cast) or NaN (cast to 0). */
  function CastQuotient(k: int, m: real): (r: int)
    ensures I64_MIN <= r <= I64_MAX
    ensures m == 0.0 ==> (r == 0 <==> k == 0)
  {
    if m == 0.0 then (if k > 0 then I64_MAX else if k < 0 then I64_MIN else 0)
    else CastI64(k as real / m)
  }

  /** `f64::min` on numbers. */
  function Min(a: real, b: real): (r: real)
    ensures r <= a && r <= b && (r == a || r == b)
  {
    if a <= b then a else b
  }

  function Pow2(n: nat): (r: nat)
    ensures r >= 1
  {
    if n == 0 then 1 else 2 * Pow2(n - 1)
  }

  /** Integer arithmetic on i64 as a release build performs it: the result is wrapped
      into the i64 range modulo 2^64 (a debug build panics instead). */
  function WrapI64(x: int): (r: int)
    ensures I64_MIN <= r <= I64_MAX
    ensures I64_MIN <= x <= I64_MAX ==> r == x
    ensures (r - x) % 0x1_0000_0000_0000_0000 == 0
  {
    (x - I64_MIN) % 0x1_0000_0000_0000_0000 + I64_MIN
  }
}
