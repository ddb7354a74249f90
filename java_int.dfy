/** Java's integer operators, written out over Dafny's unbounded integers. */
module JavaInt {

  function Min(a: int, b: int): int { if a <= b then a else b }

  function Max(a: int, b: int): int { if a >= b then a else b }

  function Abs(a: int): int { if a < 0 then -a else a }

  /** Java's `a / b` on `int`: the quotient truncated toward zero (Dafny's `/` is Euclidean). */
  function JavaDiv(a: int, b: int): int
    requires b != 0
  {
    if b > 0 then
      if a >= 0 then a / b else -((-a) / b)
    else
      if a >= 0 then -(a / -b) else (-a) / (-b)
  }

  /** Halving by truncation and by Euclidean division agree on non-negative values. */
  lemma JavaHalfOfNat(a: int)
    requires a >= 0
    ensures JavaDiv(a, 2) == a / 2
  {
  }

  /** Truncating division by a positive divisor leaves a remainder of the dividend's sign, smaller than the divisor. */
  lemma JavaDivBounds(a: int, b: int)
    requires b > 0
    ensures a >= 0 ==> JavaDiv(a, b) * b <= a < JavaDiv(a, b) * b + b
    ensures a < 0 ==> JavaDiv(a, b) * b - b < a <= JavaDiv(a, b) * b
  {
    if a >= 0 {
      assert a == (a / b) * b + a % b;
    } else {
      var q, m := (-a) / b, (-a) % b;
      assert -a == q * b + m;
      assert JavaDiv(a, b) == -q;
      assert JavaDiv(a, b) * b == -(q * b);
    }
  }

  /** A product of two non-negative factors is non-negative. */
  lemma MulNonNegative(x: int, y: int)
    requires x >= 0 && y >= 0
    ensures x * y >= 0
  {
  }

  /** The only multiple of a positive b strictly between -b and b is 0. */
  lemma OnlySmallMultipleIsZero(d: int, b: int)
    requires b > 0 && -b < d * b < b
    ensures d == 0
  {
    if d > 0 {
      MulNonNegative(d - 1, b);
      assert false;
    } else if d < 0 {
      MulNonNegative(-d - 1, b);
      assert false;
    }
  }

  /** Truncating division of an exact multiple gives the multiplier back, whatever its sign. */
  lemma JavaDivExact(k: int, b: int)
    requires b > 0
    ensures JavaDiv(k * b, b) == k
  {
    JavaDivBounds(k * b, b);
    var q := JavaDiv(k * b, b);
    assert (q - k) * b == q * b - k * b;
    OnlySmallMultipleIsZero(q - k, b);
  }
}
