/** `java.math.BigDecimal` as a scaled integer: the value of `Dec(u, s)` is
    u / 10^s. Only the operations the core uses are modelled: comparison
    with zero and division rounded HALF_UP to a fixed scale. */
module Decimal {

  datatype Dec = Dec(unscaled: int, scale: int)

  function Pow10(n: nat): (r: nat)
    ensures r >= 1
  {
    if n == 0 then 1 else 10 * Pow10(n - 1)
  }

  /** `x.compareTo(BigDecimal.ZERO) > 0`. */
  predicate IsPositive(x: Dec) {
    x.unscaled > 0
  }

  function Abs(n: int): nat {
    if n < 0 then -n else n
  }

  /** The integer nearest to n / d, ties away from zero (`RoundingMode.HALF_UP`). */
  function RoundHalfUp(n: int, d: int): (q: int)
    requires d != 0
  {
    var m := (2 * Abs(n) + Abs(d)) / (2 * Abs(d));
    if (n < 0) != (d < 0) then -m else m
  }

  /** The rounded quotient is within half a unit of the exact one:
      |q - n/d| <= 1/2, written without division. */
  lemma RoundHalfUpBound(n: int, d: int)
    requires d != 0
    ensures Abs(2 * RoundHalfUp(n, d) * d - 2 * n) <= Abs(d)
  {
    var a: int, b: int := Abs(n), Abs(d);
    var m: int := (2 * a + b) / (2 * b);
    HalfUpOfMagnitudes(a, b);
    var q := RoundHalfUp(n, d);
    var mb := m * b;
    var qd := SignedProduct(q, d, m, b, (n < 0) != (d < 0));
    assert qd == (if n < 0 then -mb else mb);
    assert 2 * q * d == 2 * qd;
    BoundFromProduct(qd, n, mb, a, b);
  }

  /** q * d, for q = ±m and d = ±b, where the signs differ exactly when
      `flip` holds. */
  lemma SignedProduct(q: int, d: int, m: int, b: int, flip: bool) returns (qd: int)
    requires b > 0 && (d == b || d == -b)
    requires q == (if flip then -m else m)
    ensures qd == q * d
    ensures qd == (if flip != (d < 0) then -(m * b) else m * b)
  {
    NegMul(m, b);
    qd := q * d;
  }

  lemma BoundFromProduct(qd: int, n: int, mb: int, a: int, b: int)
    requires -b <= 2 * mb - 2 * a <= b
    requires (n >= 0 && qd == mb && n == a) || (n < 0 && qd == -mb && n == -a)
    ensures Abs(2 * qd - 2 * n) <= b
  {
  }

  /** The rounding on magnitudes: 2mb - 2a lies in (-b, b]. */
  lemma HalfUpOfMagnitudes(a: int, b: int)
    requires a >= 0 && b > 0
    ensures var m := (2 * a + b) / (2 * b); -b <= 2 * (m * b) - 2 * a <= b
  {
    var x, D := 2 * a + b, 2 * b;
    var m, r := x / D, x % D;
    assert x == m * D + r && 0 <= r < D;
    assert m * D == 2 * (m * b);
  }

  lemma NegMul(x: int, y: int)
    ensures (-x) * y == -(x * y) && x * (-y) == -(x * y) && (-x) * (-y) == x * y
  {
  }

  lemma DivBetween(x: int, m: int, q: int)
    requires m > 0 && q * m <= x < q * m + m
    ensures x / m == q
  {
    var r := x / m;
    assert x == r * m + x % m && 0 <= x % m < m;
    if r > q {
      MulAtLeast(r - q, m);
    } else if r < q {
      MulAtLeast(q - r, m);
    }
  }

  lemma MulAtLeast(k: int, m: int)
    requires k >= 1 && m > 0
    ensures k * m >= m
  {
    assert k * m == m + (k - 1) * m;
  }

  lemma AbsProduct(k: int, d: int)
    ensures Abs(k * d) == Abs(k) * Abs(d)
  {
    if k < 0 && d < 0 {
      assert k * d == (-k) * (-d);
    } else if k < 0 {
      assert -(k * d) == (-k) * d;
    } else if d < 0 {
      assert -(k * d) == k * (-d);
    }
  }

  /** An exact quotient is not changed by rounding. */
  lemma RoundHalfUpExact(k: int, d: int)
    requires d != 0
    ensures RoundHalfUp(k * d, d) == k
  {
    var n := k * d;
    var m := QuotientOfExact(k, d);
    MulSign(k, d);
    assert m == (2 * Abs(n) + Abs(d)) / (2 * Abs(d));
    ExactFromSigns(k, d, n, m);
  }

  /** The magnitude step of rounding an exact product: the result is |k|. */
  lemma QuotientOfExact(k: int, d: int) returns (m: int)
    requires d != 0
    ensures m == Abs(k) && m == (2 * Abs(k * d) + Abs(d)) / (2 * Abs(d))
  {
    var K, B := Abs(k), Abs(d);
    AbsProduct(k, d);
    assert 2 * (K * B) + B == K * (2 * B) + B;
    DivBetween(2 * (K * B) + B, 2 * B, K);
    m := K;
  }

  lemma ExactFromSigns(k: int, d: int, n: int, m: int)
    requires d != 0 && m == Abs(k)
    requires k > 0 ==> (n < 0 <==> d < 0)
    requires k < 0 ==> (n < 0 <==> d > 0)
    requires k == 0 ==> n == 0
    ensures (if (n < 0) != (d < 0) then -m else m) == k
  {
  }

  lemma MulSign(x: int, y: int)
    ensures x > 0 && y > 0 ==> x * y > 0
    ensures x < 0 && y < 0 ==> x * y > 0
    ensures x < 0 && y > 0 ==> x * y < 0
    ensures x > 0 && y < 0 ==> x * y < 0
    ensures x == 0 ==> x * y == 0
  {
    if x < 0 && y < 0 {
      NegMul(x, y);
      MulAtLeast(-x, -y);
    } else if x < 0 && y > 0 {
      NegMul(x, y);
      MulAtLeast(-x, y);
    } else if x > 0 && y < 0 {
      NegMul(x, y);
      MulAtLeast(x, -y);
    } else if x > 0 && y > 0 {
      MulAtLeast(x, y);
    }
  }

  /** A tie is rounded away from zero: when |n / d| is exactly k + 1/2,
      the result is k + 1 with the sign of the quotient. */
  lemma RoundHalfUpTie(n: int, d: int, k: nat)
    requires d != 0 && 2 * Abs(n) == (2 * k + 1) * Abs(d)
    ensures RoundHalfUp(n, d) == if (n < 0) != (d < 0) then -(k + 1) else k + 1
  {
    assert 2 * Abs(n) + Abs(d) == (k + 1) * (2 * Abs(d));
    DivBetween((k + 1) * (2 * Abs(d)), 2 * Abs(d), k + 1);
  }

  /** `a.divide(b, scale, RoundingMode.HALF_UP)`: the quotient a / b rounded
      to `scale` decimal places. With a = ua/10^sa and b = ub/10^sb, the result
      in units of 10^-scale is ua * 10^(sb - sa + scale) / ub, rounded. */
  function Divide(a: Dec, b: Dec, scale: int): (r: Dec)
    requires b.unscaled != 0
    ensures r.scale == scale
  {
    var e := b.scale - a.scale + scale;
    var n := if e >= 0 then a.unscaled * Pow10(e) else a.unscaled;
    var d := if e >= 0 then b.unscaled else b.unscaled * Pow10(-e);
    Dec(RoundHalfUp(n, d), scale)
  }

  /** The numerator and denominator `Divide` rounds, as the exact fraction
      (a / b) * 10^scale. */
  function QuotientFraction(a: Dec, b: Dec, scale: int): (int, int)
    requires b.unscaled != 0
  {
    var e := b.scale - a.scale + scale;
    if e >= 0 then (a.unscaled * Pow10(e), b.unscaled) else (a.unscaled, b.unscaled * Pow10(-e))
  }

  /** The rounded quotient differs from the exact one by at most half a unit
      in the last place: 0.0005 at scale 3. */
  lemma DivideWithinHalfUnit(a: Dec, b: Dec, scale: int)
    requires b.unscaled != 0
    ensures var (n, d) := QuotientFraction(a, b, scale);
      d != 0 && Abs(2 * Divide(a, b, scale).unscaled * d - 2 * n) <= Abs(d)
  {
    var (n, d) := QuotientFraction(a, b, scale);
    var e := b.scale - a.scale + scale;
    if e < 0 {
      assert d == b.unscaled * Pow10(-e);
    }
    RoundHalfUpBound(n, d);
  }
}
