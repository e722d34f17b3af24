/** Small facts about real multiplication, division and floor that the
    solver does not find on its own; used by the colour-space and remapping
    proofs. Each lemma takes one step, with the products as parameters. */
module RealArith {

  /** `abs` on a float. */
  function Abs(x: real): (y: real)
    ensures y >= 0.0 && (y == x || y == -x)
  {
    if x < 0.0 then -x else x
  }

  /** numpy's `sign` on a float: −1, 0 or 1. */
  function Sign(x: real): (y: real)
    ensures x > 0.0 <==> y == 1.0
    ensures x < 0.0 <==> y == -1.0
    ensures x == 0.0 <==> y == 0.0
  {
    if x > 0.0 then 1.0 else if x < 0.0 then -1.0 else 0.0
  }

  lemma MulDistrib(k: real, m: real)
    ensures (k + 1.0) * m == k * m + m
  {}

  lemma MulStrictMono(a: real, b: real, m: real)
    requires a < b && m > 0.0
    ensures a * m < b * m
  {}

  lemma MulMono(a: real, b: real, m: real)
    requires a <= b && m >= 0.0
    ensures a * m <= b * m
  {}

  /** Bounds on a quotient from bounds on the dividend. */
  lemma QuotientBounds(a: real, d: real, lo: real, hi: real)
    requires d > 0.0
    requires lo * d <= a <= hi * d
    ensures lo <= a / d <= hi
  {
    var q := a / d;
    assert q * d == a;
    if q < lo { MulStrictMono(q, lo, d); }
    if q > hi { MulStrictMono(hi, q, d); }
  }

  lemma BelowNext(x: real, q: real, k: real, m: real)
    requires m > 0.0 && q < k + 1.0 && q * m == x
    ensures x < k * m + m
  {
    MulStrictMono(q, k + 1.0, m);
    MulDistrib(k, m);
  }

  lemma ScaleInterval(x: real, q: real, k: real, m: real)
    requires m > 0.0 && q * m == x
    requires k <= q < k + 1.0
    ensures k * m <= x < k * m + m
  {
    BelowNext(x, q, k, m);
    MulMono(k, q, m);
  }

  /** x lies in the m-wide interval starting at floor(x/m)·m. */
  lemma FloorBounds(x: real, m: real)
    ensures m > 0.0 ==> (x / m).Floor as real * m <= x < (x / m).Floor as real * m + m
  {
    if m > 0.0 {
      var k := (x / m).Floor as real;
      assert k <= x / m < k + 1.0;
      ScaleInterval(x, x / m, k, m);
    }
  }

  lemma QuotientInterval(x: real, m: real, k: real)
    requires m > 0.0
    requires k * m <= x < k * m + m
    ensures k <= x / m < k + 1.0
  {
    var q := x / m;
    assert q * m == x;
    if q < k { MulStrictMono(q, k, m); }
    if q >= k + 1.0 { MulMono(k + 1.0, q, m); MulDistrib(k, m); }
  }

  /** The floor of x/m is k exactly when x lies in [k·m, k·m + m). */
  lemma FloorOn(x: real, m: real, k: int)
    requires m > 0.0
    requires k as real * m <= x < k as real * m + m
    ensures (x / m).Floor == k
  {
    QuotientInterval(x, m, k as real);
  }

  lemma MulQuotient(x: real, d: real)
    requires d != 0.0
    ensures d * (x / d) == x
  {}

  lemma MulAtMost(m: real, a: real)
    requires 0.0 <= m && 0.0 <= a <= 1.0
    ensures 0.0 <= m * a <= m
  {
    MulMono(a, 1.0, m);
    MulMono(0.0, a, m);
  }

  lemma UnitTimes(a: real, m: real)
    requires 0.0 <= m && 0.0 <= a <= 1.0
    ensures 0.0 <= a * m <= m
  {
    MulMono(a, 1.0, m);
    MulMono(0.0, a, m);
  }

  lemma ProductQuotient(q: real, d: real)
    requires d != 0.0
    ensures (q * d) / d == q
  {}

  lemma SelfQuotient(d: real)
    requires d != 0.0
    ensures d / d == 1.0
  {}

  lemma MulNeg(d: real, t: real)
    ensures d * -t == -(d * t)
  {}

  /** A quotient of a non-negative dividend below the divisor lies in [0,1). */
  lemma UnitQuotient(a: real, d: real)
    requires 0.0 <= a < d
    ensures 0.0 <= a / d < 1.0
  {
    QuotientBounds(a, d, 0.0, 1.0);
    MulQuotient(a, d);
  }

  /** A quotient of a negative dividend no lower than −d lies in [−1,0). */
  lemma NegativeUnitQuotient(a: real, d: real)
    requires -d <= a < 0.0
    ensures -1.0 <= a / d < 0.0
  {
    QuotientBounds(a, d, -1.0, 0.0);
    MulQuotient(a, d);
  }
}
