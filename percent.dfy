/** The rounded attendance percentage shown on the subject card, in the
    chart and on the dashboard: `whole > 0 ? Math.round((part / whole) * 100) : 0`.
    JavaScript numbers are modelled as exact reals and integers. */
module Percent {

  /** JavaScript's `Math.round`: the integer nearest to `x`, halves going up. */
  function Round(x: real): (r: int)
    ensures r as real - 0.5 <= x < r as real + 0.5
  {
    (x + 0.5).Floor
  }

  /** JavaScript's `Math.ceil`, through the floor: the least integer at or
      above `x`. */
  function Ceil(x: real): (r: int)
    ensures x <= r as real < x + 1.0
  {
    -((-x).Floor)
  }

  lemma CancelPositive(d: int, a: int, b: int)
    requires d > 0 && d * a < d * b
    ensures a < b
  {
  }

  lemma CancelNonZero(a: real, b: real, c: real)
    requires c != 0.0 && a * c == b * c
    ensures a == b
  {
  }

  /** The floor of an exact ratio of integers is their integer quotient. */
  lemma FloorOfRatio(n: int, d: int)
    requires d > 0
    ensures (n as real / d as real).Floor == n / d
  {
    var q, m := n / d, n % d;
    assert n == d * q + m;
    assert (d * q) as real == d as real * q as real;
    assert n as real / d as real == q as real + m as real / d as real;
    assert 0.0 <= m as real / d as real < 1.0;
  }

  /** Rounding `part / whole * 100` is integer division of `200 * part + whole`
      by `2 * whole`. */
  lemma RoundedRatioIsIntegerDivision(part: int, whole: int)
    requires whole > 0
    ensures Round((part as real / whole as real) * 100.0) == (200 * part + whole) / (2 * whole)
  {
    var n, d := 200 * part + whole, 2 * whole;
    var p, w := part as real, whole as real;
    var x := (p / w) * 100.0 + 0.5;
    assert (p / w) * w == p;
    assert x * (2.0 * w) == 200.0 * p + w;
    assert (n as real / d as real) * (2.0 * w) == 200.0 * p + w;
    CancelNonZero(x, n as real / d as real, 2.0 * w);
    FloorOfRatio(n, d);
  }

  lemma MultiplySum(x: int, y: int, q: int)
    ensures (x + y) * q == x * q + y * q
  {
  }

  /** A lower bound on a quotient: `d * q <= n` gives `q <= n / d`. */
  lemma QuotientFloor(n: int, d: int, q: int)
    requires d > 0 && d * q <= n
    ensures q <= n / d
  {
    var k := n / d;
    assert n < d * k + d;
    CancelPositive(d, q, k + 1);
  }

  /** A quotient `n / d` with `0 <= n < d * (k + 1)` lies in `[0, k]`. */
  lemma QuotientBounds(n: int, d: int, k: int)
    requires d > 0 && 0 <= n < d * (k + 1)
    ensures 0 <= n / d <= k
  {
    var q := n / d;
    assert d * q <= n;
    CancelPositive(d, q, k + 1);
  }

  lemma MultiplyMonotone(d: int, x: int, y: int)
    requires d >= 0 && x <= y
    ensures d * x <= d * y
  {
    assert d * y - d * x == d * (y - x);
  }

  /** An integer quotient is below `k` exactly when the dividend is below
      `d * k`. */
  lemma QuotientBelow(n: int, d: int, k: int)
    requires d > 0
    ensures n / d < k <==> n < d * k
  {
    var q := n / d;
    assert d * q <= n < d * q + d;
    if q < k {
      MultiplyMonotone(d, q + 1, k);
      assert d * (q + 1) == d * q + d;
    } else {
      MultiplyMonotone(d, k, q);
    }
  }

  lemma PercentInRange(part: int, whole: int)
    requires whole > 0
    ensures 0 <= part <= whole ==> 0 <= (200 * part + whole) / (2 * whole) <= 100
  {
    if 0 <= part <= whole {
      QuotientBounds(200 * part + whole, 2 * whole, 100);
    }
  }

  /** One more class held and attended does not lower the rounded quotient
      while `part <= whole`. */
  lemma QuotientGrowsWithPresent(part: nat, whole: nat)
    requires 0 < whole && part <= whole
    ensures (200 * part + whole) / (2 * whole) <= (200 * (part + 1) + whole + 1) / (2 * whole + 2)
  {
    var n0, d0 := 200 * part + whole, 2 * whole;
    var n1, d1 := n0 + 201, d0 + 2;
    var q := n0 / d0;
    assert d0 * q <= n0;
    QuotientBounds(n0, d0, 100);
    MultiplySum(d0, 2, q);
    assert d1 * q <= n1;
    QuotientFloor(n1, d1, q);
  }

  /** One more class held but missed does not raise the rounded quotient. */
  lemma QuotientShrinksWithAbsent(part: nat, whole: nat)
    requires 0 < whole
    ensures (200 * part + whole + 1) / (2 * whole + 2) <= (200 * part + whole) / (2 * whole)
  {
    var n0, d0 := 200 * part + whole, 2 * whole;
    var n1, d1 := n0 + 1, d0 + 2;
    var q := n1 / d1;
    assert n1 == d1 * q + n1 % d1 && 0 <= n1 % d1 < d1;
    assert d1 * q <= n1;
    assert q >= 0;
    MultiplySum(d0, 2, q);
    assert d0 * q <= n0;
    QuotientFloor(n0, d0, q);
  }

  function RoundedPercent(part: int, whole: int): (r: int)
    ensures whole <= 0 ==> r == 0
    ensures whole > 0 ==> r == (200 * part + whole) / (2 * whole)
    ensures 0 <= part <= whole ==> 0 <= r <= 100
  {
    if whole > 0 then
      RoundedRatioIsIntegerDivision(part, whole);
      PercentInRange(part, whole);
      Round((part as real / whole as real) * 100.0)
    else
      0
  }
}
