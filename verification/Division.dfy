/** Facts about quotients of integers. */
module Division {
  lemma TimesAtLeast(b: int, q: int)
    requires b > 0
    ensures q >= 1 ==> b * q >= q && b * q >= b
    ensures q <= -1 ==> b * q <= -b
  {
    if q >= 1 {
      assert (b - 1) * q >= 0 && b * (q - 1) >= 0;
    } else if q <= -1 {
      assert b * (-1 - q) >= 0;
    }
  }

  lemma QuotientBounds(a: nat, b: int)
    requires b > 0
    ensures 0 <= a / b <= a && b * (a / b) <= a < b * (a / b) + b
  {
    var q := a / b;
    assert a == b * q + a % b;
    TimesAtLeast(b, q);
  }

  lemma QuotientUnique(a: nat, b: int, q: int, r: int)
    requires b > 0 && a == b * q + r && 0 <= r < b
    ensures a / b == q && a % b == r
  {
    var p := a / b;
    assert a == b * p + a % b;
    assert b * (p - q) == r - a % b;
    TimesAtLeast(b, p - q);
  }

  lemma QuotientBelow(a: nat, b: int, m: int)
    requires b > 0 && a < b * (m + 1)
    ensures a / b <= m
  {
    var q := a / b;
    QuotientBounds(a, b);
    assert b * (q - m - 1) == b * q - b * (m + 1);
    TimesAtLeast(b, q - m);
    assert b * (q - m) == b * (q - m - 1) + b;
  }

  lemma QuotientMonotone(a: nat, c: nat, b: int)
    requires b > 0 && a <= c
    ensures a / b <= c / b
  {
    QuotientBounds(c, b);
    QuotientBelow(a, b, c / b);
  }

  lemma Product(x: int, y: int, z: int)
    ensures (x * y) * z == x * (y * z)
    ensures x * (y + z) == x * y + x * z && (y + z) * x == y * x + z * x
    ensures x >= 0 && y >= 0 ==> x * y >= 0
  {}

  /** Multiplying whole units and the remainder separately gives the same quotient. */
  lemma SplitQuotient(v: nat, a: nat, n: int)
    requires n > 0
    ensures v / n >= 0 && v % n >= 0 && (v % n) * a >= 0 && v * a >= 0
    ensures (v / n) * a + (v % n) * a / n == v * a / n
  {
    var s, d := v / n, v % n;
    assert v == n * s + d;
    QuotientBounds(v, n);
    Product(d, a, 0);
    Product(v, a, 0);
    var q, r := d * a / n, d * a % n;
    assert d * a == n * q + r;
    Product(a, n * s, d);
    Product(n, s, a);
    Product(n, s * a, q);
    QuotientUnique(v * a, n, s * a + q, r);
  }
}
