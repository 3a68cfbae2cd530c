/** Bounds on products, stated once for integers and once for rationals. */
module Bounds {
  lemma Between(x: int, lo: int, hi: int, m: int)
    requires lo <= x <= hi
    ensures lo * m <= x * m <= hi * m || hi * m <= x * m <= lo * m
  {
  }

  lemma Scaled(a: int, b: int, k: nat)
    requires a <= b
    ensures a * k <= b * k
  {
  }

  lemma NonNegative(x: nat, y: nat)
    ensures x * y >= 0
  {
  }

  lemma SquareBound(k: int, r: int)
    requires -r <= k <= r
    ensures 0 <= k * k <= r * r
  {
  }

  lemma Product(x: int, y: int, a: int, b: int)
    requires -a <= x <= a && -b <= y <= b
    ensures -(a * b) <= x * y <= a * b
  {
    Between(x, -a, a, y);
    Between(y, -b, b, a);
    assert (-a) * y == -(a * y);
    assert a * -b == -(a * b) && a * y == y * a;
  }

  lemma Ordered(q: real, a: real, b: real, qa: real, qb: real)
    requires q >= 0.0 && a <= b && qa == q * a && qb == q * b
    ensures qa <= qb
  {
    assert q * (b - a) == qb - qa;
  }

  /** A positive factor cancels; the products are named so that the callers stay linear. */
  lemma Cancel(z: real, a: real, b: real, za: real, zb: real)
    requires z > 0.0 && za == z * a && zb == z * b && za < zb
    ensures a < b
  {
    assert z * (b - a) == zb - za;
  }

  lemma Within(x: real, y: real, a: real, b: real, xy: real, ab: real)
    requires -a <= x <= a && -b <= y <= b && xy == x * y && ab == a * b
    ensures -ab <= xy <= ab
  {
    if y >= 0.0 {
      Ordered(y, -a, x, -a * y, xy);
      Ordered(y, x, a, xy, a * y);
      Ordered(a, y, b, a * y, ab);
    } else {
      Ordered(-y, -a, x, a * y, -xy);
      Ordered(-y, x, a, -xy, -a * y);
      Ordered(a, -y, b, -a * y, ab);
    }
  }

  /** Squares of close numbers are close. */
  lemma SquareGap(m: real, n: real, gap: real, sum: real)
    requires -gap <= m - n <= gap && -sum <= m + n <= sum
    ensures -(gap * sum) <= m * m - n * n <= gap * sum
  {
    Within(m - n, m + n, gap, sum, m * m - n * n, gap * sum);
  }

  lemma IntCancel(z: int, a: int, b: int, za: int, zb: int)
    requires z > 0 && za == z * a && zb == z * b && za < zb
    ensures a < b
  {
    assert z * (b - a) == zb - za;
  }

  lemma DivFloor(n: int, z: int)
    requires z > 0
    ensures z * (n / z) <= n < z * (n / z) + z
  {
    assert n == z * (n / z) + n % z;
  }

  lemma DivBelow(n: int, z: int, k: int, zk: int)
    requires z > 0 && zk == z * k && n < zk
    ensures n / z < k
  {
    DivFloor(n, z);
    IntCancel(z, n / z, k, z * (n / z), zk);
  }

  lemma SquareCast(x: int)
    ensures (x * x) as real == x as real * x as real
  {
  }
}
