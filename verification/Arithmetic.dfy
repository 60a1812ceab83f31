/** Products, quotients and remainders of integers. */
module Arithmetic {
  lemma {:induction false} Distribute(x: int, y: int, z: int)
    ensures (x + y) * z == x * z + y * z && x * (y + z) == x * y + x * z
  {
  }

  lemma {:induction false} MulAssoc(x: int, y: int, z: int)
    ensures x * y * z == x * (y * z)
  {
  }

  lemma {:induction false} MulMonotone(x: int, y: int, m: int)
    requires x <= y
    ensures m >= 0 ==> x * m <= y * m
    ensures m <= 0 ==> y * m <= x * m
  {
    if m >= 0 {
      assert 0 <= (y - x) * m;
    } else {
      assert 0 <= (y - x) * (-m);
    }
  }

  lemma {:induction false} MulMore(a: nat, b: nat, n: nat)
    requires a < b
    ensures 0 <= a * n && a * n + n <= b * n
  {
    assert (a + 1) * n <= b * n;
  }

  lemma {:induction false} DivTimes(v: int, n: int)
    requires n > 0
    ensures v == v / n * n + v % n && 0 <= v % n < n
  {
  }

  lemma {:induction false} DivModUnique(x: int, n: int, q: int, m: int)
    requires 0 <= m < n && x == q * n + m
    ensures x / n == q && x % n == m
  {
    DivTimes(x, n);
    if x / n > q {
      MulMore(0, x / n - q, n);
      Distribute(x / n - q, q, n);
    } else if x / n < q {
      MulMore(0, q - x / n, n);
      Distribute(q - x / n, x / n, n);
    }
  }

  lemma {:induction false} QuotientLess(v: int, n: int, b: int)
    requires 0 <= v < b * n && n > 0
    ensures 0 <= v / n < b
  {
    DivTimes(v, n);
  }
}
