/**
 Facts about division and multiplication that the solver needs spelled out.

 They are about unbounded integers. Bracket steps, product indices and buffer
 positions use them.
 */
module Arithmetic {

  function Min(a: int, b: int): int
  {
    if a < b then a else b
  }

  /** Division with remainder is unique. */
  lemma DivModUnique(x: int, m: int, q: int, r: int)
    requires m > 0 && x == m * q + r && 0 <= r < m
    ensures x / m == q && x % m == r
  {
    var q', r' := x / m, x % m;
    assert x == m * q' + r';
    assert m * q - m * q' == r' - r;
    if q > q' {
      assert m * (q - q') == m * q - m * q';
      MulAtLeast(m, q - q');
    } else if q < q' {
      assert m * (q' - q) == m * q' - m * q;
      MulAtLeast(m, q' - q);
    }
  }

  lemma {:induction false} MulAtLeast(m: int, k: int)
    requires m > 0 && k >= 1
    ensures m * k >= m
    decreases k
  {
    if k > 1 {
      MulAtLeast(m, k - 1);
      assert m * k == m * (k - 1) + m;
    }
  }

  lemma ModShift(a: int, d: int, m: int)
    requires m > 0 && a % m == 0 && 0 <= d < m
    ensures (a + d) % m == d
    ensures (a + m) % m == 0
  {
    var q := a / m;
    assert a == m * q;
    DivModUnique(a + d, m, q, d);
    assert a + m == m * (q + 1);
    DivModUnique(a + m, m, q + 1, 0);
  }

  lemma StepBound(q: int, n: int, step: int)
    requires step > 0 && 0 <= q * step <= n * step
    ensures 0 <= q <= n
  {
    assert step * (-q) == -(q * step);
    assert step * (q - n) == q * step - n * step;
    if q < 0 {
      MulAtLeast(step, -q);
    }
    if q > n {
      MulAtLeast(step, q - n);
    }
  }

  lemma {:induction false} MulMonotone(m: int, a: int, b: int)
    requires m >= 0 && a <= b
    ensures m * a <= m * b
    decreases b - a
  {
    if a < b {
      MulMonotone(m, a, b - 1);
      assert m * b == m * (b - 1) + m;
    }
  }

  /** Splitting a number below a product into quotient and remainder. */
  lemma DivBelow(i: int, n: int, c: int)
    requires c > 0 && 0 <= i < n * c
    ensures 0 <= i / c < n && 0 <= i % c < c && i == (i / c) * c + i % c
  {
    var q := i / c;
    assert i == c * q + i % c;
    assert q * c == c * q;
    assert c * n == n * c;
    if q >= n {
      MulMonotone(c, n, q);
    }
    if q < 0 {
      MulMonotone(c, q, -1);
    }
  }

  /** Adding a multiple of the divisor shifts the quotient and keeps the remainder. */
  lemma DivShift(i: int, k: int, c: int)
    requires c > 0
    ensures (i + k * c) / c == i / c + k && (i + k * c) % c == i % c
  {
    var q, r := i / c, i % c;
    assert i == c * q + r;
    assert c * (q + k) == c * q + k * c;
    DivModUnique(i + k * c, c, q + k, r);
  }

  /** A digit and a remainder below the base determine each other. */
  lemma DigitSplit(x: int, r: int, c: int)
    requires c > 0 && 0 <= r < c
    ensures (x * c + r) / c == x && (x * c + r) % c == r
  {
    assert x * c == c * x;
    DivModUnique(x * c + r, c, x, r);
  }

  lemma DigitBelow(x: int, r: int, c: int, n: int)
    requires 0 <= r < c && 0 <= x < n
    ensures 0 <= x * c + r < n * c
  {
    assert x * c == c * x && n * c == c * n && c * (x + 1) == c * x + c;
    MulMonotone(c, 0, x);
    MulMonotone(c, x + 1, n);
  }

  /** Numbers of two digits are ordered by the first digit, then by the second. */
  lemma DigitOrder(x: int, r: int, y: int, s: int, c: int)
    requires 0 <= r < c && 0 <= s < c
    ensures x * c + r < y * c + s <==> x < y || (x == y && r < s)
  {
    assert x * c == c * x && y * c == c * y;
    if x < y {
      MulMonotone(c, x + 1, y);
      assert c * (x + 1) == c * x + c;
    } else if y < x {
      MulMonotone(c, y + 1, x);
      assert c * (y + 1) == c * y + c;
    }
  }
}
