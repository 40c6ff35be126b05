/** Integer arithmetic as C defines it: division truncates toward zero, and the remainder
    takes the sign of the dividend. */
module CInt {
  /** `a / b` */
  function Quot(a: int, b: int): int
    requires b > 0
  {
    if a >= 0 then a / b else -((-a) / b)
  }

  /** `a % b` */
  function Rem(a: int, b: int): int
    requires b > 0
  {
    if a >= 0 then a % b else -((-a) % b)
  }

  /** Conversion to a 32-bit `int`, which keeps the low 32 bits. */
  function Int32(x: int): int {
    (x + 0x8000_0000) % 0x1_0000_0000 - 0x8000_0000
  }

  predicate IsInt32(x: int) {
    -0x8000_0000 <= x < 0x8000_0000
  }

  predicate IsInt64(x: int) {
    -0x8000_0000_0000_0000 <= x < 0x8000_0000_0000_0000
  }

  lemma MultipleAtLeast(p: int, e: int)
    requires p >= 1
    ensures e >= 1 ==> p * e >= p
    ensures e <= -1 ==> p * e <= -p
  {
  }

  /** Quotient and remainder are the only numbers that satisfy the division equation. */
  lemma DivModUnique(x: int, n: int, q: int, r: int)
    requires n >= 1 && x == q * n + r && 0 <= r < n
    ensures x / n == q && x % n == r
  {
    var d, m := x / n, x % n;
    assert x == n * d + m;
    assert n * (q - d) == m - r;
    MultipleAtLeast(n, q - d);
  }

  /** A number below n * k has a quotient by n below k. */
  lemma QuotientBelow(x: int, n: int, k: int)
    requires n >= 1 && 0 <= x < n * k
    ensures 0 <= x / n < k
  {
    var d := x / n;
    assert x == n * d + x % n;
    assert n * (d - k) < 0;
    MultipleAtLeast(n, d - k);
    MultipleAtLeast(n, d);
  }

  /** Entry r of block b, of blocks of n entries, lies among the first k blocks. */
  lemma BlockBound(b: int, n: int, k: int, r: int)
    requires 0 <= b < k && 1 <= r <= n
    ensures 1 <= b * n + r <= k * n
  {
    MultipleAtLeast(n, b);
    MultipleAtLeast(n, k - b);
    assert k * n == b * n + (k - b) * n;
  }

  /** Two divisions in a row are one by the product. */
  lemma NestedDiv(x: int, a: int, b: int)
    requires x >= 0 && a >= 1 && b >= 1
    ensures a * b >= 1 && x / a / b == x / (a * b)
  {
    var q, r := x / a, x % a;
    var s, t := q / b, q % b;
    assert x == a * q + r && q == b * s + t;
    assert x == s * (a * b) + (a * t + r) by {
      assert a * (b * s + t) == s * (a * b) + a * t;
    }
    BlockBound(t, a, b, r + 1);
    assert b * a == a * b;
    DivModUnique(x, a * b, s, a * t + r);
  }
}
