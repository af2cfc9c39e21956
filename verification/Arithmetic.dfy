/** Integer facts about positions in a ring of `n` slots, and the fixed-width
    conversions that the C++ sources rely on. */
module Arithmetic {

  const U32: int := 0x1_0000_0000

  function Min(a: int, b: int): int {
    if a < b then a else b
  }

  function Max(a: int, b: int): int {
    if a < b then b else a
  }

  /** A value stored in a 32-bit `unsigned int`. */
  function Wrap(x: int): (r: nat)
    ensures r < U32
  {
    x % U32
  }

  /** A 32-bit `unsigned int` converted to a 32-bit two's complement `long`. */
  function AsLong(x: nat): int {
    if x < 0x8000_0000 then x else x - U32
  }

  /** C++ division: the quotient is truncated toward zero. */
  function TruncDiv(a: int, b: int): int
    requires b > 0
  {
    if a >= 0 then a / b else -((-a) / b)
  }

  /** C++ remainder: it takes the sign of the dividend. */
  function TruncRem(a: int, b: int): int
    requires b > 0
  {
    a - TruncDiv(a, b) * b
  }

  /** Multiples of `n` jump over the open interval between `-n` and `n`. */
  lemma MultiplesApart(d: int, n: int)
    requires n > 0
    ensures d >= 1 ==> d * n >= n
    ensures d <= -1 ==> d * n <= -n
    ensures d <= 0 ==> d * n <= 0
  {
  }

  lemma SubMul(a: int, b: int, n: int)
    ensures (a - b) * n == a * n - b * n
    ensures (a + b) * n == a * n + b * n
  {
  }

  lemma DivModUnique(a: int, q: int, r: int, n: int)
    requires 0 <= r < n && a == q * n + r
    ensures a / n == q && a % n == r
  {
    var p := a / n;
    assert a == p * n + a % n;
    SubMul(p, q, n);
    MultiplesApart(p - q, n);
    assert (p - q) * n == r - a % n;
  }

  lemma MulLe(a: int, b: int, e: int)
    requires a <= b && 0 <= e
    ensures a * e <= b * e
  {
  }

  lemma ModShift(a: int, k: int, n: int)
    requires n > 0
    ensures (a + k * n) % n == a % n
    ensures (a + k * n) / n == a / n + k
  {
    assert a + k * n == (a / n + k) * n + a % n by {
      assert a == (a / n) * n + a % n;
      assert (a / n + k) * n == (a / n) * n + k * n;
    }
    DivModUnique(a + k * n, a / n + k, a % n, n);
  }

  /** Stepping from one slot to the next. */
  lemma NextSlot(w: nat, n: nat)
    requires n > 0
    ensures w % n + 1 < n ==> (w + 1) % n == w % n + 1 && (w + 1) / n == w / n
    ensures w % n + 1 >= n ==> (w + 1) % n == 0 && (w + 1) / n == w / n + 1
  {
    assert w == (w / n) * n + w % n;
    if w % n + 1 < n {
      DivModUnique(w + 1, w / n, w % n + 1, n);
    } else {
      assert (w / n + 1) * n == (w / n) * n + n;
      DivModUnique(w + 1, w / n + 1, 0, n);
    }
  }

  /** Fewer than `n` apart, two different indices never share a slot. */
  lemma ModDistinct(i: nat, w: nat, n: nat)
    requires n > 0 && i < w < i + n
    ensures i % n != w % n
  {
    var p, q := w / n, i / n;
    assert w == p * n + w % n && i == q * n + i % n;
    SubMul(p, q, n);
    MultiplesApart(p - q, n);
  }

  /** Exact multiples divide out whatever the sign. */
  lemma TruncDivExact(k: int, e: int)
    requires e > 0
    ensures TruncDiv(k * e, e) == k
  {
    if k >= 0 {
      MulLe(0, k, e);
      DivModUnique(k * e, k, 0, e);
    } else {
      MultiplesApart(k, e);
      SubMul(0, k, e);
      DivModUnique((0 - k) * e, 0 - k, 0, e);
    }
  }

  /** The number of a 32-bit pattern is the one in range that is equal modulo 2^32. */
  lemma LongOfWrapped(x: int)
    ensures -0x8000_0000 <= AsLong(Wrap(x)) < 0x8000_0000
    ensures (x - AsLong(Wrap(x))) % 0x1_0000_0000 == 0
    ensures -0x8000_0000 <= x < 0x8000_0000 ==> AsLong(Wrap(x)) == x
  {
  }

  /** Truncation toward zero: the remainder has the sign of the dividend. */
  lemma TruncatedExactly(a: int, b: int)
    requires b > 0
    ensures a == TruncDiv(a, b) * b + TruncRem(a, b)
    ensures if a >= 0 then 0 <= TruncRem(a, b) < b else -b < TruncRem(a, b) <= 0
  {
    if a < 0 {
      assert -a == (-a) / b * b + (-a) % b;
      assert (-((-a) / b)) * b == -((-a) / b * b);
    }
  }
}
