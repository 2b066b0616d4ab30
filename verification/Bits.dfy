/** Powers of two, C's bitwise `&` on unsigned numbers, and the division facts
    the address arithmetic rests on. */
module Bits {

  const TWO32: nat := 0x1_0000_0000
  const TWO64: nat := 0x1_0000_0000_0000_0000

  /** The value an unsigned 16-bit C variable keeps. */
  function U16(x: int): (r: nat)
    ensures r < 0x1_0000
  {
    x % 0x1_0000
  }

  /** The value an unsigned 32-bit C expression keeps. */
  function U32(x: int): (r: nat)
    ensures r < TWO32
  {
    x % TWO32
  }

  /** The value an unsigned 64-bit C expression keeps. */
  function U64(x: int): nat {
    x % TWO64
  }

  /** The value a signed 32-bit C variable keeps. */
  function S32(x: int): (r: int)
    ensures -0x8000_0000 <= r < 0x8000_0000
  {
    var u := U32(x);
    if u < 0x8000_0000 then u else u - TWO32
  }

  /** The value a signed 64-bit C variable keeps. */
  function S64(x: int): (r: int)
    ensures -0x8000_0000_0000_0000 <= r < 0x8000_0000_0000_0000
  {
    var u := U64(x);
    if u < 0x8000_0000_0000_0000 then u else u - TWO64
  }

  lemma U16Fits(x: nat)
    requires x < 0x1_0000
    ensures U16(x) == x
  {
  }

  lemma U64Fits(x: int)
    requires 0 <= x + TWO64 && x < TWO64
    ensures 0 <= x ==> U64(x) == x
    ensures x < 0 ==> U64(x) == x + TWO64
  {
  }

  function Pow2(k: nat): (p: nat)
    ensures p > 0
  {
    if k == 0 then 1 else 2 * Pow2(k - 1)
  }

  /** C's `a & b`, bit by bit. */
  function And(a: nat, b: nat): nat
    decreases a
  {
    if a == 0 || b == 0 then 0
    else (if a % 2 == 1 && b % 2 == 1 then 1 else 0) + 2 * And(a / 2, b / 2)
  }

  /** Quotient and remainder are the only pair with these bounds. */
  lemma DivModUnique(x: int, d: int, q: int, r: int)
    requires d > 0 && 0 <= r < d && x == q * d + r
    ensures x / d == q && x % d == r
  {
    var q' := x / d;
    assert x == q' * d + x % d;
    assert (q' + 1) * d == q' * d + d && (q + 1) * d == q * d + d;
    if q > q' {
      MulMono(q' + 1, q, d);
    } else if q < q' {
      MulMono(q + 1, q', d);
    }
  }

  lemma MulMono(a: int, b: int, d: int)
    requires a <= b && d >= 0
    ensures a * d <= b * d
  {
  }

  /** Dropping the low bit before and after taking a remainder. */
  lemma HalveRemainder(x: nat, m: nat)
    requires m > 0
    ensures x % (2 * m) == 2 * (x / 2 % m) + x % 2
  {
    var h := x / 2;
    assert h == h / m * m + h % m;
    assert h / m * (2 * m) == 2 * (h / m * m);
    DivModUnique(x, 2 * m, h / m, 2 * (h % m) + x % 2);
  }

  /** One step of a mask of ones. */
  lemma MaskStep(x: nat, m: nat)
    requires m > 0
    ensures And(x, 2 * m - 1) == x % 2 + 2 * And(x / 2, m - 1)
  {
    assert (2 * m - 1) % 2 == 1 && (2 * m - 1) / 2 == m - 1;
  }

  /** Masking with 2^k - 1 is the remainder modulo 2^k. */
  lemma {:induction false} MaskIsRemainder(x: nat, k: nat)
    ensures And(x, Pow2(k) - 1) == x % Pow2(k)
    decreases k
  {
    if k > 0 {
      var m := Pow2(k - 1);
      MaskIsRemainder(x / 2, k - 1);
      MaskStep(x, m);
      HalveRemainder(x, m);
    }
  }

  /** A number below q * d has a quotient below q. */
  lemma DivBelow(x: nat, d: nat, q: nat)
    requires d > 0 && x < q * d
    ensures x / d < q
  {
    assert x == x / d * d + x % d;
    if q <= x / d {
      MulMono(q, x / d, d);
    }
  }

  lemma DivDiv(x: nat, d: nat)
    requires d > 0
    ensures d * d > 0 && x / (d * d) == (x / d) / d
  {
    var a := x / d;
    var q, t, s := a / d, a % d, x % d;
    TwoDigits(x, d, a, q, t, s);
    DivModUnique(x, d * d, q, t * d + s);
  }

  lemma TwoDigits(x: nat, d: nat, a: nat, q: nat, t: nat, s: nat)
    requires x == a * d + s && a == q * d + t && t < d && s < d
    ensures 0 <= t * d + s < d * d && x == q * (d * d) + (t * d + s)
  {
    assert a * d == (q * d) * d + t * d;
    assert (q * d) * d == q * (d * d);
    MulMono(t, d - 1, d);
    assert (d - 1) * d == d * d - d;
    MulMono(0, t, d);
  }

  /** C's `j / n` and `j % n` on unsigned numbers: the digits of j in base n. */
  function Hi(j: nat, n: nat): nat
    requires n > 0
  {
    j / n
  }

  function Lo(j: nat, n: nat): nat
    requires n > 0
  {
    j % n
  }

  /** Two digits in base n as one number. */
  function Join(n: nat, h: nat, l: nat): nat {
    h * n + l
  }

  lemma SplitDigits(n: nat, j: nat, bound: nat)
    requires n > 0 && j < bound * n
    ensures Hi(j, n) < bound && Lo(j, n) < n && Join(n, Hi(j, n), Lo(j, n)) == j
  {
    DivBelow(j, n, bound);
  }

  lemma JoinDigits(n: nat, h: nat, l: nat, bound: nat)
    requires h < bound && l < n
    ensures Join(n, h, l) < bound * n && Hi(Join(n, h, l), n) == h && Lo(Join(n, h, l), n) == l
  {
    MulMono(h, bound - 1, n);
    assert (bound - 1) * n == bound * n - n;
    DivModUnique(h * n + l, n, h, l);
  }

  lemma DigitOrder(n: nat, a: nat, b: nat)
    requires n > 0 && a < b
    ensures Hi(a, n) < Hi(b, n) || (Hi(a, n) == Hi(b, n) && Lo(a, n) < Lo(b, n))
  {
    assert a == a / n * n + a % n && b == b / n * n + b % n;
    assert (b / n + 1) * n == b / n * n + n;
    if b / n < a / n {
      MulMono(b / n + 1, a / n, n);
    }
  }
}
