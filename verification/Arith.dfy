/** Small facts about products and quotients that the solver does not find by itself. */
module Arith {

  lemma Distribute(a: int, b: int, c: int)
    ensures (a + b) * c == a * c + b * c
  {
  }

  lemma Associate(a: int, b: int, c: int)
    ensures a * (b * c) == (a * b) * c
  {
  }

  lemma Positive(a: int, b: int)
    requires a > 0 && b > 0
    ensures a * b > 0
  {
  }

  lemma NonNegative(a: int, b: int)
    requires a >= 0 && b >= 0
    ensures a * b >= 0
  {
  }

  lemma AtLeast(a: int, d: int)
    requires a >= 1 && d >= 0
    ensures a * d >= d
  {
    Distribute(a - 1, 1, d);
    NonNegative(a - 1, d);
  }

  lemma Monotone(i: int, m: int, b: int)
    requires i <= m && b >= 0
    ensures i * b <= m * b
  {
    Distribute(i, m - i, b);
    NonNegative(m - i, b);
  }

  /** The i-th of m pieces of size b ends inside them. */
  lemma Grows(i: nat, m: nat, b: nat)
    requires i < m
    ensures i * b + b <= m * b
  {
    Distribute(i, 1, b);
    Monotone(i + 1, m, b);
  }

  lemma DivUnique(x: int, q: int, r: int, d: int)
    requires d > 0 && 0 <= r < d && x == q * d + r
    ensures x / d == q && x % d == r
  {
    var k := q - x / d;
    assert x == (x / d) * d + x % d;
    Distribute(x / d, k, d);
    assert k * d == x % d - r;
    if k >= 1 {
      AtLeast(k, d);
    } else if k <= -1 {
      AtLeast(-k, d);
    }
  }

  lemma Divided(q: int, d: int)
    requires d > 0
    ensures (q * d) / d == q
  {
    DivUnique(q * d, q, 0, d);
  }

  lemma ModMod(x: int, p: nat, n: nat)
    requires p >= 1 && n >= 1 && n % p == 0
    ensures x % n % p == x % p && x % n % p <= x % n
  {
    var k, q, r := n / p, x / n, x % n;
    var a, b := r / p, r % p;
    assert n == k * p && r == a * p + b && x == q * n + r;
    Associate(q, k, p);
    Distribute(q * k, a, p);
    DivUnique(x, q * k + a, b, p);
    NonNegative(a, p);
  }
}

/** 32-bit words and their bytes, low byte first. */
module Word32 {
  import opened Arith

  const WORD: nat := 0x1_0000_0000

  type byte = x: int | 0 <= x < 256
  type word = x: int | 0 <= x < WORD

  function Bytes(w: word): (b: seq<byte>)
    ensures |b| == 4
  {
    [w % 256, w / 256 % 256, w / 65536 % 256, w / 16777216 % 256]
  }

  lemma Digits(w: word)
    ensures w % 256 + 256 * (w / 256 % 256) + 65536 * (w / 65536 % 256) + 16777216 * (w / 16777216 % 256) == w
  {
    var a := w / 256;
    var b := a / 256;
    var c := b / 256;
    Halves(w, 256);
    Halves(w, 65536);
    assert b == w / 65536 && c == w / 16777216;
    assert w == 256 * a + w % 256 && a == 256 * b + a % 256 && b == 256 * c + b % 256;
    assert c < 256 && c % 256 == c;
  }

  lemma Halves(x: nat, n: nat)
    requires n >= 1
    ensures x / n / 256 == x / (n * 256)
  {
    var q, r := x / n, x % n;
    assert x == q * n + r && q == q / 256 * 256 + q % 256;
    Associate(q / 256, 256, n);
    Distribute(q / 256 * 256, q % 256, n);
    Monotone(q % 256, 255, n);
    Distribute(255, 1, n);
    NonNegative(q % 256, n);
    DivUnique(x, q / 256, q % 256 * n + r, n * 256);
  }
}

/** Powers of two and masks. */
module Bits {
  import opened Arith

  function Power2(n: nat): (p: nat)
    ensures p >= 1
  {
    if n == 0 then 1 else 2 * Power2(n - 1)
  }

  lemma {:induction false} PowerSum(m: nat, n: nat)
    ensures Power2(m + n) == Power2(m) * Power2(n)
    decreases m
  {
    if m > 0 {
      PowerSum(m - 1, n);
      Associate(2, Power2(m - 1), Power2(n));
    }
  }

  /** Bitwise and. */
  function And(a: nat, b: nat): nat {
    if a == 0 || b == 0 then 0
    else 2 * And(a / 2, b / 2) + if a % 2 == 1 && b % 2 == 1 then 1 else 0
  }

  lemma HalfRemainder(a: nat, p: nat)
    requires p >= 1
    ensures a % (2 * p) == 2 * (a / 2 % p) + a % 2
  {
    var q, r := a / 2 / p, a / 2 % p;
    assert a / 2 == q * p + r;
    assert 2 * (q * p) == q * (2 * p);
    DivUnique(a, q, 2 * r + a % 2, 2 * p);
  }

  lemma AndHalf(a: nat, p: nat)
    requires p >= 1
    ensures And(a, 2 * p - 1) == 2 * And(a / 2, p - 1) + a % 2
  {
    assert (2 * p - 1) / 2 == p - 1 && (2 * p - 1) % 2 == 1;
  }

  /** Masking with a power of two less one is taking the remainder. */
  lemma {:induction false} MaskIsRemainder(a: nat, n: nat)
    ensures And(a, Power2(n) - 1) == a % Power2(n)
    decreases n
  {
    if n > 0 {
      MaskIsRemainder(a / 2, n - 1);
      hide And;
      AndHalf(a, Power2(n - 1));
      HalfRemainder(a, Power2(n - 1));
    }
  }
}

/** Numbers in base ten. */
module Decimals {

  /** The decimal digits of n, the highest first. */
  function InDecimal(n: nat): (d: seq<nat>)
    ensures |d| >= 1 && forall i :: 0 <= i < |d| ==> d[i] < 10
  {
    if n < 10 then [n] else InDecimal(n / 10) + [n % 10]
  }

  /** The number that digits in base ten stand for. */
  function Total(d: seq<nat>): nat {
    if d == [] then 0 else 10 * Total(d[..|d| - 1]) + d[|d| - 1]
  }

  /** The digits stand for the number, without leading zeros. */
  lemma {:induction false} DecimalRead(n: nat)
    ensures Total(InDecimal(n)) == n && (|InDecimal(n)| > 1 ==> InDecimal(n)[0] != 0)
    decreases n
  {
    if n < 10 {
      assert Total([]) == 0 && [n][..0] == [];
    } else {
      DecimalRead(n / 10);
      assert InDecimal(n)[..|InDecimal(n)| - 1] == InDecimal(n / 10);
    }
  }
}
