/** Bitwise operations on natural numbers, defined bit by bit, and the two's complement reading of Java's integers. */
module Bits {

  /** Eight bits, as a number. */
  type Octet = b: int | 0 <= b < 256

  function Zeros(n: nat): (s: seq<Octet>)
    ensures |s| == n && forall i :: 0 <= i < n ==> s[i] == 0
  {
    seq<Octet>(n, _ => 0)
  }

  function Pow2(n: nat): (p: nat)
    ensures p > 0
  {
    if n == 0 then 1 else 2 * Pow2(n - 1)
  }

  datatype Gate = AND | OR | XOR

  predicate Output(g: Gate, p: bool, q: bool) {
    match g
    case AND => p && q
    case OR => p || q
    case XOR => p != q
  }

  function Bit(b: bool): (r: nat) {
    if b then 1 else 0
  }

  /** The gate applied to the `n` low bits of `x` and `y`. */
  function Bitwise(g: Gate, x: nat, y: nat, n: nat): (r: nat)
    ensures r < Pow2(n)
  {
    if n == 0 then 0 else Bit(Output(g, x % 2 == 1, y % 2 == 1)) + 2 * Bitwise(g, x / 2, y / 2, n - 1)
  }

  /** The complement of the `n` low bits. */
  function Complement(x: nat, n: nat): (r: nat)
    ensures r < Pow2(n)
  {
    if n == 0 then 0 else Bit(x % 2 == 0) + 2 * Complement(x / 2, n - 1)
  }

  /** Dropping high bits and shifting by one commute. */
  lemma HalfOfMod(x: nat, k: nat)
    requires k > 0
    ensures (x % (2 * k)) % 2 == x % 2
    ensures (x % (2 * k)) / 2 == (x / 2) % k
  {
    var q, r := x / 2 / k, x / 2 % k;
    assert x / 2 == q * k + r;
    var low := 2 * r + x % 2;
    assert x == q * (2 * k) + low;
    ModUnique(x, 2 * k, q, low);
  }

  lemma ModUnique(x: int, m: nat, q: int, r: nat)
    requires m > 0 && x == q * m + r && r < m
    ensures x % m == r && x / m == q
  {
    var q', r' := x / m, x % m;
    var d := q - q';
    assert q' * m + r' == q * m + r;
    assert d * m == q * m - q' * m;
    if d >= 1 {
      MultipleAtLeast(d, m);
    } else if d <= -1 {
      assert (-d) * m == -(d * m);
      MultipleAtLeast(-d, m);
    }
  }

  lemma MultipleAtLeast(d: nat, m: nat)
    requires d >= 1
    ensures d * m >= m
  {
    assert d * m == (d - 1) * m + m;
  }

  /** A truncated number is its last bit and its truncated half. */
  lemma SplitMod(x: nat, k: nat, r: nat, h: nat)
    requires k > 0 && x == Bit(r == 1) + 2 * h
    ensures x % (2 * k) == Bit(r == 1) + 2 * (h % k)
  {
    HalfOfMod(x, k);
  }

  /** Truncation commutes with every gate: low bits of the result depend on low bits of the operands only. */
  lemma {:induction false} BitwiseLow(g: Gate, x: nat, y: nat, n: nat, m: nat)
    requires m <= n
    ensures Bitwise(g, x, y, n) % Pow2(m) == Bitwise(g, x % Pow2(m), y % Pow2(m), m)
  {
    if m > 0 {
      var k := Pow2(m - 1);
      HalfOfMod(x, k);
      HalfOfMod(y, k);
      BitwiseLow(g, x / 2, y / 2, n - 1, m - 1);
      var b := Bit(Output(g, x % 2 == 1, y % 2 == 1));
      SplitMod(Bitwise(g, x, y, n), k, b, Bitwise(g, x / 2, y / 2, n - 1));
    }
  }

  lemma {:induction false} ComplementValue(x: nat, n: nat)
    requires x < Pow2(n)
    ensures Complement(x, n) == Pow2(n) - 1 - x
  {
    if n > 0 {
      ComplementValue(x / 2, n - 1);
    }
  }

  /** A mask of `k` ones keeps the remainder by 2^k. */
  lemma {:induction false} AndMask(x: nat, k: nat, n: nat)
    requires k <= n
    ensures Bitwise(AND, x, Pow2(k) - 1, n) == x % Pow2(k)
  {
    if k == 0 {
      AndZero(x, n);
    } else {
      var p := Pow2(k - 1);
      assert Pow2(k) == 2 * p;
      hide Pow2, Bitwise;
      AndMask(x / 2, k - 1, n - 1);
      AndOdd(x, p - 1, n);
      LastBit(x);
      SplitMod(x, p, x % 2, x / 2);
    }
  }

  lemma LastBit(x: nat)
    ensures x == Bit(x % 2 == 1) + 2 * (x / 2)
  {
  }

  lemma AndOdd(x: nat, m: nat, n: nat)
    requires n > 0
    ensures Bitwise(AND, x, 2 * m + 1, n) == Bit(x % 2 == 1) + 2 * Bitwise(AND, x / 2, m, n - 1)
  {
    assert (2 * m + 1) / 2 == m && (2 * m + 1) % 2 == 1;
  }

  lemma {:induction false} AndZero(x: nat, n: nat)
    ensures Bitwise(AND, x, 0, n) == 0
  {
    if n > 0 {
      AndZero(x / 2, n - 1);
    }
  }

  /** `k` halvings: a shift to the right. */
  function Halved(x: nat, k: nat): nat {
    if k == 0 then x else Halved(x / 2, k - 1)
  }

  lemma {:induction false} AndEven(x: nat, y: nat, n: nat)
    requires n > 0
    ensures Bitwise(AND, x, 2 * y, n) == 2 * Bitwise(AND, x / 2, y, n - 1)
  {
    assert (2 * y) / 2 == y && (2 * y) % 2 == 0;
  }

  lemma TwicePower(m: nat, k: nat)
    requires k > 0
    ensures m * Pow2(k) == 2 * (m * Pow2(k - 1))
  {
    var p := Pow2(k - 1);
    assert Pow2(k) == 2 * p;
    DoubleProduct(p, m);
    assert m * (2 * p) == (2 * p) * m && m * p == p * m;
  }

  /** A mask of high bits keeps high bits. */
  lemma {:induction false} AndHigh(x: nat, m: nat, k: nat, n: nat)
    requires k <= n
    ensures Bitwise(AND, x, m * Pow2(k), n) == Bitwise(AND, Halved(x, k), m, n - k) * Pow2(k)
  {
    hide Bitwise;
    if k == 0 {
      assert Pow2(0) == 1;
    } else {
      TwicePower(m, k);
      AndEven(x, m * Pow2(k - 1), n);
      AndHigh(x / 2, m, k - 1, n - 1);
      TwicePower(Bitwise(AND, Halved(x / 2, k - 1), m, n - k), k);
    }
  }

  lemma HalvedTwice(x: nat, k: nat)
    requires k >= 2
    ensures Halved(x, k) == Halved(x / 4, k - 2) && Halved(x, 0) == x
  {
    assert Halved(x, k) == Halved(x / 2, k - 1) == Halved(x / 2 / 2, k - 2);
    assert x / 2 / 2 == x / 4;
  }

  lemma {:induction false} HalvedIsDivided(x: nat, k: nat)
    ensures Halved(x, k) == x / Pow2(k)
  {
    hide Pow2;
    if k == 0 {
      TwicePower(1, 1);
      PowerZero();
    } else {
      var p := Pow2(k - 1);
      HalvedIsDivided(x / 2, k - 1);
      TwicePower(1, k);
      DivideTwice(x, p);
    }
  }

  lemma PowerZero()
    ensures Pow2(0) == 1
  {
  }

  lemma DivideTwice(x: nat, p: nat)
    requires p > 0
    ensures x / 2 / p == x / (2 * p)
  {
    HalfOfMod(x, p);
    var q, r := x / 2 / p, x / 2 % p;
    assert x / 2 == q * p + r;
    DoubleProduct(p, q);
    assert q * p == p * q && q * (2 * p) == (2 * p) * q;
    ModUnique(x, 2 * p, q, 2 * r + x % 2);
  }

  /** `or` of numbers without a common bit is their sum. */
  lemma {:induction false} OrDisjoint(hi: nat, lo: nat, k: nat, n: nat)
    requires k <= n && lo < Pow2(k) && hi * Pow2(k) < Pow2(n)
    ensures Bitwise(OR, hi * Pow2(k), lo, n) == hi * Pow2(k) + lo
  {
    if n == 0 {
      assert Pow2(k) == 1;
    } else if k == 0 {
      OrZero(hi, n);
    } else {
      var half := hi * Pow2(k - 1);
      assert hi * Pow2(k) == 2 * half;
      OrDisjoint(hi, lo / 2, k - 1, n - 1);
    }
  }

  lemma {:induction false} BitwiseCommutes(g: Gate, x: nat, y: nat, n: nat)
    ensures Bitwise(g, x, y, n) == Bitwise(g, y, x, n)
  {
    if n > 0 {
      BitwiseCommutes(g, x / 2, y / 2, n - 1);
    }
  }

  lemma {:induction false} OrZero(x: nat, n: nat)
    requires x < Pow2(n)
    ensures Bitwise(OR, x, 0, n) == x
  {
    if n > 0 {
      OrZero(x / 2, n - 1);
    }
  }

  lemma {:induction false} Pow2Add(a: nat, b: nat)
    ensures Pow2(a + b) == Pow2(a) * Pow2(b)
  {
    if a > 0 {
      Pow2Add(a - 1, b);
      assert Pow2(a + b) == 2 * Pow2(a - 1 + b);
      DoubleProduct(Pow2(a - 1), Pow2(b));
    }
  }

  lemma DoubleProduct(p: nat, q: nat)
    ensures (2 * p) * q == 2 * (p * q)
  {
  }

  lemma Pow2Values()
    ensures Pow2(3) == 8 && Pow2(6) == 64 && Pow2(8) == 0x100 && Pow2(16) == 0x1_0000 && Pow2(24) == 0x100_0000
    ensures Pow2(32) == 0x1_0000_0000 && Pow2(64) == 0x1_0000_0000_0000_0000
  {
    assert Pow2(4) == 16;
    Pow2Add(4, 2);
    Pow2Add(4, 4);
    Pow2Add(8, 8);
    Pow2Add(16, 8);
    Pow2Add(16, 16);
    Pow2Add(32, 32);
  }

  /** A common factor passes through the remainder. */
  lemma ModOfMultiple(x: nat, q: nat, p: nat)
    requires q > 0 && p > 0
    ensures q * p > 0 && (x * p) % (q * p) == (x % q) * p
  {
    var k, r := x / q, x % q;
    assert x == k * q + r;
    MultipleAtLeast(q, p);
    assert x * p == k * (q * p) + r * p by {
      assert (k * q + r) * p == (k * q) * p + r * p;
      assert (k * q) * p == k * (q * p);
    }
    assert r * p < q * p by {
      assert (q - r) * p == q * p - r * p;
      MultipleAtLeast(q - r, p);
    }
    ModUnique(x * p, q * p, k, r * p);
  }
}
