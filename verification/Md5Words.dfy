/**
 * The arithmetic of the MD5 class on 64-bit longs that are never masked, and why its low 32 bits are the
 * words of RFC 1321.
 */
module Md5Words {
  import opened JavaText
  import opened Bits
  import opened Rfc1321

  /** The low 32 bits of a value, as an unsigned word. */
  function Low(x: int): Word {
    x % WORD
  }

  function FnF(x: JLong, y: JLong, z: JLong): JLong {
    LongOp(OR, LongOp(AND, x, y), LongOp(AND, LongNot(x), z))
  }

  function FnG(x: JLong, y: JLong, z: JLong): JLong {
    LongOp(OR, LongOp(AND, x, z), LongOp(AND, y, LongNot(z)))
  }

  function FnH(x: JLong, y: JLong, z: JLong): JLong {
    LongOp(XOR, LongOp(XOR, x, y), z)
  }

  function FnI(x: JLong, y: JLong, z: JLong): JLong {
    LongOp(XOR, y, LongOp(OR, x, LongNot(z)))
  }

  function Auxiliary(r: Round, x: JLong, y: JLong, z: JLong): JLong {
    match r
    case F => FnF(x, y, z)
    case G => FnG(x, y, z)
    case H => FnH(x, y, z)
    case I => FnI(x, y, z)
  }

  /** `((int) a << s) | ((int) a >>> (32 - s))` */
  function Rotated(a: JLong, s: nat): JInt
    requires 0 < s < 32
  {
    IntOp(OR, Wrap32(Wrap32(a) * Pow2(s)), Wrap32(Low(Wrap32(a)) / Pow2(32 - s)))
  }

  /** What one of FF, GG, HH, II returns. */
  function Mixed(r: Round, a: JLong, b: JLong, c: JLong, d: JLong, x: JLong, s: nat, ac: JLong): JLong
    requires 0 < s < 32
  {
    Wrap64(Rotated(Wrap64(a + Auxiliary(r, b, c, d) + x + ac), s) + b)
  }

  lemma LowOfWrap64(x: int)
    ensures Low(Wrap64(x)) == Low(x)
  {
    var k := (Wrap64(x) - x) / TWO_64;
    assert Wrap64(x) == x + k * TWO_64;
    LowShift(x, k * WORD);
  }

  lemma LowShift(x: int, k: int)
    ensures Low(x + k * WORD) == Low(x)
  {
  }

  lemma LowOfLowLong(x: int)
    ensures Low(x % TWO_64) == Low(x)
  {
    var k := x / TWO_64;
    assert x == x % TWO_64 + k * TWO_64;
    LowShift(x % TWO_64, k * WORD);
  }

  lemma LowOfLongOp(g: Gate, x: JLong, y: JLong)
    ensures Low(LongOp(g, x, y)) == Bitwise(g, Low(x), Low(y), 32)
  {
    Pow2Values();
    LowOfWrap64(Bitwise(g, x % TWO_64, y % TWO_64, 64));
    BitwiseLow(g, x % TWO_64, y % TWO_64, 64, 32);
    LowOfLowLong(x);
    LowOfLowLong(y);
  }

  lemma LowOfLongNot(x: JLong)
    ensures Low(LongNot(x)) == Complement(Low(x), 32)
  {
    hide Complement, Pow2;
    Pow2Values();
    ComplementValue(Low(x), 32);
    var k := x / WORD;
    assert x == k * WORD + Low(x);
    LowShift(WORD - 1 - Low(x), -k - 1);
  }

  /** In every bit position the code's gates compute the RFC's auxiliary functions. */
  lemma {:induction false} GatesMakeF(x: nat, y: nat, z: nat, n: nat)
    ensures Bitwise(OR, Bitwise(AND, x, y, n), Bitwise(AND, Complement(x, n), z, n), n) == RoundWord(F, x, y, z, n)
  {
    if n > 0 {
      GatesMakeF(x / 2, y / 2, z / 2, n - 1);
    }
  }

  lemma {:induction false} GatesMakeG(x: nat, y: nat, z: nat, n: nat)
    ensures Bitwise(OR, Bitwise(AND, x, z, n), Bitwise(AND, y, Complement(z, n), n), n) == RoundWord(G, x, y, z, n)
  {
    if n > 0 {
      GatesMakeG(x / 2, y / 2, z / 2, n - 1);
    }
  }

  lemma {:induction false} GatesMakeH(x: nat, y: nat, z: nat, n: nat)
    ensures Bitwise(XOR, Bitwise(XOR, x, y, n), z, n) == RoundWord(H, x, y, z, n)
  {
    if n > 0 {
      GatesMakeH(x / 2, y / 2, z / 2, n - 1);
    }
  }

  lemma {:induction false} GatesMakeI(x: nat, y: nat, z: nat, n: nat)
    ensures Bitwise(XOR, y, Bitwise(OR, x, Complement(z, n), n), n) == RoundWord(I, x, y, z, n)
  {
    if n > 0 {
      GatesMakeI(x / 2, y / 2, z / 2, n - 1);
    }
  }

  lemma LowOfAuxiliary(r: Round, x: JLong, y: JLong, z: JLong)
    ensures Low(Auxiliary(r, x, y, z)) == RoundWord(r, Low(x), Low(y), Low(z), 32)
  {
    hide LongOp, LongNot, Bitwise, Complement, RoundWord, Low;
    match r
    case F =>
      LowOfLongOp(OR, LongOp(AND, x, y), LongOp(AND, LongNot(x), z));
      LowOfLongOp(AND, x, y);
      LowOfLongOp(AND, LongNot(x), z);
      LowOfLongNot(x);
      GatesMakeF(Low(x), Low(y), Low(z), 32);
    case G =>
      LowOfLongOp(OR, LongOp(AND, x, z), LongOp(AND, y, LongNot(z)));
      LowOfLongOp(AND, x, z);
      LowOfLongOp(AND, y, LongNot(z));
      LowOfLongNot(z);
      GatesMakeG(Low(x), Low(y), Low(z), 32);
    case H =>
      LowOfLongOp(XOR, LongOp(XOR, x, y), z);
      LowOfLongOp(XOR, x, y);
      GatesMakeH(Low(x), Low(y), Low(z), 32);
    case I =>
      LowOfLongOp(XOR, y, LongOp(OR, x, LongNot(z)));
      LowOfLongOp(OR, x, LongNot(z));
      LowOfLongNot(z);
      GatesMakeI(Low(x), Low(y), Low(z), 32);
  }

  lemma LowOfWrap32(x: int)
    ensures Low(Wrap32(x)) == Low(x)
  {
    var k := Wrap32Quotient(x);
    LowShift(x, k);
  }

  /** Congruent factors give congruent products. */
  lemma LowOfProduct(x: int, p: nat)
    ensures Low(x * p) == Low(Low(x) * p)
  {
    var k := x / WORD;
    assert x == k * WORD + Low(x);
    assert x * p == Low(x) * p + (k * p) * WORD;
    LowShift(Low(x) * p, k * p);
  }

  /** The left shift of the `int` keeps the bits that do not fall off, `s` places up. */
  lemma LowOfLeftShift(a: JLong, q: nat, p: nat)
    requires q > 0 && p > 0 && q * p == WORD
    ensures Low(Wrap32(Wrap32(a) * p)) == (Low(a) % q) * p
  {
    hide Wrap32;
    LowOfWrap32(a);
    LowOfWrap32(Wrap32(a) * p);
    LowOfProduct(Wrap32(a), p);
    ModOfMultiple(Low(a), q, p);
  }

  /** The unsigned right shift brings the bits that fell off to the bottom. */
  lemma LowOfRightShift(a: JLong, q: nat, p: nat)
    requires q > 0 && p > 0 && q * p == WORD
    ensures Low(Wrap32(Low(Wrap32(a)) / q)) == Low(a) / q < p
  {
    LowOfWrap32(a);
    LowOfWrap32(Low(a) / q);
    QuotientBound(Low(a), q, p);
  }

  /** A bitwise operator of `int` is the operator on the low words. */
  lemma IntOpOfLow(g: Gate, x: JInt, y: JInt)
    ensures IntOp(g, x, y) == Wrap32(Bitwise(g, Low(x), Low(y), 32))
  {
    hide Bitwise, Wrap32;
  }

  /** The two shifts through an `int` and the `or` are a circular shift of the low word. */
  lemma LowOfRotated(a: JLong, s: nat)
    requires 0 < s < 32
    ensures Low(Rotated(a, s)) == Rotl(Low(a), s)
  {
    hide Bitwise, Wrap32, Pow2, Low, IntOp;
    IntOpOfLow(OR, Wrap32(Wrap32(a) * Pow2(s)), Wrap32(Low(Wrap32(a)) / Pow2(32 - s)));
    Pow2Values();
    Pow2Add(32 - s, s);
    var w, q, p := Low(a), Pow2(32 - s), Pow2(s);
    LowOfLeftShift(a, q, p);
    LowOfRightShift(a, q, p);
    RotlIsWord(w, q, p);
    OrDisjoint(w % q, w / q, s, 32);
    LowOfWrap32((w % q) * p + w / q);
    LowOfWord((w % q) * p + w / q);
  }

  lemma LowOfWord(w: Word)
    ensures Low(w) == w
  {
  }

  lemma RotlIsWord(w: Word, q: nat, p: nat)
    requires q > 0 && p > 0 && q * p == WORD
    ensures 0 <= (w % q) * p + w / q < WORD
  {
    QuotientBound(w, q, p);
    var r := w % q;
    assert r * p <= (q - 1) * p by {
      assert (q - 1 - r) * p >= 0;
    }
    assert (q - 1) * p == WORD - p;
  }

  lemma QuotientBound(w: nat, q: nat, p: nat)
    requires q > 0 && p > 0 && w < q * p
    ensures 0 <= w / q < p && w / q <= w
  {
    var k, r := w / q, w % q;
    assert w == k * q + r;
    MultipleAtLeast(q, k);
    if p <= k {
      ProductMonotone(p, k, q);
      assert false;
    }
  }

  lemma ProductMonotone(p: int, k: int, q: int)
    requires p <= k && 0 <= q
    ensures p * q <= k * q
  {
    assert k * q == (k - p) * q + p * q;
  }

  lemma LowOfSum(x: int, y: int)
    ensures Low(x + y) == Low(Low(x) + Low(y))
  {
    LowShift(Low(x) + Low(y), x / WORD + y / WORD);
  }

  lemma LowOfMixed(r: Round, a: JLong, b: JLong, c: JLong, d: JLong, x: JLong, s: nat, ac: JLong)
    requires 0 < s < 32
    ensures Low(Mixed(r, a, b, c, d, x, s, ac)) == Operation(r, Low(a), Low(b), Low(c), Low(d), Low(x), s, Low(ac))
  {
    hide Auxiliary, RoundWord, Rotated, Rotl, Wrap64;
    var f := Auxiliary(r, b, c, d);
    var sum := Wrap64(a + f + x + ac);
    LowOfAuxiliary(r, b, c, d);
    LowOfWrap64(a + f + x + ac);
    LowShift(Low(a) + Low(f) + Low(x) + Low(ac), a / WORD + f / WORD + x / WORD + ac / WORD);
    LowOfRotated(sum, s);
    LowOfWrap64(Rotated(sum, s) + b);
    LowOfSum(Rotated(sum, s), b);
    LowShift(b % WORD + Rotl(Low(sum), s), Rotl(Low(sum), s) / WORD);
  }

  datatype Registers = Registers(a: JLong, b: JLong, c: JLong, d: JLong)

  function LowOf(q: Registers): Quad {
    Quad(Low(q.a), Low(q.b), Low(q.c), Low(q.d))
  }

  function MixedAt(i: nat, a: JLong, b: JLong, c: JLong, d: JLong, x: seq<Word>): JLong
    requires |x| == 16
  {
    Mixed(RoundOf(i), a, b, c, d, x[K(i)], S(i), T(i))
  }

  /** Operation `i` as the class carries it out. */
  function NextLongs(p: Registers, x: seq<Word>, i: nat): Registers
    requires |x| == 16
  {
    Registers(p.d, MixedAt(i, p.a, p.b, p.c, p.d, x), p.b, p.c)
  }

  /** The long registers after `n` operations. */
  function Mixings(q: Registers, x: seq<Word>, n: nat): Registers
    requires |x| == 16 && n <= 64
  {
    if n == 0 then q else NextLongs(Mixings(q, x, n - 1), x, n - 1)
  }

  function Transformed(q: Registers, x: seq<Word>): Registers
    requires |x| == 16
  {
    var p := Mixings(q, x, 64);
    Registers(Wrap64(q.a + p.a), Wrap64(q.b + p.b), Wrap64(q.c + p.c), Wrap64(q.d + p.d))
  }

  function AbsorbLongs(q: Registers, data: seq<Octet>): Registers
    decreases |data|
  {
    if |data| < 64 then q else AbsorbLongs(Transformed(q, BlockWords(data[..64])), data[64..])
  }

  const INITIAL_LONGS := Registers(0x67452301, 0xefcdab89, 0x98badcfe, 0x10325476)

  lemma NextLongsRefinesNext(p: Registers, x: seq<Word>, i: nat)
    requires |x| == 16
    ensures LowOf(NextLongs(p, x, i)) == Next(LowOf(p), x, i)
  {
    hide Mixed, Operation, T, S, K, RoundOf;
    LowOfMixed(RoundOf(i), p.a, p.b, p.c, p.d, x[K(i)], S(i), T(i));
  }

  /** Through all 64 operations, whatever the high halves hold, the low halves are the RFC's registers. */
  lemma {:induction false} MixingsRefineOperations(q: Registers, x: seq<Word>, n: nat)
    requires |x| == 16 && n <= 64
    ensures LowOf(Mixings(q, x, n)) == Operations(LowOf(q), x, n)
  {
    hide LowOf, NextLongs, Next;
    if n > 0 {
      MixingsRefineOperations(q, x, n - 1);
      NextLongsRefinesNext(Mixings(q, x, n - 1), x, n - 1);
    }
  }

  lemma SumIsModulo(x: int, y: int)
    ensures Low(x + y) == (Low(x) + Low(y)) % WORD
  {
    LowOfSum(x, y);
  }

  lemma TransformedRefinesCompress(q: Registers, x: seq<Word>)
    requires |x| == 16
    ensures LowOf(Transformed(q, x)) == Compress(LowOf(q), x)
  {
    hide Mixings, Operations, Wrap64, Low;
    MixingsRefineOperations(q, x, 64);
    var p := Mixings(q, x, 64);
    LowOfWrap64(q.a + p.a);
    LowOfWrap64(q.b + p.b);
    LowOfWrap64(q.c + p.c);
    LowOfWrap64(q.d + p.d);
    SumIsModulo(q.a, p.a);
    SumIsModulo(q.b, p.b);
    SumIsModulo(q.c, p.c);
    SumIsModulo(q.d, p.d);
  }

  /** Over any data, the low halves of the class's state are the RFC's registers. */
  lemma {:induction false} AbsorbLongsRefinesAbsorb(q: Registers, data: seq<Octet>)
    ensures LowOf(AbsorbLongs(q, data)) == Absorb(LowOf(q), data)
    decreases |data|
  {
    hide Transformed, Compress, LowOf, BlockWords;
    if |data| >= 64 {
      TransformedRefinesCompress(q, BlockWords(data[..64]));
      AbsorbLongsRefinesAbsorb(Transformed(q, BlockWords(data[..64])), data[64..]);
    }
  }

  lemma {:induction false} AbsorbLongsAppend(q: Registers, data: seq<Octet>, more: seq<Octet>)
    requires |data| % 64 == 0
    ensures AbsorbLongs(q, data + more) == AbsorbLongs(AbsorbLongs(q, data), more)
    decreases |data|
  {
    hide Transformed, BlockWords;
    if data == [] {
      assert data + more == more;
    } else {
      assert (data + more)[..64] == data[..64] && (data + more)[64..] == data[64..] + more;
      AbsorbLongsAppend(Transformed(q, BlockWords(data[..64])), data[64..], more);
    }
  }
}
