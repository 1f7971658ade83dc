/** The MD5 class: a 64-byte buffer, a 64-bit bit count in two longs, and a state of four longs. */
module Md5 {
  import opened Bits
  import opened Common
  import opened JavaText
  import opened Md5Words
  import opened Rfc1321

  function UnsignedAll(bytes: seq<JByte>): (u: seq<Octet>)
    ensures |u| == |bytes|
  {
    seq<Octet>(|bytes|, i requires 0 <= i < |bytes| => Unsigned(bytes[i]))
  }

  /** A narrowing cast of a value already masked to eight bits. */
  function ToByte(v: int): JByte {
    var m := v % 256;
    if m > 127 then m - 256 else m
  }

  /** `x >>> k` on a long. */
  function ShiftRight(x: JLong, k: nat): JLong
    requires 0 < k < 64
  {
    Pow2Positive(k);
    (x % TWO_64) / Pow2(k)
  }

  lemma Pow2Positive(k: nat)
    requires k > 0
    ensures Pow2(k) >= 2
  {
  }

  /** `b & 0x7F + 128`, which Java reads as `b & 255`, for a negative byte. */
  function ByteToLong(b: JByte): JLong {
    if b < 0 then IntOp(AND, b, 0x7F + 128) else b
  }

  /** A remainder by a multiple of `m` keeps the remainder by `m`. */
  lemma ModOfMod(x: int, m: nat, k: nat)
    requires m > 0 && k > 0
    ensures k * m > 0 && (x % (k * m)) % m == x % m
  {
    MultipleAtLeast(k, m);
    var q, r := x / (k * m), x % (k * m);
    assert x == q * (k * m) + r;
    var q', r' := r / m, r % m;
    assert r == q' * m + r';
    assert x == (q * k + q') * m + r' by {
      assert q * (k * m) == (q * k) * m;
      assert (q * k + q') * m == (q * k) * m + q' * m;
    }
    ModUnique(x, m, q * k + q', r');
  }

  lemma ByteToLongIsUnsigned(b: JByte)
    ensures ByteToLong(b) == Unsigned(b)
  {
    hide Bitwise, Pow2;
    Pow2Values();
    AndMask(Low(b), 8, 32);
    ModOfMod(b, 0x100, 0x100_0000);
    assert Wrap32(b % 0x100) == b % 0x100;
    hide Wrap32;
  }

  lemma ByteMask(x: JLong)
    ensures LongOp(AND, x, 0xff) == x % 0x100
  {
    hide Bitwise, Pow2;
    Pow2Values();
    AndMask(x % TWO_64, 8, 64);
    ModOfMod(x, 0x100, 0x100_0000_0000_0000);
    assert Wrap64(x % 0x100) == x % 0x100;
    hide Wrap64;
  }

  /** Octet `j` of a long, as Encode cuts it out. */
  function EncodedByte(x: JLong, j: nat): JByte
    requires j < 4
  {
    ToByte(LongOp(AND, if j == 0 then x else ShiftRight(x, 8 * j), 0xff))
  }

  /** The long Decode puts together from four bytes. */
  function DecodedLong(b0: JByte, b1: JByte, b2: JByte, b3: JByte): JLong {
    LongOp(OR,
           LongOp(OR,
                  LongOp(OR, ByteToLong(b0), Wrap64(ByteToLong(b1) * 0x100)),
                  Wrap64(ByteToLong(b2) * 0x1_0000)),
           Wrap64(ByteToLong(b3) * 0x100_0000))
  }

  /** Encode writes the bytes of the low word, low-order byte first; the high word does not matter. */
  lemma EncodedByteValue(x: JLong, j: nat)
    requires j < 4
    ensures Unsigned(EncodedByte(x, j)) == (Low(x) / Pow2(8 * j)) % 256
  {
    hide Bitwise, Pow2, LongOp, Wrap64;
    Pow2Values();
    Pow2Zero();
    var y := if j == 0 then x else ShiftRight(x, 8 * j);
    ByteMask(y);
    assert Unsigned(EncodedByte(x, j)) == y % 256;
    if j == 0 {
      ModOfMod(x, 256, 0x100_0000);
    } else {
      var p := Pow2(8 * j);
      assert p == if j == 1 then 0x100 else if j == 2 then 0x1_0000 else 0x100_0000;
      ByteOfWord(x % TWO_64, p, if j == 1 then 0x1_0000 else if j == 2 then 0x100 else 1);
      LowOfLowLong(x);
    }
  }

  /** A byte of a number that lies within its low word is a byte of that word. */
  lemma ByteOfWord(x: nat, p: nat, c: nat)
    requires p > 0 && 256 * c * p == WORD
    ensures (x / p) % 256 == ((x % WORD) / p) % 256
  {
    var h, l := x / WORD, x % WORD;
    var m := l / p;
    assert x == h * WORD + l && l == m * p + l % p;
    assert h * (256 * c * p) == (h * 256 * c) * p;
    assert (h * 256 * c + m) * p == (h * 256 * c) * p + m * p;
    ModUnique(x, p, h * 256 * c + m, l % p);
    assert h * 256 * c == 256 * (h * c);
    ModUnique(x / p, 256, h * c + m / 256, m % 256);
  }

  lemma Pow2Zero()
    ensures Pow2(0) == 1
  {
  }

  /** Decode reads four bytes as one word, whatever their signs. */
  lemma DecodedLongValue(b0: JByte, b1: JByte, b2: JByte, b3: JByte)
    ensures DecodedLong(b0, b1, b2, b3)
         == Unsigned(b0) + 0x100 * Unsigned(b1) + 0x1_0000 * Unsigned(b2) + 0x100_0000 * Unsigned(b3)
  {
    hide ByteToLong, Unsigned, LongOp, Wrap64, Pow2;
    Pow2Values();
    ByteToLongIsUnsigned(b0);
    ByteToLongIsUnsigned(b1);
    ByteToLongIsUnsigned(b2);
    ByteToLongIsUnsigned(b3);
    var u0: int, u1: int, u2: int, u3: int := Unsigned(b0), Unsigned(b1), Unsigned(b2), Unsigned(b3);
    OrOfParts(u1, u0, 8, 0x100);
    OrOfParts(u2, u0 + 0x100 * u1, 16, 0x1_0000);
    OrOfParts(u3, u0 + 0x100 * u1 + 0x1_0000 * u2, 24, 0x100_0000);
  }

  lemma OrOfParts(hi: Octet, lo: nat, k: nat, p: nat)
    requires k <= 24 && p == Pow2(k) <= 0x100_0000 && lo < p
    ensures LongOp(OR, lo, Wrap64(hi * p)) == lo + hi * p
  {
    hide *;
    var high := hi * p;
    ByteTimes(hi, p);
    assert high < WORD;
    SmallLong(high);
    SmallLong(lo + high);
    LongOpOfSmall(OR, lo, high);
    Pow2Values();
    OrDisjoint(hi, lo, k, 64);
    BitwiseCommutes(OR, lo, high, 64);
  }

  lemma ByteTimes(hi: Octet, p: nat)
    requires p <= 0x100_0000
    ensures 0 <= hi * p <= WORD - p
  {
    assert (255 - hi) * p >= 0;
    assert 255 * p - hi * p == (255 - hi) * p;
  }

  lemma SmallLong(v: nat)
    requires v < WORD
    ensures Wrap64(v) == v
  {
  }

  lemma LongOpOfSmall(g: Gate, x: JLong, y: JLong)
    requires 0 <= x && 0 <= y
    ensures LongOp(g, x, y) == Wrap64(Bitwise(g, x, y, 64))
  {
    hide Bitwise, Wrap64;
    assert x % TWO_64 == x && y % TWO_64 == y;
  }

  /** Four code steps, each naming the registers by its own roles, are four operations. */
  lemma FourMixings(q: Registers, w: seq<Word>, n: nat, p: Registers, r: Registers)
    requires |w| == 16 && n <= 60 && p == Mixings(q, w, n)
    requires r.a == MixedAt(n, p.a, p.b, p.c, p.d, w)
    requires r.d == MixedAt(n + 1, p.d, r.a, p.b, p.c, w)
    requires r.c == MixedAt(n + 2, p.c, r.d, r.a, p.b, w)
    requires r.b == MixedAt(n + 3, p.b, r.c, r.d, r.a, w)
    ensures r == Mixings(q, w, n + 4)
  {
    hide Mixings, MixedAt;
    MixingStep(q, w, n);
    MixingStep(q, w, n + 1);
    MixingStep(q, w, n + 2);
    MixingStep(q, w, n + 3);
  }

  lemma MixingStep(q: Registers, w: seq<Word>, n: nat)
    requires |w| == 16 && n < 64
    ensures Mixings(q, w, n + 1) == NextLongs(Mixings(q, w, n), w, n)
  {
    hide NextLongs;
  }

  /** The padding between the message and its length. */
  function Padding(n: nat): seq<Octet> {
    [0x80] + Zeros((55 - n) % 64)
  }

  lemma {:induction false} PaddedParts(m: seq<Octet>)
    ensures Padded(m) == m + Padding(|m|) + LittleEndian(8 * |m|, 8)
  {
    hide LittleEndian, Zeros;
    var zeros := Zeros((55 - |m|) % 64);
    assert m + [0x80] + zeros == m + ([0x80] + zeros);
  }

  function CountBytes(c: BitCount): seq<Octet> {
    LittleEndian(Low(c.lo), 4) + LittleEndian(Low(c.hi), 4)
  }

  lemma PaddingBytes(pad: seq<JByte>, n: nat)
    requires |pad| == if n % 64 < 56 then 56 - n % 64 else 120 - n % 64
    requires forall k :: 0 <= k < |pad| ==> pad[k] == if k == 0 then -128 else 0
    ensures UnsignedAll(pad) == Padding(n)
  {
    assert (55 - n) % 64 == |pad| - 1;
  }

  lemma LowBytesOfTwo(s: seq<JLong>)
    requires |s| == 2
    ensures LowBytes(s) == CountBytes(BitCount(s[0], s[1]))
  {
    assert s[..1] == [s[0]] && s[..1][..0] == [];
  }

  lemma {:induction false} LowBytesOfFour(s: seq<JLong>)
    requires |s| == 4
    ensures LowBytes(s) == DigestBytes(LowOf(StateOf(s)))
  {
    hide LittleEndian;
    assert s[..3][..2] == s[..2];
    LowBytesOfTwo(s[..2]);
    assert LowBytes(s[..3]) == LowBytes(s[..2]) + LittleEndian(Low(s[2]), 4);
  }

  lemma InitialLow()
    ensures LowOf(INITIAL_LONGS) == INITIAL
  {
  }

  /** A number cut at byte `a` is written as its low part and then its high part. */
  lemma {:induction false} LittleEndianSplit(v: nat, a: nat, b: nat, high: nat, low: nat)
    requires v == high * Pow2(8 * a) + low && low < Pow2(8 * a)
    ensures LittleEndian(v, a + b) == LittleEndian(low, a) + LittleEndian(high, b)
  {
    if a > 0 {
      var p := Pow2(8 * (a - 1));
      assert Pow2(8 * a) == 256 * p by {
        Pow2Add(8, 8 * (a - 1));
        Pow2Values();
      }
      CutByte(v, high, p, low);
      hide Pow2;
      LittleEndianSplit(v / 256, a - 1, b, high, low / 256);
      hide LittleEndian;
      LittleEndianStep(v, a - 1 + b);
      LittleEndianStep(low, a - 1);
    }
  }

  lemma LittleEndianStep(v: nat, n: nat)
    ensures LittleEndian(v, n + 1) == [v % 256] + LittleEndian(v / 256, n)
  {
  }

  lemma CutByte(v: nat, high: nat, p: nat, low: nat)
    requires v == high * (256 * p) + low && low < 256 * p
    ensures v % 256 == low % 256 && v / 256 == high * p + low / 256 && low / 256 < p
  {
    assert high * (256 * p) == 256 * (high * p);
    ModUnique(v, 256, high * p + low / 256, low % 256);
  }

  lemma {:induction false} CountHigh(len: nat)
    requires len <= MAX_INT
    ensures Low(CountAfter(BitCount(0, 0), len).hi) == (8 * len) / WORD
  {
    hide CountAfter, Wrap32;
    CountStep(BitCount(0, 0), len);
    var q, r := len / 0x2000_0000, len % 0x2000_0000;
    ModUnique(8 * len, WORD, q, 8 * r);
  }

  /** For every `int` length the two counters hold the 64-bit length in bits. */
  lemma CountBytesAreLength(len: nat)
    requires len <= MAX_INT
    ensures CountBytes(CountAfter(BitCount(0, 0), len)) == LittleEndian(8 * len, 8)
  {
    hide LittleEndian, Pow2, Wrap32;
    var c := CountAfter(BitCount(0, 0), len);
    LowOfCountAfter(BitCount(0, 0), 0, len);
    hide Low;
    CountHigh(len);
    assert Low(c.hi) == (8 * len) / WORD;
    hide CountAfter;
    Pow2Values();
    LittleEndianSplit(8 * len, 4, 4, (8 * len) / WORD, Low(8 * len));
  }

  function HexDigit(d: nat): char
    requires d < 16
  {
    "0123456789abcdef"[d]
  }

  function Hex(bytes: seq<Octet>): string {
    if bytes == [] then ""
    else Hex(bytes[..|bytes| - 1]) + [HexDigit(bytes[|bytes| - 1] / 16), HexDigit(bytes[|bytes| - 1] % 16)]
  }

  /** Digits 2i and 2i + 1 are those of byte i: 48 is the code of 0, 97 that of a. */
  lemma {:induction false} HexAsListed(bytes: seq<Octet>, i: nat)
    requires i < |bytes|
    ensures |Hex(bytes)| == 2 * |bytes|
    ensures Hex(bytes)[2 * i] as int == bytes[i] / 16 + if bytes[i] < 160 then 48 else 87
    ensures Hex(bytes)[2 * i + 1] as int == bytes[i] % 16 + if bytes[i] % 16 < 10 then 48 else 87
  {
    var init := bytes[..|bytes| - 1];
    DigitAsListed(bytes[i] / 16);
    DigitAsListed(bytes[i] % 16);
    hide HexDigit;
    if i < |init| {
      HexAsListed(init, i);
    } else {
      HexLength(init);
    }
  }

  lemma {:induction false} HexLength(bytes: seq<Octet>)
    ensures |Hex(bytes)| == 2 * |bytes|
  {
    hide HexDigit;
    if bytes != [] {
      HexLength(bytes[..|bytes| - 1]);
    }
  }

  lemma DigitAsListed(d: nat)
    requires d < 16
    ensures HexDigit(d) as int == d + if d < 10 then 48 else 87
  {
  }

  /** Two upper-case digits: the high nibble after an unsigned shift, then the low one. */
  function ByteHEX(ib: JByte): string {
    ["0123456789ABCDEF"[(Low(ib) / 16) % 16], "0123456789ABCDEF"[Low(ib) % 16]]
  }

  /** `toLowerCase` on hexadecimal digits. */
  function LowerAll(s: string): string {
    seq(|s|, i requires 0 <= i < |s| => if 'A' <= s[i] <= 'F' then s[i] - 'A' + 'a' else s[i])
  }

  /** One more byte adds its two digits. */
  lemma HexStep(bytes: seq<JByte>, upper: string)
    requires bytes != [] && LowerAll(upper) == Hex(UnsignedAll(bytes[..|bytes| - 1]))
    ensures LowerAll(upper + ByteHEX(bytes[|bytes| - 1])) == Hex(UnsignedAll(bytes))
  {
    var b := bytes[|bytes| - 1];
    LowerByteHEX(b);
    assert LowerAll(upper + ByteHEX(b)) == LowerAll(upper) + LowerAll(ByteHEX(b));
    assert UnsignedAll(bytes)[..|bytes| - 1] == UnsignedAll(bytes[..|bytes| - 1]);
  }

  lemma LowerByteHEX(b: JByte)
    ensures LowerAll(ByteHEX(b)) == [HexDigit(Unsigned(b) / 16), HexDigit(Unsigned(b) % 16)]
  {
    Nibbles(b);
    SameDigit(Unsigned(b) / 16);
    SameDigit(Unsigned(b) % 16);
    hide Low, Unsigned, HexDigit;
  }

  /** The sign bits a byte is extended with do not reach its two digits. */
  lemma Nibbles(b: JByte)
    ensures (Low(b) / 16) % 16 == Unsigned(b) / 16 && Low(b) % 16 == Unsigned(b) % 16
  {
    var u: int, k: int := Unsigned(b), if b < 0 then 0xFF_FFFF else 0;
    assert Low(b) == u + 256 * k;
    ModUnique(Low(b), 16, u / 16 + 16 * k, u % 16);
    ModUnique(u / 16 + 16 * k, 16, k, u / 16);
  }

  lemma SameDigit(d: nat)
    requires d < 16
    ensures LowerAll(["0123456789ABCDEF"[d]]) == [HexDigit(d)]
  {
  }

  datatype BitCount = BitCount(lo: JLong, hi: JLong)

  /** The two counters after `len` more bytes; the carry test compares signed longs. */
  function CountAfter(c: BitCount, len: nat): BitCount
    requires len <= MAX_INT
  {
    var bits := Wrap32(len * 8);
    var lo := Wrap64(c.lo + bits);
    var hi := if lo < bits then Wrap64(c.hi + 1) else c.hi;
    BitCount(lo, Wrap64(hi + len / 0x2000_0000))
  }

  /** The bytes that do not fill a block yet. */
  function Pending(data: seq<Octet>): seq<Octet> {
    data[|data| - |data| % 64..]
  }

  lemma LowOfCountAfter(c: BitCount, n: nat, len: nat)
    requires len <= MAX_INT && Low(c.lo) == Low(8 * n)
    ensures Low(CountAfter(c, len).lo) == Low(8 * (n + len))
  {
    hide Wrap32, Wrap64, Low;
    LowOfWrap64(c.lo + Wrap32(len * 8));
    LowOfWrap32(len * 8);
    LowOfSum(c.lo, Wrap32(len * 8));
    LowOfSum(8 * n, 8 * len);
  }

  /** The position in the buffer, read off the bit count. */
  lemma IndexValue(c: JLong, n: nat)
    requires Low(c) == Low(8 * n)
    ensures IntOp(AND, Wrap32(ShiftRight(c, 3)), 0x3F) == n % 64
  {
    hide Bitwise, Pow2, Wrap32;
    Pow2Values();
    var y := (c % TWO_64) / 8;
    LowOfWrap32(y);
    AndMask(Low(Wrap32(y)), 6, 32);
    ModOfMod(y, 64, 0x400_0000);
    hide Low;
    PositionInBlock(c, n);
    SmallInt(n % 64);
  }

  lemma PositionInBlock(c: JLong, n: nat)
    requires Low(c) == Low(8 * n)
    ensures ((c % TWO_64) / 8) % 64 == n % 64
  {
    var x := c % TWO_64;
    var r := x % 512;
    assert r == (8 * n) % 512 by {
      ModOfMod(c, 512, 0x80_0000);
      ModOfMod(8 * n, 512, 0x80_0000);
      ModOfMod(c, 512, 0x80_0000_0000_0000);
    }
    ModUnique(8 * n, 512, n / 64, 8 * (n % 64));
    ModUnique(x / 8, 64, x / 512, r / 8);
  }

  lemma SmallInt(v: nat)
    requires v < 256
    ensures Wrap32(v) == v
  {
  }

  /** What a copy of part of `src` behind `head` reads as. */
  lemma UnsignedSplice(head: seq<JByte>, src: seq<JByte>, from: nat, len: nat, whole: seq<JByte>)
    requires from + len <= |src| && whole == head + src[from..from + len]
    ensures UnsignedAll(whole) == UnsignedAll(head) + UnsignedAll(src)[from..from + len]
  {
  }

  lemma UnsignedSlice(src: seq<JByte>, from: nat, len: nat, whole: seq<JByte>)
    requires from + len <= |src| && whole == src[from..from + len]
    ensures UnsignedAll(whole) == UnsignedAll(src)[from..from + len]
  {
  }

  /** The position behind the last whole block is so near the greatest `int` that the loop test wraps around. */
  predicate Overruns(index: nat, inputLen: nat) {
    inputLen >= 64 - index && inputLen - (index + inputLen) % 64 > MAX_INT - 63
  }

  /** The loop test, on `int`: it is also passed where the sum wraps around. */
  lemma LoopTest(i: nat, index: nat, inputLen: nat)
    requires 0 < i <= inputLen <= MAX_INT && index < 64 && Aligned(i + index)
    ensures Wrap32(i + 63) < inputLen <==> i + 63 < inputLen || i + 63 > MAX_INT
    ensures i + 63 >= inputLen && inputLen >= 64 - index ==> (i + 63 > MAX_INT <==> Overruns(index, inputLen))
  {
    if i + 63 >= inputLen {
      ModUnique(index + inputLen, 64, (i + index) / 64, inputLen - i);
    }
  }

  lemma Completed(n: nat)
    ensures Aligned(n + (64 - InBlock(n))) && Aligned(64)
  {
    ModUnique(n + (64 - n % 64), 64, n / 64 + 1, 0);
  }

  lemma NextBlock(n: nat)
    requires Aligned(n)
    ensures Aligned(n + 64)
  {
  }

  /** An update that starts a block never gets there. */
  lemma NeverOverruns(inputLen: nat)
    requires inputLen <= MAX_INT
    ensures !Overruns(0, inputLen)
    ensures inputLen <= MAX_INT - 63 ==> forall index: nat :: index < 64 ==> !Overruns(index, inputLen)
  {
  }

  /** Bytes that complete the pending block absorb it. */
  lemma FillPending(q: Registers, before: seq<Octet>, more: seq<Octet>)
    requires |before| % 64 + |more| == 64
    ensures AbsorbLongs(q, before + more) == Transformed(AbsorbLongs(q, before), BlockWords(Pending(before) + more))
  {
    var cut := |before| - |before| % 64;
    var block := Pending(before) + more;
    assert before == before[..cut] + Pending(before) && before + more == before[..cut] + block;
    AbsorbLongsAppend(q, before[..cut], Pending(before));
    AbsorbLongsAppend(q, before[..cut], block);
    OneBlock(AbsorbLongs(q, before[..cut]), block);
  }

  lemma OneBlock(q: Registers, block: seq<Octet>)
    requires |block| == 64
    ensures AbsorbLongs(q, block) == Transformed(q, BlockWords(block))
  {
    hide Transformed, BlockWords;
    assert block[..64] == block && block[64..] == [];
  }

  predicate Aligned(n: nat) {
    n % 64 == 0
  }

  /** How many of n bytes do not fill a block. */
  function InBlock(n: nat): (index: nat)
    ensures index < 64
  {
    n % 64
  }

  lemma AppendBlock(q: Registers, before: seq<Octet>, data: seq<Octet>, i: nat)
    requires i + 64 <= |data| && Aligned(|before| + i)
    ensures AbsorbLongs(q, before + data[..i + 64])
         == Transformed(AbsorbLongs(q, before + data[..i]), BlockWords(data[i..i + 64]))
  {
    assert before + data[..i + 64] == before + data[..i] + data[i..i + 64];
    AbsorbLongsAppend(q, before + data[..i], data[i..i + 64]);
    OneBlock(AbsorbLongs(q, before + data[..i]), data[i..i + 64]);
  }

  /** Bytes after the last whole block do not reach the state; they are what is pending. */
  lemma WholeBlocks(q: Registers, before: seq<Octet>, data: seq<Octet>, i: nat)
    requires i <= |data| < i + 64 && Aligned(|before| + i)
    ensures AbsorbLongs(q, before + data) == AbsorbLongs(q, before + data[..i])
    ensures |before + data| % 64 == |data| - i && Pending(before + data) == data[i..]
  {
    assert before + data == before + data[..i] + data[i..];
    AbsorbLongsAppend(q, before + data[..i], data[i..]);
    ModUnique(|before + data|, 64, (|before| + i) / 64, |data| - i);
  }

  lemma NothingTaken(before: seq<Octet>, all: seq<Octet>)
    ensures before + all[..0] == before
  {
  }

  /** What Update copies last is what is pending then; the state has absorbed all before it. */
  lemma RestIsPending(q: Registers, before: seq<Octet>, src: seq<JByte>, inputLen: nat, i: nat, filled: seq<JByte>,
                      buf: seq<JByte>)
    requires i <= inputLen <= |src| && buf == filled + src[i..inputLen]
    requires if i > 0 then filled == [] && inputLen < i + 64 && Aligned(|before| + i)
             else |filled| == |before| % 64 && |filled| + inputLen < 64 && UnsignedAll(filled) == Pending(before)
    ensures var data := before + UnsignedAll(src[..inputLen]);
            && |data| % 64 == |buf| && UnsignedAll(buf) == Pending(data)
            && AbsorbLongs(q, data) == AbsorbLongs(q, before + UnsignedAll(src)[..i])
  {
    hide AbsorbLongs, UnsignedAll, Pending;
    var all := UnsignedAll(src);
    UnsignedPrefix(src, inputLen);
    UnsignedSplice(filled, src[..inputLen], i, inputLen - i, buf);
    assert all[..inputLen][..i] == all[..i] && src[..inputLen][i..inputLen] == src[i..inputLen];
    if i > 0 {
      WholeBlocks(q, before, all[..inputLen], i);
      assert UnsignedAll(filled) + all[..inputLen][i..] == all[..inputLen][i..];
    } else {
      NoBlock(q, before, all[..inputLen]);
      NothingTaken(before, all);
    }
  }

  lemma NoBlock(q: Registers, before: seq<Octet>, data: seq<Octet>)
    requires |before| % 64 + |data| < 64
    ensures AbsorbLongs(q, before + data) == AbsorbLongs(q, before)
    ensures |before + data| % 64 == |before| % 64 + |data| && Pending(before + data) == Pending(before) + data
  {
    var cut := |before| - |before| % 64;
    assert before == before[..cut] + Pending(before) && before + data == before[..cut] + (Pending(before) + data);
    AbsorbLongsAppend(q, before[..cut], Pending(before));
    AbsorbLongsAppend(q, before[..cut], Pending(before) + data);
    ModUnique(|before + data|, 64, cut / 64, |before| % 64 + |data|);
  }

  const S11 := 7
  const S12 := 12
  const S13 := 17
  const S14 := 22
  const S21 := 5
  const S22 := 9
  const S23 := 14
  const S24 := 20
  const S31 := 4
  const S32 := 11
  const S33 := 16
  const S34 := 23
  const S41 := 6
  const S42 := 10
  const S43 := 15
  const S44 := 21

  class Md5 {
    const state: array<JLong>
    const count: array<JLong>
    const buffer: array<JByte>
    const digest: array<JByte>
    /** All bytes given to Update since Init. */
    ghost var absorbed: seq<Octet>

    ghost predicate Shape()
      reads this
    {
      && state.Length == 4 && count.Length == 2 && buffer.Length == 64 && digest.Length == 16
      && state != count && buffer != digest
    }

    /** State, bit count and pending bytes are those of the bytes absorbed so far. */
    ghost predicate Valid()
      reads this, state, count, buffer
    {
      && Shape()
      && HasAbsorbed(absorbed)
      && Low(count[0]) == Low(8 * |absorbed|)
      && UnsignedAll(buffer[..|absorbed| % 64]) == Pending(absorbed)
    }

    /** The state is that of these bytes, those of a last block that is not full left out. */
    ghost predicate HasAbsorbed(data: seq<Octet>)
      reads state
    {
      state.Length == 4 && StateOf(state[..]) == AbsorbLongs(INITIAL_LONGS, data)
    }

    ghost function Counts(): BitCount
      reads this, count
      requires count.Length == 2
    {
      BitCount(count[0], count[1])
    }

    constructor ()
      ensures Valid() && absorbed == [] && Counts() == BitCount(0, 0)
      ensures fresh(state) && fresh(count) && fresh(buffer) && fresh(digest)
    {
      state := new JLong[4];
      count := new JLong[2];
      buffer := new JByte[64];
      digest := new JByte[16];
      new;
      Init();
    }

    method Init()
      requires Shape()
      modifies this, state, count
      ensures Valid() && absorbed == [] && Counts() == BitCount(0, 0)
    {
      count[0], count[1] := 0, 0;
      state[0] := 0x67452301;
      state[1] := 0xefcdab89;
      state[2] := 0x98badcfe;
      state[3] := 0x10325476;
      absorbed := [];
    }

    /**
     * False stands for ArrayIndexOutOfBoundsException: the input is shorter than the length given, or bytes are pending
     * and the length is so near the greatest `int` that the loop runs on past its end.
     */
    method Update(inbuf: array<JByte>, inputLen: nat) returns (ok: bool)
      requires Valid() && inbuf != buffer && inputLen <= MAX_INT && inbuf.Length <= MAX_INT
      modifies this, state, count, buffer
      ensures Shape() && (ok <==> inputLen <= inbuf.Length && !Overruns(|old(absorbed)| % 64, inputLen))
      ensures ok ==> Valid() && absorbed == old(absorbed) + UnsignedAll(inbuf[..inputLen])
      ensures ok ==> Counts() == CountAfter(old(Counts()), inputLen)
    {
      hide AbsorbLongs, UnsignedAll, Pending, Low, CountAfter, IntOp, ShiftRight, Wrap32, Overruns;
      IndexValue(count[0], |absorbed|);
      var index: nat := IntOp(AND, Wrap32(ShiftRight(count[0], 3)), 0x3F);
      LowOfCountAfter(Counts(), |absorbed|, inputLen);
      AddToCount(inputLen);
      ok := UpdateBuffer(inbuf, inputLen, index, absorbed);
      if ok {
        absorbed := absorbed + UnsignedAll(inbuf[..inputLen]);
      }
    }

    /** Update after the bit count: transforms as many blocks as there are and keeps the rest. */
    method UpdateBuffer(inbuf: array<JByte>, inputLen: nat, index: nat, ghost before: seq<Octet>) returns (ok: bool)
      requires Shape() && inbuf != buffer && inputLen <= MAX_INT && inbuf.Length <= MAX_INT
      requires index == InBlock(|before|)
      requires HasAbsorbed(before)
      requires UnsignedAll(buffer[..index]) == Pending(before)
      modifies state, buffer
      ensures ok <==> inputLen <= inbuf.Length && !Overruns(index, inputLen)
      ensures ok ==> HasAbsorbed(before + UnsignedAll(inbuf[..inputLen]))
      ensures ok ==> (var data := before + UnsignedAll(inbuf[..inputLen]);
                      UnsignedAll(buffer[..|data| % 64]) == Pending(data))
    {
      assert buffer.Length == 64;
      hide *;
      var block := new JByte[64];
      var partLen: nat, i: nat, at := 64 - index, 0, index;
      if inputLen >= partLen {
        ok, i := TakeBlocks(inbuf, inputLen, index, partLen, block, before);
        if !ok {
          return;
        }
        at := 0;
      } else {
        ShortInput(index, inputLen);
        NothingTaken(before, UnsignedAll(inbuf[..]));
      }
      ghost var filled := buffer[..at];
      ok := Memcpy(buffer, inbuf, at, i, inputLen - i);
      if ok {
        RestIsPending(INITIAL_LONGS, before, inbuf[..], inputLen, i, filled, buffer[..at + (inputLen - i)]);
      }
    }

    /** Update where a block can be completed: that one, and all whole blocks behind it. */
    method TakeBlocks(inbuf: array<JByte>, inputLen: nat, index: nat, partLen: nat, block: array<JByte>,
                      ghost before: seq<Octet>)
      returns (ok: bool, i: nat)
      requires Shape() && inbuf != buffer && block.Length == 64 && block != inbuf
      requires index == InBlock(|before|) && index + partLen == 64
      requires partLen <= inputLen <= MAX_INT && inbuf.Length <= MAX_INT
      requires HasAbsorbed(before)
      requires UnsignedAll(buffer[..index]) == Pending(before)
      modifies state, buffer, block
      ensures ok ==> !Overruns(index, inputLen)
      ensures !ok ==> inputLen > inbuf.Length || Overruns(index, inputLen)
      ensures ok ==> 0 < i <= inputLen < i + 64 && i <= inbuf.Length && Aligned(|before| + i)
      ensures ok ==> HasAbsorbed(before + UnsignedAll(inbuf[..])[..i])
    {
      assert state.Length == 4;
      hide *;
      i := 0;
      ok := CompleteBlock(inbuf, index, partLen, before);
      if ok {
        Completed(|before|);
        ok, i := UpdateBlocks(inbuf, inputLen, partLen, block, index, before);
      }
    }

    /** The first bytes of the input complete the pending block. */
    method CompleteBlock(inbuf: array<JByte>, index: nat, partLen: nat, ghost before: seq<Octet>) returns (ok: bool)
      requires Shape() && inbuf != buffer && index == InBlock(|before|) && index + partLen == 64
      requires HasAbsorbed(before)
      requires UnsignedAll(buffer[..index]) == Pending(before)
      modifies state, buffer
      ensures ok <==> partLen <= inbuf.Length
      ensures ok ==> HasAbsorbed(before + UnsignedAll(inbuf[..])[..partLen])
    {
      hide AbsorbLongs, Transformed, BlockWords, UnsignedAll, Pending;
      ok := Memcpy(buffer, inbuf, index, 0, partLen);
      if ok {
        UnsignedSplice(old(buffer[..index]), inbuf[..], 0, partLen, buffer[..]);
        Transform(buffer);
        FillPending(INITIAL_LONGS, before, UnsignedAll(inbuf[..])[..partLen]);
      }
    }

    /** The loop of Update: every whole block after the pending one has been completed. */
    method UpdateBlocks(inbuf: array<JByte>, inputLen: nat, partLen: nat, block: array<JByte>, ghost index: nat,
                        ghost before: seq<Octet>)
      returns (ok: bool, i: nat)
      requires state.Length == 4 && block.Length == 64 && block != inbuf
      requires index < 64 && index + partLen == 64
      requires partLen <= inputLen <= MAX_INT && partLen <= inbuf.Length <= MAX_INT
      requires Aligned(|before| + partLen)
      requires HasAbsorbed(before + UnsignedAll(inbuf[..])[..partLen])
      modifies state, block
      ensures ok ==> !Overruns(index, inputLen)
      ensures !ok ==> inputLen > inbuf.Length || Overruns(index, inputLen)
      ensures ok ==> 0 < i <= inputLen < i + 64 && i <= inbuf.Length && Aligned(|before| + i)
      ensures ok ==> HasAbsorbed(before + UnsignedAll(inbuf[..])[..i])
    {
      hide *;
      ok, i := true, partLen;
      Completed(0);
      LoopTest(i, index, inputLen);
      while Wrap32(i + 63) < inputLen
        invariant ok && partLen <= i <= inputLen && i <= inbuf.Length
        invariant Aligned(|before| + i) && Aligned(i + index)
        invariant Wrap32(i + 63) < inputLen <==> i + 63 < inputLen || i + 63 > MAX_INT
        invariant i + 63 >= inputLen ==> (i + 63 > MAX_INT <==> Overruns(index, inputLen))
        invariant HasAbsorbed(before + UnsignedAll(inbuf[..])[..i])
        decreases inbuf.Length - i
      {
        ok := UpdateBlock(inbuf, i, block, before);
        if !ok {
          return;
        }
        NextBlock(|before| + i);
        NextBlock(i + index);
        i := i + 64;
        LoopTest(i, index, inputLen);
      }
    }

    /** The body of that loop. */
    method UpdateBlock(inbuf: array<JByte>, i: nat, block: array<JByte>, ghost before: seq<Octet>) returns (ok: bool)
      requires state.Length == 4 && block.Length == 64 && block != inbuf
      requires i <= inbuf.Length && Aligned(|before| + i)
      requires HasAbsorbed(before + UnsignedAll(inbuf[..])[..i])
      modifies state, block
      ensures ok <==> i + 64 <= inbuf.Length
      ensures ok ==> HasAbsorbed(before + UnsignedAll(inbuf[..])[..i + 64])
    {
      hide AbsorbLongs, Transformed, BlockWords, UnsignedAll, Aligned;
      ok := Memcpy(block, inbuf, 0, i, 64);
      if ok {
        assert block[..] == inbuf[i..i + 64];
        UnsignedSlice(inbuf[..], i, 64, block[..]);
        Transform(block);
        AppendBlock(INITIAL_LONGS, before, UnsignedAll(inbuf[..]), i);
      }
    }

    /** Two updates in a row; see TwoUpdatesLikeOne for how they compare with one. */
    method UpdateTwice(first: array<JByte>, second: array<JByte>) returns (ok: bool)
      requires Valid() && first != buffer && second != buffer && first.Length <= MAX_INT && second.Length <= MAX_INT
      modifies this, state, count, buffer
      ensures ok <==> !Overruns(|old(absorbed)| % 64, first.Length)
                      && !Overruns((|old(absorbed)| + first.Length) % 64, second.Length)
      ensures ok ==> Valid() && absorbed == old(absorbed) + UnsignedAll(first[..] + second[..])
      ensures ok ==> Counts() == CountAfter(CountAfter(old(Counts()), first.Length), second.Length)
    {
      hide AbsorbLongs, UnsignedAll, Pending, CountAfter, Low, Transformed, Overruns;
      assert first[..first.Length] == first[..] && second[..second.Length] == second[..];
      UnsignedConcat(first[..], second[..]);
      ok := Update(first, first.Length);
      if ok {
        ok := Update(second, second.Length);
      }
    }

    method Final()
      requires Valid()
      modifies this, state, count, buffer, digest
      ensures Shape()
      ensures UnsignedAll(digest[..])
           == DigestBytes(Absorb(INITIAL, old(absorbed) + Padding(|old(absorbed)|) + CountBytes(old(Counts()))))
    {
      hide AbsorbLongs, Absorb, UnsignedAll, Pending, Low, CountAfter, IntOp, ShiftRight, Wrap32, LowBytes,
           LittleEndian, Overruns;
      var bits := new JByte[8];
      Encode(bits, count, 8);
      ghost var m, tail := absorbed, CountBytes(Counts());
      LowBytesOfTwo(count[..]);
      IndexValue(count[0], |absorbed|);
      var index: nat := IntOp(AND, Wrap32(ShiftRight(count[0], 3)), 0x3F);
      var padLen := if index < 56 then 56 - index else 120 - index;
      var padding := new JByte[64](k => if k == 0 then -128 else 0);
      PaddingBytes(padding[..padLen], |m|);
      NeverOverruns(padLen);
      NeverOverruns(8);
      var ok := Update(padding, padLen);
      assert bits[..8] == bits[..];
      ok := Update(bits, 8);
      Encode(digest, state, 16);
      LowBytesOfFour(state[..]);
      AbsorbLongsRefinesAbsorb(INITIAL_LONGS, m + Padding(|m|) + tail);
      InitialLow();
    }

    /**
     * The digest of the first `charCount` bytes, in lower-case hexadecimal. Where an encoding has fewer bytes than the
     * string has characters, it reads beyond them: None stands for ArrayIndexOutOfBoundsException.
     */
    method GetMD5ofStr(inbuf: array<JByte>, charCount: nat) returns (digestHexStr: Option<string>)
      requires Shape() && inbuf != buffer && inbuf != digest
      requires charCount <= MAX_INT && inbuf.Length <= MAX_INT
      modifies this, state, count, buffer, digest
      ensures Shape()
      ensures digestHexStr
           == if charCount <= inbuf.Length then Some(Hex(Digest(UnsignedAll(inbuf[..charCount])))) else None
    {
      hide Absorb, UnsignedAll, DigestBytes, CountAfter, CountBytes, Hex, AbsorbLongs, Pending, Padding, Low, StateOf,
        Overruns;
      Init();
      NeverOverruns(charCount);
      var ok := Update(inbuf, charCount);
      if !ok {
        return None;
      }
      ghost var m := UnsignedAll(inbuf[..charCount]);
      assert absorbed == m;
      CountBytesAreLength(charCount);
      Final();
      PaddedParts(m);
      var hex := DigestHex();
      return Some(hex);
    }

    method DigestHex() returns (digestHexStr: string)
      requires Shape()
      ensures digestHexStr == Hex(UnsignedAll(digest[..]))
    {
      var upper := "";
      var i := 0;
      while i < 16
        invariant 0 <= i <= 16
        invariant LowerAll(upper) == Hex(UnsignedAll(digest[..i]))
      {
        hide LowerAll, Hex, UnsignedAll, ByteHEX;
        assert digest[..i + 1][..i] == digest[..i];
        HexStep(digest[..i + 1], upper);
        upper := upper + ByteHEX(digest[i]);
        i := i + 1;
      }
      assert digest[..16] == digest[..];
      digestHexStr := LowerAll(upper);
    }

    method AddToCount(inputLen: nat)
      requires count.Length == 2 && inputLen <= MAX_INT
      modifies count
      ensures Counts() == CountAfter(old(Counts()), inputLen)
    {
      var bits := Wrap32(inputLen * 8);
      count[0] := Wrap64(count[0] as int + bits);
      if count[0] < bits {
        count[1] := Wrap64(count[1] as int + 1);
      }
      count[1] := Wrap64(count[1] as int + inputLen / 0x2000_0000);
    }

    method FF(a0: JLong, b: JLong, c: JLong, d: JLong, x: JLong, s: nat, ac: JLong) returns (a: JLong)
      requires 0 < s < 32
      ensures a == Mixed(F, a0, b, c, d, x, s, ac)
    {
      hide Wrap64, Rotated, FnF;
      a := Wrap64(a0 + FnF(b, c, d) + x + ac);
      a := Rotated(a, s);
      a := Wrap64(a + b);
    }

    method GG(a0: JLong, b: JLong, c: JLong, d: JLong, x: JLong, s: nat, ac: JLong) returns (a: JLong)
      requires 0 < s < 32
      ensures a == Mixed(G, a0, b, c, d, x, s, ac)
    {
      hide Wrap64, Rotated, FnG;
      a := Wrap64(a0 + FnG(b, c, d) + x + ac);
      a := Rotated(a, s);
      a := Wrap64(a + b);
    }

    method HH(a0: JLong, b: JLong, c: JLong, d: JLong, x: JLong, s: nat, ac: JLong) returns (a: JLong)
      requires 0 < s < 32
      ensures a == Mixed(H, a0, b, c, d, x, s, ac)
    {
      hide Wrap64, Rotated, FnH;
      a := Wrap64(a0 + FnH(b, c, d) + x + ac);
      a := Rotated(a, s);
      a := Wrap64(a + b);
    }

    method II(a0: JLong, b: JLong, c: JLong, d: JLong, x: JLong, s: nat, ac: JLong) returns (a: JLong)
      requires 0 < s < 32
      ensures a == Mixed(I, a0, b, c, d, x, s, ac)
    {
      hide Wrap64, Rotated, FnI;
      a := Wrap64(a0 + FnI(b, c, d) + x + ac);
      a := Rotated(a, s);
      a := Wrap64(a + b);
    }

    method Round1(x: array<JLong>, a0: JLong, b0: JLong, c0: JLong, d0: JLong, ghost q: Registers, ghost w: seq<Word>)
      returns (a: JLong, b: JLong, c: JLong, d: JLong)
      requires |w| == 16 && x[..] == w && Registers(a0, b0, c0, d0) == Mixings(q, w, 0)
      ensures Registers(a, b, c, d) == Mixings(q, w, 16)
    {
      hide Mixings, Mixed;
      a, b, c, d := a0, b0, c0, d0;
      ghost var p0 := Registers(a, b, c, d);
      a := FF(a, b, c, d, x[0], S11, 0xd76aa478);
      d := FF(d, a, b, c, x[1], S12, 0xe8c7b756);
      c := FF(c, d, a, b, x[2], S13, 0x242070db);
      b := FF(b, c, d, a, x[3], S14, 0xc1bdceee);
      FourMixings(q, w, 0, p0, Registers(a, b, c, d));
      ghost var p1 := Registers(a, b, c, d);
      a := FF(a, b, c, d, x[4], S11, 0xf57c0faf);
      d := FF(d, a, b, c, x[5], S12, 0x4787c62a);
      c := FF(c, d, a, b, x[6], S13, 0xa8304613);
      b := FF(b, c, d, a, x[7], S14, 0xfd469501);
      FourMixings(q, w, 4, p1, Registers(a, b, c, d));
      ghost var p2 := Registers(a, b, c, d);
      a := FF(a, b, c, d, x[8], S11, 0x698098d8);
      d := FF(d, a, b, c, x[9], S12, 0x8b44f7af);
      c := FF(c, d, a, b, x[10], S13, 0xffff5bb1);
      b := FF(b, c, d, a, x[11], S14, 0x895cd7be);
      FourMixings(q, w, 8, p2, Registers(a, b, c, d));
      ghost var p3 := Registers(a, b, c, d);
      a := FF(a, b, c, d, x[12], S11, 0x6b901122);
      d := FF(d, a, b, c, x[13], S12, 0xfd987193);
      c := FF(c, d, a, b, x[14], S13, 0xa679438e);
      b := FF(b, c, d, a, x[15], S14, 0x49b40821);
      FourMixings(q, w, 12, p3, Registers(a, b, c, d));
    }

    method Round2(x: array<JLong>, a0: JLong, b0: JLong, c0: JLong, d0: JLong, ghost q: Registers, ghost w: seq<Word>)
      returns (a: JLong, b: JLong, c: JLong, d: JLong)
      requires |w| == 16 && x[..] == w && Registers(a0, b0, c0, d0) == Mixings(q, w, 16)
      ensures Registers(a, b, c, d) == Mixings(q, w, 32)
    {
      hide Mixings, Mixed;
      a, b, c, d := a0, b0, c0, d0;
      ghost var p0 := Registers(a, b, c, d);
      a := GG(a, b, c, d, x[1], S21, 0xf61e2562);
      d := GG(d, a, b, c, x[6], S22, 0xc040b340);
      c := GG(c, d, a, b, x[11], S23, 0x265e5a51);
      b := GG(b, c, d, a, x[0], S24, 0xe9b6c7aa);
      FourMixings(q, w, 16, p0, Registers(a, b, c, d));
      ghost var p1 := Registers(a, b, c, d);
      a := GG(a, b, c, d, x[5], S21, 0xd62f105d);
      d := GG(d, a, b, c, x[10], S22, 0x02441453);
      c := GG(c, d, a, b, x[15], S23, 0xd8a1e681);
      b := GG(b, c, d, a, x[4], S24, 0xe7d3fbc8);
      FourMixings(q, w, 20, p1, Registers(a, b, c, d));
      ghost var p2 := Registers(a, b, c, d);
      a := GG(a, b, c, d, x[9], S21, 0x21e1cde6);
      d := GG(d, a, b, c, x[14], S22, 0xc33707d6);
      c := GG(c, d, a, b, x[3], S23, 0xf4d50d87);
      b := GG(b, c, d, a, x[8], S24, 0x455a14ed);
      FourMixings(q, w, 24, p2, Registers(a, b, c, d));
      ghost var p3 := Registers(a, b, c, d);
      a := GG(a, b, c, d, x[13], S21, 0xa9e3e905);
      d := GG(d, a, b, c, x[2], S22, 0xfcefa3f8);
      c := GG(c, d, a, b, x[7], S23, 0x676f02d9);
      b := GG(b, c, d, a, x[12], S24, 0x8d2a4c8a);
      FourMixings(q, w, 28, p3, Registers(a, b, c, d));
    }

    method Round3(x: array<JLong>, a0: JLong, b0: JLong, c0: JLong, d0: JLong, ghost q: Registers, ghost w: seq<Word>)
      returns (a: JLong, b: JLong, c: JLong, d: JLong)
      requires |w| == 16 && x[..] == w && Registers(a0, b0, c0, d0) == Mixings(q, w, 32)
      ensures Registers(a, b, c, d) == Mixings(q, w, 48)
    {
      hide Mixings, Mixed;
      a, b, c, d := a0, b0, c0, d0;
      ghost var p0 := Registers(a, b, c, d);
      a := HH(a, b, c, d, x[5], S31, 0xfffa3942);
      d := HH(d, a, b, c, x[8], S32, 0x8771f681);
      c := HH(c, d, a, b, x[11], S33, 0x6d9d6122);
      b := HH(b, c, d, a, x[14], S34, 0xfde5380c);
      FourMixings(q, w, 32, p0, Registers(a, b, c, d));
      ghost var p1 := Registers(a, b, c, d);
      a := HH(a, b, c, d, x[1], S31, 0xa4beea44);
      d := HH(d, a, b, c, x[4], S32, 0x4bdecfa9);
      c := HH(c, d, a, b, x[7], S33, 0xf6bb4b60);
      b := HH(b, c, d, a, x[10], S34, 0xbebfbc70);
      FourMixings(q, w, 36, p1, Registers(a, b, c, d));
      ghost var p2 := Registers(a, b, c, d);
      a := HH(a, b, c, d, x[13], S31, 0x289b7ec6);
      d := HH(d, a, b, c, x[0], S32, 0xeaa127fa);
      c := HH(c, d, a, b, x[3], S33, 0xd4ef3085);
      b := HH(b, c, d, a, x[6], S34, 0x04881d05);
      FourMixings(q, w, 40, p2, Registers(a, b, c, d));
      ghost var p3 := Registers(a, b, c, d);
      a := HH(a, b, c, d, x[9], S31, 0xd9d4d039);
      d := HH(d, a, b, c, x[12], S32, 0xe6db99e5);
      c := HH(c, d, a, b, x[15], S33, 0x1fa27cf8);
      b := HH(b, c, d, a, x[2], S34, 0xc4ac5665);
      FourMixings(q, w, 44, p3, Registers(a, b, c, d));
    }

    method Round4(x: array<JLong>, a0: JLong, b0: JLong, c0: JLong, d0: JLong, ghost q: Registers, ghost w: seq<Word>)
      returns (a: JLong, b: JLong, c: JLong, d: JLong)
      requires |w| == 16 && x[..] == w && Registers(a0, b0, c0, d0) == Mixings(q, w, 48)
      ensures Registers(a, b, c, d) == Mixings(q, w, 64)
    {
      hide Mixings, Mixed;
      a, b, c, d := a0, b0, c0, d0;
      ghost var p0 := Registers(a, b, c, d);
      a := II(a, b, c, d, x[0], S41, 0xf4292244);
      d := II(d, a, b, c, x[7], S42, 0x432aff97);
      c := II(c, d, a, b, x[14], S43, 0xab9423a7);
      b := II(b, c, d, a, x[5], S44, 0xfc93a039);
      FourMixings(q, w, 48, p0, Registers(a, b, c, d));
      ghost var p1 := Registers(a, b, c, d);
      a := II(a, b, c, d, x[12], S41, 0x655b59c3);
      d := II(d, a, b, c, x[3], S42, 0x8f0ccc92);
      c := II(c, d, a, b, x[10], S43, 0xffeff47d);
      b := II(b, c, d, a, x[1], S44, 0x85845dd1);
      FourMixings(q, w, 52, p1, Registers(a, b, c, d));
      ghost var p2 := Registers(a, b, c, d);
      a := II(a, b, c, d, x[8], S41, 0x6fa87e4f);
      d := II(d, a, b, c, x[15], S42, 0xfe2ce6e0);
      c := II(c, d, a, b, x[6], S43, 0xa3014314);
      b := II(b, c, d, a, x[13], S44, 0x4e0811a1);
      FourMixings(q, w, 56, p2, Registers(a, b, c, d));
      ghost var p3 := Registers(a, b, c, d);
      a := II(a, b, c, d, x[4], S41, 0xf7537e82);
      d := II(d, a, b, c, x[11], S42, 0xbd3af235);
      c := II(c, d, a, b, x[2], S43, 0x2ad7d2bb);
      b := II(b, c, d, a, x[9], S44, 0xeb86d391);
      FourMixings(q, w, 60, p3, Registers(a, b, c, d));
    }

    /** False stands for ArrayIndexOutOfBoundsException. */
    method Memcpy(output: array<JByte>, input: array<JByte>, outpos: nat, inpos: nat, len: nat) returns (ok: bool)
      requires output != input && outpos <= output.Length && inpos <= input.Length
      modifies output
      ensures ok <==> outpos + len <= output.Length && inpos + len <= input.Length
      ensures ok ==> output[..] == old(output[..outpos]) + input[inpos..inpos + len] + old(output[outpos + len..])
    {
      var i := 0;
      while i < len
        invariant 0 <= i <= len && outpos + i <= output.Length && inpos + i <= input.Length
        invariant forall k :: 0 <= k < output.Length ==>
                    output[k] == if outpos <= k < outpos + i then input[inpos + k - outpos] else old(output[k])
      {
        if outpos + i >= output.Length || inpos + i >= input.Length {
          return false;
        }
        output[outpos + i] := input[inpos + i];
        i := i + 1;
      }
      Spliced(old(output[..]), output[..], input[..], outpos, inpos, len);
      return true;
    }

    method Decode(output: array<JLong>, input: array<JByte>)
      requires output.Length == 16 && input.Length == 64
      modifies output
      ensures output[..] == BlockWords(UnsignedAll(input[..]))
    {
      hide *;
      var i, j := 0, 0;
      while j < 64
        invariant 0 <= i <= 16 && j == 4 * i
        invariant forall k :: 0 <= k < i ==> output[k] == BlockWords(UnsignedAll(input[..]))[k]
      {
        WordOfBlock(input[..], i);
        output[i] := DecodedLong(input[j], input[j + 1], input[j + 2], input[j + 3]);
        i, j := i + 1, j + 4;
      }
    }

    method Transform(block: array<JByte>)
      requires state.Length == 4 && block.Length == 64
      modifies state
      ensures StateOf(state[..]) == Transformed(StateOf(old(state[..])), BlockWords(UnsignedAll(block[..])))
    {
      hide Mixings;
      var a, b, c, d := state[0], state[1], state[2], state[3];
      ghost var q := Registers(a, b, c, d);
      var x := new JLong[16];
      Decode(x, block);
      ghost var w := BlockWords(UnsignedAll(block[..]));
      NoMixings(q, w);
      a, b, c, d := Round1(x, a, b, c, d, q, w);
      a, b, c, d := Round2(x, a, b, c, d, q, w);
      a, b, c, d := Round3(x, a, b, c, d, q, w);
      a, b, c, d := Round4(x, a, b, c, d, q, w);
      hide Wrap64;
      state[0] := Wrap64(state[0] as int + a);
      state[1] := Wrap64(state[1] as int + b);
      state[2] := Wrap64(state[2] as int + c);
      state[3] := Wrap64(state[3] as int + d);
    }

    /** The body of the loop of Encode: one long. */
    method EncodeLong(output: array<JByte>, x: JLong, j: nat)
      requires j + 4 <= output.Length
      modifies output
      ensures output[..j] == old(output[..j]) && UnsignedAll(output[j..j + 4]) == LittleEndian(Low(x), 4)
    {
      hide *;
      output[j] := EncodedByte(x, 0);
      output[j + 1] := EncodedByte(x, 1);
      output[j + 2] := EncodedByte(x, 2);
      output[j + 3] := EncodedByte(x, 3);
      EncodedWord(x);
      assert output[j..j + 4] == [EncodedByte(x, 0), EncodedByte(x, 1), EncodedByte(x, 2), EncodedByte(x, 3)];
    }

    method Encode(output: array<JByte>, input: array<JLong>, len: nat)
      requires len % 4 == 0 && len == output.Length && 4 * input.Length == len
      modifies output
      ensures UnsignedAll(output[..]) == LowBytes(input[..])
    {
      var i, j := 0, 0;
      assert UnsignedAll(output[..0]) == LowBytes(input[..0]);
      hide *;
      while j < len
        invariant 0 <= i <= input.Length && j == 4 * i
        invariant UnsignedAll(output[..j]) == LowBytes(input[..i])
      {
        EncodeLong(output, input[i], j);
        assert output[..j + 4] == output[..j] + output[j..j + 4];
        UnsignedConcat(output[..j], output[j..j + 4]);
        assert input[..i + 1] == input[..i] + [input[i]];
        LowBytesStep(input[..i], input[i]);
        i, j := i + 1, j + 4;
      }
      assert output[..len] == output[..] && input[..i] == input[..];
    }
  }

  lemma Spliced(was: seq<JByte>, now: seq<JByte>, from: seq<JByte>, at: nat, start: nat, len: nat)
    requires |now| == |was| && at + len <= |was| && start + len <= |from|
    requires forall k :: 0 <= k < |was| ==> now[k] == if at <= k < at + len then from[start + k - at] else was[k]
    ensures now == was[..at] + from[start..start + len] + was[at + len..]
  {
  }

  lemma WordOfBlock(block: seq<JByte>, i: nat)
    requires |block| == 64 && i < 16
    ensures BlockWords(UnsignedAll(block))[i]
         == DecodedLong(block[4 * i], block[4 * i + 1], block[4 * i + 2], block[4 * i + 3])
  {
    hide DecodedLong;
    DecodedLongValue(block[4 * i], block[4 * i + 1], block[4 * i + 2], block[4 * i + 3]);
  }

  lemma UnsignedPrefix(a: seq<JByte>, n: nat)
    requires n <= |a|
    ensures UnsignedAll(a[..n]) == UnsignedAll(a)[..n]
  {
  }

  lemma ShortInput(index: nat, inputLen: nat)
    requires inputLen < 64 - index
    ensures !Overruns(index, inputLen)
  {
  }

  lemma UnsignedConcat(a: seq<JByte>, b: seq<JByte>)
    ensures UnsignedAll(a + b) == UnsignedAll(a) + UnsignedAll(b)
  {
  }

  lemma EncodedWord(x: JLong)
    ensures UnsignedAll([EncodedByte(x, 0), EncodedByte(x, 1), EncodedByte(x, 2), EncodedByte(x, 3)])
         == LittleEndian(Low(x), 4)
  {
    hide EncodedByte;
    EncodedByteValue(x, 0);
    EncodedByteValue(x, 1);
    EncodedByteValue(x, 2);
    EncodedByteValue(x, 3);
    FourBytes(Low(x));
  }

  /** Encode and Decode undo each other on the low 32 bits. */
  lemma DecodeUndoesEncode(w: Word, bytes: seq<Octet>)
    requires |bytes| == 4
    ensures WordAt(LittleEndian(w, 4), 0) == w && LittleEndian(WordAt(bytes, 0), 4) == bytes
  {
    Pow2Zero();
    Pow2Values();
    hide Pow2, LittleEndian;
    FourBytes(w);
    FourBytes(WordAt(bytes, 0));
    BytesOfWord(bytes[0], bytes[1], bytes[2], bytes[3]);
    WordOfBytes(w);
  }

  lemma WordOfBytes(w: Word)
    ensures w == w % 256 + 0x100 * (w / 0x100 % 256) + 0x1_0000 * (w / 0x1_0000 % 256)
            + 0x100_0000 * (w / 0x100_0000 % 256)
  {
    var a, b := w / 0x100, w / 0x1_0000;
    assert b == a / 256 && w / 0x100_0000 == b / 256;
  }

  lemma BytesOfWord(a: Octet, b: Octet, c: Octet, d: Octet)
    ensures var w := a + 0x100 * b + 0x1_0000 * c + 0x100_0000 * d;
            w % 256 == a && w / 0x100 % 256 == b && w / 0x1_0000 % 256 == c && w / 0x100_0000 % 256 == d
  {
    var w := a + 0x100 * b + 0x1_0000 * c + 0x100_0000 * d;
    ModUnique(w, 0x100, b + 0x100 * c + 0x1_0000 * d, a);
    ModUnique(w, 0x1_0000, c + 0x100 * d, a + 0x100 * b);
    ModUnique(w, 0x100_0000, d, a + 0x100 * b + 0x1_0000 * c);
    ModUnique(b + 0x100 * c + 0x1_0000 * d, 0x100, c + 0x100 * d, b);
    ModUnique(c + 0x100 * d, 0x100, d, c);
  }

  lemma FourBytes(v: Word)
    ensures LittleEndian(v, 4) == [(v / Pow2(0)) % 256, (v / Pow2(8)) % 256, (v / Pow2(16)) % 256, (v / Pow2(24)) % 256]
  {
    Pow2Zero();
    Pow2Values();
    hide Pow2;
    assert v / 256 / 256 == v / 0x1_0000 && v / 256 / 256 / 256 == v / 0x100_0000;
    assert LittleEndian(v / 0x100_0000, 1) == [(v / 0x100_0000) % 256];
    assert LittleEndian(v / 0x1_0000, 2) == [(v / 0x1_0000) % 256] + LittleEndian(v / 0x100_0000, 1);
    assert LittleEndian(v / 256, 3) == [(v / 256) % 256] + LittleEndian(v / 0x1_0000, 2);
  }

  function StateOf(s: seq<JLong>): Registers
    requires |s| == 4
  {
    Registers(s[0], s[1], s[2], s[3])
  }

  lemma NoMixings(q: Registers, w: seq<Word>)
    requires |w| == 16
    ensures q == Mixings(q, w, 0)
  {
  }

  /** The low words of some longs as bytes, low-order byte first. */
  function LowBytes(s: seq<JLong>): (bytes: seq<Octet>)
    ensures |bytes| == 4 * |s|
  {
    if s == [] then [] else LowBytes(s[..|s| - 1]) + LittleEndian(Low(s[|s| - 1]), 4)
  }

  lemma LowBytesStep(s: seq<JLong>, x: JLong)
    ensures LowBytes(s + [x]) == LowBytes(s) + LittleEndian(Low(x), 4)
  {
    hide LittleEndian, Low;
    assert (s + [x])[..|s|] == s;
  }

  /** While the total stays below 2^28 bytes both counters are those of one update. */
  lemma CountsAddUp(n: nat, a: nat, b: nat)
    requires n + a + b < 0x1000_0000
    ensures CountAfter(CountAfter(BitCount(8 * n, 0), a), b) == CountAfter(BitCount(8 * n, 0), a + b)
    ensures CountAfter(BitCount(8 * n, 0), a + b) == BitCount(8 * (n + a + b), 0)
  {
    SmallCount(n, a);
    SmallCount(n + a, b);
    SmallCount(n, a + b);
  }

  lemma SmallCount(n: nat, a: nat)
    requires n + a < 0x1000_0000
    ensures CountAfter(BitCount(8 * n, 0), a) == BitCount(8 * (n + a), 0)
  {
    hide CountAfter, Wrap32;
    CountStep(BitCount(8 * n, 0), a);
    SignedBits(a);
  }

  const HALF := 0x1000_0000

  /** What `inputLen << 3` adds to the first counter, by the length modulo 2^29. */
  lemma SignedBits(len: nat)
    ensures Wrap32(len * 8) == var x := len % (2 * HALF); if x < HALF then 8 * x else 8 * x - 16 * HALF
  {
    var x, q := len % (2 * HALF), len / (2 * HALF);
    assert len * 8 == q * TWO_32 + 8 * x;
    ModUnique(len * 8, TWO_32, q, 8 * x);
  }

  /** The counters after one more update, with the sum of the first counter in range. */
  lemma CountStep(c: BitCount, len: nat)
    requires len <= MAX_INT && -0x1_0000_0000 <= c.lo <= 0x1_0000_0000 && 0 <= c.hi <= 0x1_0000_0000
    ensures CountAfter(c, len)
         == BitCount(c.lo + Wrap32(len * 8), c.hi + (if c.lo < 0 then 1 else 0) + len / 0x2000_0000)
  {
    hide Wrap32, Wrap64;
    var carry, high := if c.lo < 0 then 1 else 0, len / 0x2000_0000;
    assert 0 <= high <= 3;
    LongInRange(c.lo + Wrap32(len * 8));
    LongInRange(c.hi + 1);
    LongInRange(c.hi + carry + high);
  }

  lemma LongInRange(x: int)
    requires -0x8000_0000_0000_0000 <= x <= 0x7FFF_FFFF_FFFF_FFFF
    ensures Wrap64(x) == x
  {
  }

  lemma SumModulo(a: nat, b: nat)
    ensures var m := 2 * HALF; var x, y := a % m, b % m;
            && (a + b) % m == (if x + y < m then x + y else x + y - m)
            && (a + b) / m == a / m + b / m + (if x + y < m then 0 else 1)
  {
  }

  /**
   * When cutting an input in two does not show in the counters, by the two lengths modulo 2^29: a first part whose bit
   * count is not negative as an `int` must not change the sign that the second part has alone, and one whose bit count
   * is negative must carry.
   */
  predicate CutHides(a: nat, b: nat) {
    var x, y := a % (2 * HALF), b % (2 * HALF);
    if x < HALF then x + y < (if y < HALF then HALF else 2 * HALF)
    else x + y >= (if y < HALF then 2 * HALF else 3 * HALF)
  }

  lemma CountsAddUpIff(a: nat, b: nat)
    requires a + b <= MAX_INT
    ensures CountAfter(CountAfter(BitCount(0, 0), a), b) == CountAfter(BitCount(0, 0), a + b) <==> CutHides(a, b)
  {
    hide CountAfter, Wrap32;
    SignedBits(a);
    SignedBits(b);
    SignedBits(a + b);
    SumModulo(a, b);
    CountStep(BitCount(0, 0), a);
    CountStep(BitCount(0, 0), a + b);
    CountStep(CountAfter(BitCount(0, 0), a), b);
  }

  /** At 2^28 bytes the sign of the first counter comes to depend on the chunks; its low word still does not. */
  lemma CountsDependOnChunks()
    ensures CountAfter(CountAfter(BitCount(0, 0), 0x800_0000), 0x800_0000) != CountAfter(BitCount(0, 0), 0x1000_0000)
  {
    hide CountAfter;
    CountsAddUpIff(0x800_0000, 0x800_0000);
  }

  /**
   * The state and the pending bytes depend only on the bytes absorbed, not on how they were cut into updates:
   * two objects that absorbed the same bytes hold the same longs and the same pending prefix.
   */
  lemma AgreeOnAbsorbed(m1: Md5, m2: Md5)
    requires m1.Valid() && m2.Valid() && m1.absorbed == m2.absorbed
    ensures m1.state[..] == m2.state[..]
    ensures m1.buffer[..|m1.absorbed| % 64] == m2.buffer[..|m2.absorbed| % 64]
    ensures Low(m1.count[0]) == Low(m2.count[0])
  {
    var s1, s2 := m1.state[..], m2.state[..];
    assert StateOf(s1) == StateOf(s2);
    assert s1 == [s1[0], s1[1], s1[2], s1[3]] && s2 == [s2[0], s2[1], s2[2], s2[3]];
    UnsignedInjective(m1.buffer[..|m1.absorbed| % 64], m2.buffer[..|m1.absorbed| % 64]);
  }

  /**
   * An object updated with a and then with b against one updated once with both: the same state, the same pending
   * bytes, and the same counters exactly where the cut does not show in them; below 2^28 bytes in all it never does.
   */
  lemma TwoUpdatesLikeOne(twice: Md5, once: Md5, a: nat, b: nat)
    requires a + b <= MAX_INT && twice.Valid() && once.Valid() && twice.absorbed == once.absorbed
    requires twice.Counts() == CountAfter(CountAfter(BitCount(0, 0), a), b)
    requires once.Counts() == CountAfter(BitCount(0, 0), a + b)
    ensures twice.state[..] == once.state[..]
    ensures twice.buffer[..|twice.absorbed| % 64] == once.buffer[..|once.absorbed| % 64]
    ensures twice.Counts() == once.Counts() <==> CutHides(a, b)
    ensures a + b < HALF ==> CutHides(a, b)
  {
    hide AbsorbLongs, UnsignedAll, Pending, CountAfter, Low;
    AgreeOnAbsorbed(twice, once);
    CountsAddUpIff(a, b);
  }

  lemma UnsignedInjective(a: seq<JByte>, b: seq<JByte>)
    requires UnsignedAll(a) == UnsignedAll(b)
    ensures a == b
  {
    forall i | 0 <= i < |a|
      ensures a[i] == b[i]
    {
      assert UnsignedAll(a)[i] == UnsignedAll(b)[i];
    }
  }
}
