/** The MD5 message digest of RFC 1321, sections 3.1 to 3.5, on unsigned 32-bit words and bytes. */
module Rfc1321 {
  import opened Bits

  const WORD := 0x1_0000_0000
  type Word = w: int | 0 <= w < 0x1_0000_0000

  /** The four auxiliary functions of section 3.4. */
  datatype Round = F | G | H | I

  predicate RoundBit(r: Round, x: bool, y: bool, z: bool) {
    match r
    case F => if x then y else z
    case G => if z then x else y
    case H => x != (y != z)
    case I => y != (x || !z)
  }

  /** An auxiliary function acting in each of the `n` low bit positions. */
  function RoundWord(r: Round, x: nat, y: nat, z: nat, n: nat): (w: nat)
    ensures w < Pow2(n)
  {
    if n == 0 then 0
    else Bit(RoundBit(r, x % 2 == 1, y % 2 == 1, z % 2 == 1)) + 2 * RoundWord(r, x / 2, y / 2, z / 2, n - 1)
  }

  /** Circular left shift of a word: the `s` high bits become the low ones. */
  function Rotl(w: Word, s: nat): int
    requires s <= 32
  {
    (w % Pow2(32 - s)) * Pow2(s) + w / Pow2(32 - s)
  }

  datatype Quad = Quad(a: Word, b: Word, c: Word, d: Word)

  /** 4294967296 times abs(sin(i + 1)), rounded down. */
  function T(i: nat): Word {
    match i
    case 0 => 0xd76aa478
    case 1 => 0xe8c7b756
    case 2 => 0x242070db
    case 3 => 0xc1bdceee
    case 4 => 0xf57c0faf
    case 5 => 0x4787c62a
    case 6 => 0xa8304613
    case 7 => 0xfd469501
    case 8 => 0x698098d8
    case 9 => 0x8b44f7af
    case 10 => 0xffff5bb1
    case 11 => 0x895cd7be
    case 12 => 0x6b901122
    case 13 => 0xfd987193
    case 14 => 0xa679438e
    case 15 => 0x49b40821
    case 16 => 0xf61e2562
    case 17 => 0xc040b340
    case 18 => 0x265e5a51
    case 19 => 0xe9b6c7aa
    case 20 => 0xd62f105d
    case 21 => 0x02441453
    case 22 => 0xd8a1e681
    case 23 => 0xe7d3fbc8
    case 24 => 0x21e1cde6
    case 25 => 0xc33707d6
    case 26 => 0xf4d50d87
    case 27 => 0x455a14ed
    case 28 => 0xa9e3e905
    case 29 => 0xfcefa3f8
    case 30 => 0x676f02d9
    case 31 => 0x8d2a4c8a
    case 32 => 0xfffa3942
    case 33 => 0x8771f681
    case 34 => 0x6d9d6122
    case 35 => 0xfde5380c
    case 36 => 0xa4beea44
    case 37 => 0x4bdecfa9
    case 38 => 0xf6bb4b60
    case 39 => 0xbebfbc70
    case 40 => 0x289b7ec6
    case 41 => 0xeaa127fa
    case 42 => 0xd4ef3085
    case 43 => 0x04881d05
    case 44 => 0xd9d4d039
    case 45 => 0xe6db99e5
    case 46 => 0x1fa27cf8
    case 47 => 0xc4ac5665
    case 48 => 0xf4292244
    case 49 => 0x432aff97
    case 50 => 0xab9423a7
    case 51 => 0xfc93a039
    case 52 => 0x655b59c3
    case 53 => 0x8f0ccc92
    case 54 => 0xffeff47d
    case 55 => 0x85845dd1
    case 56 => 0x6fa87e4f
    case 57 => 0xfe2ce6e0
    case 58 => 0xa3014314
    case 59 => 0x4e0811a1
    case 60 => 0xf7537e82
    case 61 => 0xbd3af235
    case 62 => 0x2ad7d2bb
    case 63 => 0xeb86d391
    case _ => 0
  }

  function RoundOf(i: nat): Round {
    if i < 16 then F else if i < 32 then G else if i < 48 then H else I
  }

  /** The message word operation `i` reads. */
  function K(i: nat): (k: nat)
    ensures k < 16
  {
    match RoundOf(i)
    case F => i % 16
    case G => (1 + 5 * i) % 16
    case H => (5 + 3 * i) % 16
    case I => (7 * i) % 16
  }

  /** The shift of operation `i`. */
  function S(i: nat): (s: nat)
    ensures 0 < s < 32
  {
    match RoundOf(i)
    case F => 7 + 5 * (i % 4)
    case G => if i % 4 == 0 then 5 else if i % 4 == 1 then 9 else if i % 4 == 2 then 14 else 20
    case H => if i % 4 == 0 then 4 else if i % 4 == 1 then 11 else if i % 4 == 2 then 16 else 23
    case I => if i % 4 == 0 then 6 else if i % 4 == 1 then 10 else if i % 4 == 2 then 15 else 21
  }

  /** `a = b + ((a + g(b, c, d) + x + t) <<< s)` */
  function Operation(r: Round, a: Word, b: Word, c: Word, d: Word, x: Word, s: nat, t: Word): Word
    requires 0 < s < 32
  {
    (b + Rotl((a + RoundWord(r, b, c, d, 32) + x + t) % WORD, s)) % WORD
  }

  /** Operation `i` on the block `x`; the roles of the registers rotate. */
  function Next(p: Quad, x: seq<Word>, i: nat): Quad
    requires |x| == 16
  {
    Quad(p.d, Operation(RoundOf(i), p.a, p.b, p.c, p.d, x[K(i)], S(i), T(i)), p.b, p.c)
  }

  /** The registers after `n` of the 64 operations. */
  function Operations(q: Quad, x: seq<Word>, n: nat): Quad
    requires |x| == 16 && n <= 64
  {
    if n == 0 then q else Next(Operations(q, x, n - 1), x, n - 1)
  }

  function Compress(q: Quad, x: seq<Word>): Quad
    requires |x| == 16
  {
    var p := Operations(q, x, 64);
    Quad((q.a + p.a) % WORD, (q.b + p.b) % WORD, (q.c + p.c) % WORD, (q.d + p.d) % WORD)
  }

  /** A word is read from four bytes, low-order byte first. */
  function WordAt(bytes: seq<Octet>, i: nat): Word
    requires i + 4 <= |bytes|
  {
    bytes[i] as int + 0x100 * bytes[i + 1] as int + 0x1_0000 * bytes[i + 2] as int + 0x100_0000 * bytes[i + 3] as int
  }

  function BlockWords(block: seq<Octet>): (x: seq<Word>)
    requires |block| == 64
    ensures |x| == 16
  {
    seq<Word>(16, i requires 0 <= i < 16 => WordAt(block, 4 * i))
  }

  const INITIAL := Quad(0x67452301, 0xefcdab89, 0x98badcfe, 0x10325476)

  /** The registers after all whole blocks of `data`. */
  function Absorb(q: Quad, data: seq<Octet>): Quad
    decreases |data|
  {
    if |data| < 64 then q else Absorb(Compress(q, BlockWords(data[..64])), data[64..])
  }

  /** The low `n` bytes of `v`, low-order byte first. */
  function LittleEndian(v: nat, n: nat): (bytes: seq<Octet>)
    ensures |bytes| == n
  {
    if n == 0 then [] else [v % 256] + LittleEndian(v / 256, n - 1)
  }

  /** Padding to 56 modulo 64 bytes, then the length in bits modulo 2^64. */
  function Padded(m: seq<Octet>): seq<Octet> {
    m + [0x80] + Zeros((55 - |m|) % 64) + LittleEndian(8 * |m|, 8)
  }

  function DigestBytes(q: Quad): seq<Octet> {
    LittleEndian(q.a, 4) + LittleEndian(q.b, 4) + LittleEndian(q.c, 4) + LittleEndian(q.d, 4)
  }

  function Digest(m: seq<Octet>): seq<Octet> {
    DigestBytes(Absorb(INITIAL, Padded(m)))
  }

  // ---- against the text of the RFC ----------------------------------------------------------------------------------

  /** Round 1: the words and shifts of its operations as section 3.4 lists them. */
  lemma Round1AsListed()
    ensures RoundOf(0) == F && RoundOf(15) == F
    ensures K(0) == 0 && K(1) == 1 && K(2) == 2 && K(3) == 3 && K(4) == 4 && K(5) == 5 && K(6) == 6 && K(7) == 7
    ensures K(8) == 8 && K(9) == 9 && K(10) == 10 && K(11) == 11
    ensures K(12) == 12 && K(13) == 13 && K(14) == 14 && K(15) == 15
    ensures S(0) == 7 && S(1) == 12 && S(2) == 17 && S(3) == 22
  {
  }

  /** Round 2: the words and shifts of its operations as section 3.4 lists them. */
  lemma Round2AsListed()
    ensures RoundOf(16) == G && RoundOf(31) == G
    ensures K(16) == 1 && K(17) == 6 && K(18) == 11 && K(19) == 0
    ensures K(20) == 5 && K(21) == 10 && K(22) == 15 && K(23) == 4
    ensures K(24) == 9 && K(25) == 14 && K(26) == 3 && K(27) == 8
    ensures K(28) == 13 && K(29) == 2 && K(30) == 7 && K(31) == 12
    ensures S(16) == 5 && S(17) == 9 && S(18) == 14 && S(19) == 20
  {
  }

  /** Round 3: the words and shifts of its operations as section 3.4 lists them. */
  lemma Round3AsListed()
    ensures RoundOf(32) == H && RoundOf(47) == H
    ensures K(32) == 5 && K(33) == 8 && K(34) == 11 && K(35) == 14
    ensures K(36) == 1 && K(37) == 4 && K(38) == 7 && K(39) == 10
    ensures K(40) == 13 && K(41) == 0 && K(42) == 3 && K(43) == 6
    ensures K(44) == 9 && K(45) == 12 && K(46) == 15 && K(47) == 2
    ensures S(32) == 4 && S(33) == 11 && S(34) == 16 && S(35) == 23
  {
  }

  /** Round 4: the words and shifts of its operations as section 3.4 lists them. */
  lemma Round4AsListed()
    ensures RoundOf(48) == I && RoundOf(63) == I
    ensures K(48) == 0 && K(49) == 7 && K(50) == 14 && K(51) == 5
    ensures K(52) == 12 && K(53) == 3 && K(54) == 10 && K(55) == 1
    ensures K(56) == 8 && K(57) == 15 && K(58) == 6 && K(59) == 13
    ensures K(60) == 4 && K(61) == 11 && K(62) == 2 && K(63) == 9
    ensures S(48) == 6 && S(49) == 10 && S(50) == 15 && S(51) == 21
  {
  }

  lemma ShiftsRepeat(i: nat)
    requires i < 60 && i % 16 < 12
    ensures S(i + 4) == S(i)
  {
  }

  /** The four functions as section 3.4 writes them. */
  lemma FunctionsAsListed(x: bool, y: bool, z: bool)
    ensures RoundBit(F, x, y, z) == ((x && y) || (!x && z)) && RoundBit(G, x, y, z) == ((x && z) || (y && !z))
    ensures RoundBit(H, x, y, z) == ((x != y) != z) && RoundBit(I, x, y, z) == (y != (x || !z))
  {
  }

  /** The registers at the beginning, low-order byte first, as section 3.3 lists them. */
  lemma RegistersAsListed()
    ensures DigestBytes(INITIAL) == [0x01, 0x23, 0x45, 0x67, 0x89, 0xab, 0xcd, 0xef,
                                     0xfe, 0xdc, 0xba, 0x98, 0x76, 0x54, 0x32, 0x10]
  {
    LittleEndianFour(INITIAL.a);
    LittleEndianFour(INITIAL.b);
    LittleEndianFour(INITIAL.c);
    LittleEndianFour(INITIAL.d);
    hide LittleEndian;
  }

  lemma LittleEndianFour(v: Word)
    ensures LittleEndian(v, 4) == [v % 256, v / 256 % 256, v / 256 / 256 % 256, v / 256 / 256 / 256 % 256]
  {
    assert LittleEndian(v / 256, 3) == [v / 256 % 256] + LittleEndian(v / 256 / 256, 2);
    assert LittleEndian(v / 256 / 256, 2) == [v / 256 / 256 % 256] + LittleEndian(v / 256 / 256 / 256, 1);
    assert LittleEndian(v / 256 / 256 / 256, 1)
         == [v / 256 / 256 / 256 % 256] + LittleEndian(v / 256 / 256 / 256 / 256, 0);
  }

  function Value(bytes: seq<Octet>): nat {
    if bytes == [] then 0 else bytes[0] + 256 * Value(bytes[1..])
  }

  lemma {:induction false} LittleEndianValue(v: nat, n: nat)
    requires v < Pow2(8 * n)
    ensures Value(LittleEndian(v, n)) == v
  {
    if n > 0 {
      var m := n - 1;
      assert Pow2(8 * m + 8) == 256 * Pow2(8 * m) by {
        assert Pow2(8 * m + 2) == 4 * Pow2(8 * m) && Pow2(8 * m + 4) == 4 * Pow2(8 * m + 2);
        assert Pow2(8 * m + 6) == 4 * Pow2(8 * m + 4) && Pow2(8 * m + 8) == 4 * Pow2(8 * m + 6);
      }
      hide Pow2;
      LittleEndianValue(v / 256, m);
      assert LittleEndian(v, n)[1..] == LittleEndian(v / 256, m);
    }
  }

  /**
   * Sections 3.1 and 3.2: the message, a bit 1 and as few bits 0 as make it 64 bits short of a multiple of 512, and its
   * length in bits as a number of 64 bits, low-order byte first.
   */
  lemma PaddedAsListed(m: seq<Octet>)
    requires 8 * |m| < Pow2(64)
    ensures var p := Padded(m); var n := |p| - 8;
            && |p| % 64 == 0 && |m| < n <= |m| + 64 && m <= p && p[|m|] == 0x80
            && (forall i :: |m| < i < n ==> p[i] == 0) && Value(p[n..]) == 8 * |m|
  {
    hide Pow2, LittleEndian, Value, Zeros;
    LittleEndianValue(8 * |m|, 8);
    var zeros, count := Zeros((55 - |m|) % 64), LittleEndian(8 * |m|, 8);
    assert Padded(m) == m + [0x80] + zeros + count;
    hide *;
    ZerosFill(|m|);
    Joined(m, zeros, count);
  }

  lemma ZerosFill(n: nat)
    ensures (n + 1 + (55 - n) % 64 + 8) % 64 == 0
  {
  }

  lemma Joined(m: seq<Octet>, zeros: seq<Octet>, count: seq<Octet>)
    ensures var p := m + [0x80] + zeros + count; var n := |m| + 1 + |zeros|;
            && m <= p && p[|m|] == 0x80 && p[n..] == count
            && forall i :: |m| < i < n ==> p[i] == zeros[i - |m| - 1]
  {
  }
}
