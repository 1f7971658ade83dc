/** Integers as bytes, most significant first, and back. */
module ByteOrder {
  import opened Bits
  import opened JavaText

  function Pow256(w: nat): (p: nat)
    ensures p > 0
  {
    if w == 0 then 1 else Pow256(w - 1) * 256
  }

  /** The `w` low bytes of a value in two's complement. */
  function Big(v: int, w: nat): (s: seq<Octet>)
    ensures |s| == w
    decreases w
  {
    if w == 0 then [] else Big(v / 256, w - 1) + [v % 256]
  }

  function FromBig(s: seq<Octet>): (n: nat)
    ensures n < Pow256(|s|)
  {
    if s == [] then 0 else FromBig(s[..|s| - 1]) * 256 + s[|s| - 1]
  }

  /** The bytes of a value are the value, without what does not fit. */
  lemma {:induction false} FromBigOfBig(v: int, w: nat)
    ensures FromBig(Big(v, w)) == v % Pow256(w)
    decreases w
  {
    hide Pow256;
    PowStep(w);
    if w > 0 {
      var s := Big(v, w);
      assert s[..w - 1] == Big(v / 256, w - 1);
      FromBigOfBig(v / 256, w - 1);
      LastByte(v, Pow256(w - 1));
    }
  }

  lemma PowStep(w: nat)
    ensures Pow256(w) == if w == 0 then 1 else Pow256(w - 1) * 256
  {
  }

  lemma LastByte(v: int, p: nat)
    requires p > 0
    ensures v / 256 % p * 256 + v % 256 == v % (p * 256)
  {
    var q, r := v / 256 / p, v / 256 % p;
    assert v / 256 == q * p + r;
    assert (q * p) * 256 == q * (p * 256);
    ModUnique(v, p * 256, q, r * 256 + v % 256);
  }

  /** A number of `w` bytes read in two's complement. */
  function Signed(n: nat, w: nat): int {
    if 2 * n >= Pow256(w) then n - Pow256(w) else n
  }

  lemma Pow256Values()
    ensures Pow256(1) == 256 && Pow256(2) == 0x1_0000 && Pow256(3) == 0x100_0000
    ensures Pow256(4) == 0x1_0000_0000 && Pow256(8) == 0x1_0000_0000_0000_0000
  {
    assert Pow256(3) == Pow256(2) * 256 && Pow256(5) == Pow256(4) * 256 && Pow256(6) == Pow256(5) * 256;
  }

  /** What one typed write leaves in the buffer, and what the read of the same type makes of it. */
  datatype Typed = Byte | UnsignedByte | Short | UnsignedShort | Medium | UnsignedMedium | Int | UnsignedInt | Long

  function Width(t: Typed): nat {
    match t
    case Byte | UnsignedByte => 1
    case Short | UnsignedShort => 2
    case Medium | UnsignedMedium => 3
    case Int | UnsignedInt => 4
    case Long => 8
  }

  predicate IsSigned(t: Typed) {
    t.Byte? || t.Short? || t.Medium? || t.Int? || t.Long?
  }

  function Decode(t: Typed, s: seq<Octet>): int
    requires |s| == Width(t)
  {
    if IsSigned(t) then Signed(FromBig(s), Width(t)) else FromBig(s)
  }

  /** The value a type holds after being assigned `v`: its low bytes. */
  function Narrow(t: Typed, v: int): int {
    var n := v % Pow256(Width(t));
    if IsSigned(t) then Signed(n, Width(t)) else n
  }

  lemma DecodeOfBig(t: Typed, v: int)
    ensures Decode(t, Big(v, Width(t))) == Narrow(t, v)
  {
    hide Big, FromBig, Signed;
    FromBigOfBig(v, Width(t));
  }

  /** A value in the range of its type is not changed. */
  lemma NarrowKeeps(t: Typed, v: int)
    requires if IsSigned(t) then 0 <= 2 * v + Pow256(Width(t)) < 2 * Pow256(Width(t)) else 0 <= v < Pow256(Width(t))
    ensures Narrow(t, v) == v
  {
    hide Pow256;
    var p := Pow256(Width(t));
    if v < 0 {
      ModUnique(v, p, -1, v + p);
    } else {
      ModUnique(v, p, 0, v);
    }
  }

  // ---- the formats, byte for byte -----------------------------------------------------------------------------------

  lemma BigOne(v: int)
    ensures Big(v, 1) == [v % 256]
  {
    assert Big(v / 256, 0) == [];
  }

  lemma BigTwo(v: int)
    ensures Big(v, 2) == [v / 256 % 256, v % 256]
  {
    BigOne(v / 256);
  }

  lemma BigFour(v: int)
    ensures Big(v, 3) == [v / 0x1_0000 % 256, v / 256 % 256, v % 256]
    ensures Big(v, 4) == [v / 0x100_0000 % 256, v / 0x1_0000 % 256, v / 256 % 256, v % 256]
  {
    BigTwo(v / 256);
    BigTwo(v / 0x1_0000);
    hide Big;
    BigSplits(v, 1, 2);
    BigSplits(v, 2, 2);
    BigTwo(v);
    BigOne(v / 0x1_0000);
    Pow256Values();
  }

  /** The high bytes come first. */
  lemma {:induction false} BigSplits(v: int, a: nat, b: nat)
    ensures Big(v, a + b) == Big(v / Pow256(b), a) + Big(v, b)
    decreases b
  {
    hide Pow256;
    PowStep(b);
    if b == 0 {
      assert Big(v, a) + [] == Big(v, a);
    } else {
      BigSplits(v / 256, a, b - 1);
      DividedTwice(v, Pow256(b - 1));
    }
  }

  lemma DividedTwice(v: int, p: nat)
    requires p > 0
    ensures v / 256 / p == v / (p * 256)
  {
    var q, r := v / 256 / p, v / 256 % p;
    assert v / 256 == q * p + r;
    assert (q * p) * 256 == q * (p * 256);
    ModUnique(v, p * 256, q, r * 256 + v % 256);
  }

  /** Every type is written most significant byte first. */
  lemma WrittenAsListed(t: Typed, v: int)
    ensures match t
            case Byte | UnsignedByte => Big(v, Width(t)) == [v % 256]
            case Short | UnsignedShort => Big(v, Width(t)) == [v / 256 % 256, v % 256]
            case Medium | UnsignedMedium => Big(v, Width(t)) == [v / 0x1_0000 % 256, v / 256 % 256, v % 256]
            case Int | UnsignedInt =>
              Big(v, Width(t)) == [v / 0x100_0000 % 256, v / 0x1_0000 % 256, v / 256 % 256, v % 256]
            case Long =>
              Big(v, Width(t)) == [v / 0x100_0000_0000_0000 % 256, v / 0x1_0000_0000_0000 % 256,
                                   v / 0x100_0000_0000 % 256, v / 0x1_0000_0000 % 256,
                                   v / 0x100_0000 % 256, v / 0x1_0000 % 256, v / 256 % 256, v % 256]
  {
    hide Big;
    BigOne(v);
    BigTwo(v);
    BigFour(v);
    if t == Long {
      BigSplits(v, 4, 4);
      BigFour(v / 0x1_0000_0000);
      Pow256Values();
    }
  }

  function Two(a: int, b: int): int {
    a * 256 + b
  }

  function Three(a: int, b: int, c: int): int {
    a * 0x1_0000 + b * 256 + c
  }

  function Four(a: int, b: int, c: int, d: int): int {
    a * 0x100_0000 + b * 0x1_0000 + c * 256 + d
  }

  lemma FromBigValues(s: seq<Octet>)
    ensures |s| == 1 ==> FromBig(s) == s[0]
    ensures |s| == 2 ==> FromBig(s) == Two(s[0], s[1])
  {
    if |s| > 0 {
      assert |s| == 1 ==> s[..|s| - 1] == [];
      assert |s| == 2 ==> s[..1] == [s[0]] && [s[0]][..0] == [];
    }
  }

  lemma FromBigFour(s: seq<Octet>)
    ensures |s| == 3 ==> FromBig(s) == Three(s[0], s[1], s[2])
    ensures |s| == 4 ==> FromBig(s) == Four(s[0], s[1], s[2], s[3])
  {
    if |s| == 3 {
      FromBigValues(s[..2]);
    } else if |s| == 4 {
      FromBigValues(s[..2]);
      assert s[..3][..2] == s[..2];
    }
  }

  lemma FromBigEight(s: seq<Octet>)
    requires |s| == 8
    ensures FromBig(s) == FromBig(s[..4]) * 0x1_0000_0000
                          + Four(s[4], s[5], s[6], s[7])
  {
    assert s[..7][..6] == s[..6] && s[..6][..5] == s[..5] && s[..5][..4] == s[..4];
    var n := FromBig(s[..4]);
    assert FromBig(s[..5]) == n * 256 + s[4];
    assert FromBig(s[..6]) == FromBig(s[..5]) * 256 + s[5];
    assert FromBig(s[..7]) == FromBig(s[..6]) * 256 + s[6];
  }

  /** Every type is read most significant byte first; a signed one that begins with a set bit is less by 2^bits. */
  lemma ReadAsListed(t: Typed, s: seq<Octet>)
    requires |s| == Width(t)
    ensures match t
            case Byte => Decode(t, s) == Two(0, s[0]) - if s[0] < 128 then 0 else 256
            case UnsignedByte => Decode(t, s) == s[0]
            case Short => Decode(t, s) == Two(s[0], s[1]) - if s[0] < 128 then 0 else 0x1_0000
            case UnsignedShort => Decode(t, s) == Two(s[0], s[1])
            case Medium =>
              Decode(t, s) == Three(s[0], s[1], s[2]) - if s[0] < 128 then 0 else 0x100_0000
            case UnsignedMedium => Decode(t, s) == Three(s[0], s[1], s[2])
            case Int =>
              Decode(t, s) == Four(s[0], s[1], s[2], s[3])
                              - if s[0] < 128 then 0 else 0x1_0000_0000
            case UnsignedInt => Decode(t, s) == Four(s[0], s[1], s[2], s[3])
            case Long =>
              Decode(t, s) == Four(s[0], s[1], s[2], s[3]) * 0x1_0000_0000
                              + Four(s[4], s[5], s[6], s[7])
                              - if s[0] < 128 then 0 else 0x1_0000_0000_0000_0000
  {
    hide FromBig, Pow256;
    Pow256Values();
    FromBigValues(s);
    FromBigFour(s);
    if t == Long {
      FromBigEight(s);
      FromBigFour(s[..4]);
    }
  }

  /** The bytes of a series of typed values. */
  function Written(items: seq<(Typed, int)>): seq<Octet> {
    if items == [] then [] else Big(items[0].1, Width(items[0].0)) + Written(items[1..])
  }

  /** Reading a queue of bytes as a series of types: the values, and what is left of the queue. */
  function ReadAll(types: seq<Typed>, queue: seq<Octet>): (r: (seq<int>, seq<Octet>))
    requires |queue| >= TotalWidth(types)
    ensures |r.0| == |types| && |r.1| == |queue| - TotalWidth(types)
  {
    if types == [] then ([], queue)
    else
      var w := Width(types[0]);
      var rest := ReadAll(types[1..], queue[w..]);
      ([Decode(types[0], queue[..w])] + rest.0, rest.1)
  }

  function TotalWidth(types: seq<Typed>): nat {
    if types == [] then 0 else Width(types[0]) + TotalWidth(types[1..])
  }

  function TypesOf(items: seq<(Typed, int)>): (r: seq<Typed>)
    ensures |r| == |items| && forall i :: 0 <= i < |r| ==> r[i] == items[i].0
  {
    seq(|items|, i requires 0 <= i < |items| => items[i].0)
  }

  function ValuesOf(items: seq<(Typed, int)>): (r: seq<int>)
    ensures |r| == |items| && forall i :: 0 <= i < |r| ==> r[i] == Narrow(items[i].0, items[i].1)
  {
    seq(|items|, i requires 0 <= i < |items| => Narrow(items[i].0, items[i].1))
  }

  lemma FrontOf(a: seq<Octet>, b: seq<Octet>, c: seq<Octet>)
    ensures (a + b + c)[..|a|] == a && (a + b + c)[|a|..] == b + c
  {
  }

  /** Any series of typed writes, read back with the same types, gives the same values, and leaves what came after. */
  lemma {:induction false} ReadsBack(items: seq<(Typed, int)>, rest: seq<Octet>)
    ensures |Written(items)| == TotalWidth(TypesOf(items))
    ensures ReadAll(TypesOf(items), Written(items) + rest) == (ValuesOf(items), rest)
  {
    hide Big, Decode, Narrow, Width;
    if items == [] {
      assert Written(items) + rest == rest;
    } else {
      var t, v, more := items[0].0, items[0].1, items[1..];
      ReadsBack(more, rest);
      assert TypesOf(items)[1..] == TypesOf(more);
      assert ValuesOf(items) == [Narrow(t, v)] + ValuesOf(more);
      FrontOf(Big(v, Width(t)), Written(more), rest);
      DecodeOfBig(t, v);
    }
  }

  // ---- the operators of the typed reads -----------------------------------------------------------------------------

  /** `v & 0xFF` and `v & 0xFFFF` of a value that was sign-extended. */
  lemma MaskUnsigns(n: nat, w: nat)
    requires (w == 1 || w == 2) && n < Pow256(w)
    ensures IntOp(AND, Signed(n, w), Pow256(w) - 1) == n
  {
    hide IntOp, Pow256;
    Pow256Values();
    if w == 1 {
      MaskUnsignsBits(n, 8, 0x100, Signed(n, 1));
    } else {
      MaskUnsignsBits(n, 16, 0x1_0000, Signed(n, 2));
    }
  }

  lemma MaskUnsignsBits(n: nat, bits: nat, p: nat, v: JInt)
    requires (bits == 8 && p == 0x100) || (bits == 16 && p == 0x1_0000)
    requires n < p && (v == n || v == n - p)
    ensures IntOp(AND, v, p - 1) == n
  {
    Pow2Values();
    hide Bitwise, Pow2;
    AndMask(v % TWO_32, bits, 32);
    LowOfExtended(n, p, v);
  }

  lemma LowOfExtended(n: nat, p: nat, v: JInt)
    requires p in {0x100, 0x1_0000} && n < p && (v == n || v == n - p)
    ensures v % TWO_32 % p == n
  {
    if v < 0 {
      assert v % TWO_32 == v + TWO_32;
      ModUnique(v + TWO_32, p, if p == 0x100 then 0xFF_FFFF else 0xFFFF, n);
    }
  }

  /** `v & 0xFFFFFFFFL` */
  lemma MaskUnsignsInt(n: nat)
    requires n < 0x1_0000_0000
    ensures LongOp(AND, if n >= 0x8000_0000 then n - 0x1_0000_0000 else n, 0xFFFF_FFFF) == n
  {
    Pow2Values();
    hide Bitwise, Pow2;
    var v := if n >= 0x8000_0000 then n - 0x1_0000_0000 else n;
    var x := v % TWO_64;
    AndMask(x, 32, 64);
    ModUnique(x, 0x1_0000_0000, if v < 0 then 0xFFFF_FFFF else 0, n);
  }

  /** `(v & 0x800000) != 0` tells the sign of three bytes. */
  lemma SignBit(n: nat)
    requires n < 0x100_0000
    ensures IntOp(AND, n, 0x80_0000) != 0 <==> n >= 0x80_0000
  {
    hide Bitwise;
    Bit23(n);
  }

  lemma Bit23(n: nat)
    requires n < 0x100_0000
    ensures Bitwise(AND, n, 0x80_0000, 32) == if n >= 0x80_0000 then 0x80_0000 else 0
  {
    hide Bitwise, Pow2, Halved;
    PowerOf23();
    PowerOfOne();
    AndHigh(n, 1, 23, 32);
    HalvedIsDivided(n, 23);
    AndMask(Halved(n, 23), 1, 9);
  }

  lemma PowerOf23()
    ensures Pow2(23) == 0x80_0000
  {
    Pow2Values();
    assert Pow2(7) == 128;
    hide Pow2;
    Pow2Add(16, 7);
  }

  lemma PowerOfOne()
    ensures Pow2(1) == 2
  {
  }

  /** `v | 0xff000000` extends it. */
  lemma ExtendSign(n: nat)
    requires 0x80_0000 <= n < 0x100_0000
    ensures IntOp(OR, n, -0x100_0000) == n - 0x100_0000
  {
    hide Bitwise;
    Pow2Values();
    hide Pow2;
    BitwiseCommutes(OR, n, 0xFF00_0000, 32);
    OrDisjoint(0xFF, n, 24, 32);
  }
}
