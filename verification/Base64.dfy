/** Base64ForAPP: encode and decode, against section 4 of RFC 4648. */
module Base64 {
  import opened Bits
  import opened Common
  import opened JavaText

  type Sextet = v: int | 0 <= v < 64

  const PAD: Unit := 61

  // ---- RFC 4648 -----------------------------------------------------------------------------------------------------

  /** Table 1: the alphabet. */
  function Alphabet(v: Sextet): Unit {
    if v < 26 then 65 + v else if v < 52 then 71 + v else if v < 62 then v - 4 else if v == 62 then 43 else 47
  }

  /** A 24-bit input group. */
  function Group(a: Octet, b: Octet, c: Octet): nat {
    a * 65536 + b * 256 + c
  }

  /** The 6-bit groups it is cut into. */
  function Cut(n: nat): (Sextet, Sextet, Sextet, Sextet) {
    (n / 262144 % 64, n / 4096 % 64, n / 64 % 64, n % 64)
  }

  /** The encoding of a sequence of octets: groups of three, a shorter last group padded. */
  function Base64Of(d: seq<Octet>): JString {
    if d == [] then []
    else if |d| == 1 then
      var s := Cut(Group(d[0], 0, 0));
      [Alphabet(s.0), Alphabet(s.1), PAD, PAD]
    else if |d| == 2 then
      var s := Cut(Group(d[0], d[1], 0));
      [Alphabet(s.0), Alphabet(s.1), Alphabet(s.2), PAD]
    else
      var s := Cut(Group(d[0], d[1], d[2]));
      [Alphabet(s.0), Alphabet(s.1), Alphabet(s.2), Alphabet(s.3)] + Base64Of(d[3..])
  }

  // ---- the two tables -----------------------------------------------------------------------------------------------

  /** The numbers from a up to b, b excluded. */
  function Run(a: int, b: int): (r: seq<int>)
    requires a <= b
    ensures |r| == b - a && forall i :: 0 <= i < |r| ==> r[i] == a + i
  {
    seq(b - a, i => a + i)
  }

  function Holes(n: nat): (r: seq<int>)
    ensures |r| == n && forall i :: 0 <= i < n ==> r[i] == -1
  {
    seq(n, _ => -1)
  }

  /** `base64EncodeChars`: A to Z, a to z, 0 to 9, + and /. */
  const ENCODE_CHARS: JString := Run(65, 91) + Run(97, 123) + Run(48, 58) + [43, 47]

  /** `base64DecodeChars`, run by run. */
  const DECODE_CHARS: seq<int> :=
    Holes(43) + [62] + Holes(3) + [63] + Run(52, 62) + Holes(7) + Run(0, 26) + Holes(6) + Run(26, 52) + Holes(5)

  lemma EncodeTable(v: Sextet)
    ensures |ENCODE_CHARS| == 64 && ENCODE_CHARS[v] == Alphabet(v)
  {
  }

  /** The inverse of the alphabet, -1 elsewhere. */
  function ValueOf(c: nat): int {
    if 65 <= c <= 90 then c - 65
    else if 97 <= c <= 122 then c - 71
    else if 48 <= c <= 57 then c + 4
    else if c == 43 then 62
    else if c == 47 then 63
    else -1
  }

  lemma DecodeTable(c: nat)
    requires c < 128
    ensures |DECODE_CHARS| == 128 && DECODE_CHARS[c] == ValueOf(c)
  {
  }

  /** The two tables undo each other. */
  lemma TablesInvert(v: Sextet, c: nat)
    requires c < 128
    ensures |ENCODE_CHARS| == 64 && |DECODE_CHARS| == 128
    ensures DECODE_CHARS[c] == v <==> ENCODE_CHARS[v] == c
  {
    EncodeTable(v);
    DecodeTable(c);
    hide ENCODE_CHARS, DECODE_CHARS;
  }

  // ---- Java's operators on small numbers ----------------------------------------------------------------------------

  function And(x: nat, y: nat): nat {
    Bitwise(AND, x, y, 8)
  }

  function Or(x: nat, y: nat): nat {
    Bitwise(OR, x, y, 8)
  }

  lemma HalvedValues(x: nat)
    ensures Halved(x, 2) == x / 4 && Halved(x, 4) == x / 16 && Halved(x, 6) == x / 64
  {
    HalvedTwice(x, 2);
    HalvedTwice(x, 4);
    HalvedTwice(x, 6);
    HalvedTwice(x / 4, 2);
    HalvedTwice(x / 4, 4);
    HalvedTwice(x / 16, 2);
    hide Halved;
    assert x / 4 / 4 == x / 16 && x / 16 / 4 == x / 64;
  }

  lemma LowMasks(x: Octet)
    ensures And(x, 0x3) == x % 4 && And(x, 0x0f) == x % 16 && And(x, 0x3f) == x % 64
  {
    hide Bitwise;
    SmallPowers();
    AndMask(x, 2, 8);
    AndMask(x, 4, 8);
    AndMask(x, 6, 8);
  }

  /** A mask of `j` ones above `k` zeros. */
  lemma HighMask(x: Octet, k: nat, j: nat, zeros: nat, ones: nat)
    requires k + j <= 8 && zeros == Pow2(k) && ones + 1 == Pow2(j)
    ensures And(x, ones * zeros) == Halved(x, k) % (ones + 1) * zeros
  {
    hide Bitwise, Halved, Pow2;
    AndHigh(x, ones, k, 8);
    AndMask(Halved(x, k), j, 8 - k);
  }

  lemma HighMasks(x: Octet)
    ensures And(x, 0xf0) / 16 == x / 16 && And(x, 0xc0) / 64 == x / 64
  {
    hide And, Halved;
    SmallPowers();
    HalvedValues(x);
    hide Pow2;
    HighMask(x, 4, 4, 16, 15);
    HighMask(x, 6, 2, 64, 3);
  }

  lemma MiddleMasks(x: Octet)
    requires x < 64
    ensures And(x, 0x30) / 16 == x / 16 && And(x, 0x3c) / 4 == x / 4
  {
    hide And, Halved;
    SmallPowers();
    HalvedValues(x);
    hide Pow2;
    HighMask(x, 4, 2, 16, 3);
    HighMask(x, 2, 4, 4, 15);
  }

  lemma SmallPowers()
    ensures Pow2(2) == 4 && Pow2(4) == 16 && Pow2(6) == 64
  {
  }

  /** `hi << k | lo` */
  lemma {:induction false} OrSum(hi: nat, lo: nat, k: nat)
    requires k <= 8 && lo < Pow2(k) && hi * Pow2(k) < 256
    ensures Or(hi * Pow2(k), lo) == hi * Pow2(k) + lo
  {
    hide Bitwise;
    Pow2Values();
    OrDisjoint(hi, lo, k, 8);
  }

  // ---- encode -------------------------------------------------------------------------------------------------------

  /** The indices encode computes from three octets are the four 6-bit groups. */
  lemma EncodeBits(b1: Octet, b2: Octet, b3: Octet)
    ensures (b1 / 4, Or(And(b1, 0x03) * 16, And(b2, 0xf0) / 16), Or(And(b2, 0x0f) * 4, And(b3, 0xc0) / 64),
            And(b3, 0x3f))
         == Cut(Group(b1, b2, b3))
    ensures And(b1, 0x3) * 16 == Cut(Group(b1, 0, 0)).1 && b1 / 4 == Cut(Group(b1, 0, 0)).0
    ensures And(b2, 0x0f) * 4 == Cut(Group(b1, b2, 0)).2
    ensures Cut(Group(b1, b2, 0)).0 == b1 / 4 && Cut(Group(b1, b2, 0)).1 == Cut(Group(b1, b2, b3)).1
  {
    hide Bitwise, And, Or;
    LowMasks(b1);
    LowMasks(b2);
    LowMasks(b3);
    HighMasks(b2);
    HighMasks(b3);
    assert Pow2(4) == 16 && Pow2(2) == 4;
    OrSum(b1 % 4, b2 / 16, 4);
    OrSum(b2 % 16, b3 / 64, 2);
    CutGroup(b1, b2, b3);
    CutGroup(b1, b2, 0);
    CutGroup(b1, 0, 0);
  }

  lemma CutGroup(a: Octet, b: Octet, c: Octet)
    ensures Cut(Group(a, b, c)) == (a / 4, a % 4 * 16 + b / 16, b % 16 * 4 + c / 64, c % 64)
  {
    var n := Group(a, b, c);
    ModUnique(n, 262144, a / 4, a % 4 * 65536 + b * 256 + c);
    ModUnique(n, 4096, a * 16 + b / 16, b % 16 * 256 + c);
    ModUnique(n, 64, a * 1024 + b * 4 + c / 64, c % 64);
    ModUnique(a * 16 + b / 16, 64, a / 4, a % 4 * 16 + b / 16);
    ModUnique(a * 1024 + b * 4 + c / 64, 64, a * 16 + b / 16, b % 16 * 4 + c / 64);
  }

  function Octets(data: seq<JByte>): (d: seq<Octet>)
    ensures |d| == |data| && forall i :: 0 <= i < |d| ==> d[i] == Unsigned(data[i])
  {
    seq<Octet>(|data|, i requires 0 <= i < |data| => Unsigned(data[i]))
  }

  /** One round of encode: the characters for a group of three, or for a shorter last group. */
  lemma OneGroup(rest: seq<Octet>)
    ensures |ENCODE_CHARS| == 64
    ensures |rest| == 1 ==>
              And(rest[0], 0x3) * 16 < 64
              && Base64Of(rest) == [ENCODE_CHARS[rest[0] / 4], ENCODE_CHARS[And(rest[0], 0x3) * 16], PAD, PAD]
    ensures |rest| >= 2 ==>
              var mid, low := Or(And(rest[0], 0x03) * 16, And(rest[1], 0xf0) / 16), And(rest[1], 0x0f) * 4;
              && mid < 64 && low < 64
              && (|rest| == 2 ==>
                    Base64Of(rest) == [ENCODE_CHARS[rest[0] / 4], ENCODE_CHARS[mid], ENCODE_CHARS[low], PAD])
              && (|rest| >= 3 ==>
                    && Or(low, And(rest[2], 0xc0) / 64) < 64 && And(rest[2], 0x3f) < 64
                    && Base64Of(rest) == [ENCODE_CHARS[rest[0] / 4], ENCODE_CHARS[mid],
                                          ENCODE_CHARS[Or(low, And(rest[2], 0xc0) / 64)],
                                          ENCODE_CHARS[And(rest[2], 0x3f)]] + Base64Of(rest[3..]))
  {
    hide Bitwise, And, Or, Cut, Alphabet, ENCODE_CHARS, Group;
    EncodeChars(0, 0, 0);
    if |rest| == 1 {
      EncodeBits(rest[0], 0, 0);
      EncodeChars(rest[0], 0, 0);
    } else if |rest| == 2 {
      EncodeBits(rest[0], rest[1], 0);
      EncodeChars(rest[0], rest[1], 0);
    } else if |rest| > 2 {
      EncodeBits(rest[0], rest[1], rest[2]);
      EncodeChars(rest[0], rest[1], rest[2]);
    }
  }

  method Encode(data: seq<JByte>) returns (sb: JString)
    ensures sb == Base64Of(Octets(data))
  {
    hide *;
    sb := [];
    var len, i := |data|, 0;
    ghost var d := Octets(data);
    assert d[0..] == d;
    NothingEncoded();
    while i < len
      invariant i <= len && sb + Base64Of(d[i..]) == Base64Of(d)
    {
      ghost var rest, done := d[i..], sb;
      OneGroup(rest);
      var b1 := Unsigned(data[i]);
      i := i + 1;
      if i == len {
        sb := sb + [ENCODE_CHARS[b1 / 4]];
        sb := sb + [ENCODE_CHARS[And(b1, 0x3) * 16]];
        sb := sb + [PAD, PAD];
        assert sb == done + Base64Of(rest);
        return;
      }
      var b2 := Unsigned(data[i]);
      i := i + 1;
      if i == len {
        sb := sb + [ENCODE_CHARS[b1 / 4]];
        sb := sb + [ENCODE_CHARS[Or(And(b1, 0x03) * 16, And(b2, 0xf0) / 16)]];
        sb := sb + [ENCODE_CHARS[And(b2, 0x0f) * 4]];
        sb := sb + [PAD];
        assert sb == done + Base64Of(rest);
        return;
      }
      var b3 := Unsigned(data[i]);
      i := i + 1;
      sb := sb + [ENCODE_CHARS[b1 / 4]];
      sb := sb + [ENCODE_CHARS[Or(And(b1, 0x03) * 16, And(b2, 0xf0) / 16)]];
      sb := sb + [ENCODE_CHARS[Or(And(b2, 0x0f) * 4, And(b3, 0xc0) / 64)]];
      sb := sb + [ENCODE_CHARS[And(b3, 0x3f)]];
      assert rest[3..] == d[i..];
      assert sb + Base64Of(d[i..]) == done + Base64Of(rest);
    }
    assert d[i..] == [];
    assert sb + [] == sb;
  }

  lemma NothingEncoded()
    ensures Base64Of([]) == []
  {
  }

  lemma EncodeChars(b1: Octet, b2: Octet, b3: Octet)
    ensures |ENCODE_CHARS| == 64
    ensures var s := Cut(Group(b1, b2, b3));
            ENCODE_CHARS[s.0] == Alphabet(s.0) && ENCODE_CHARS[s.1] == Alphabet(s.1)
            && ENCODE_CHARS[s.2] == Alphabet(s.2) && ENCODE_CHARS[s.3] == Alphabet(s.3)
  {
    hide Cut, Alphabet, ENCODE_CHARS;
    var s := Cut(Group(b1, b2, b3));
    EncodeTable(s.0);
    EncodeTable(s.1);
    EncodeTable(s.2);
    EncodeTable(s.3);
  }

  /** Four characters for every three octets begun. */
  lemma {:induction false} EncodedLength(d: seq<Octet>)
    ensures |Base64Of(d)| == (|d| + 2) / 3 * 4
  {
    hide Cut, Alphabet, Group;
    if |d| >= 3 {
      EncodedLength(d[3..]);
    }
  }

  // ---- decode -------------------------------------------------------------------------------------------------------

  type Ascii = c: int | 0 <= c < 128

  const QUESTION: Ascii := 63

  predicate SurrogatePair(s: JString) {
    |s| >= 2 && 0xD800 <= s[0] < 0xDC00 && 0xDC00 <= s[1] < 0xE000
  }

  /** `str.getBytes("US-ASCII")`: one question mark for every other character. */
  function AsciiBytes(s: JString): seq<Ascii>
    decreases |s|
  {
    if s == [] then []
    else if SurrogatePair(s) then [QUESTION] + AsciiBytes(s[2..])
    else [if s[0] < 128 then s[0] else QUESTION] + AsciiBytes(s[1..])
  }

  /** What one of the four inner loops ends with: a value, the padding, the end of the text, or an index beyond it. */
  datatype Found = Value(v: Sextet, next: nat) | Padding | Missing | Beyond

  /** The next value from position i on; everything else is skipped. */
  function Next(data: seq<Ascii>, i: nat, pad: bool): (f: Found)
    ensures f.Value? ==> i < f.next <= |data|
    decreases |data| - i
  {
    if i >= |data| then Beyond
    else if pad && data[i] == PAD then Padding
    else if ValueOf(data[i]) != -1 then Value(ValueOf(data[i]), i + 1)
    else if i + 1 < |data| then Next(data, i + 1, pad)
    else Missing
  }

  /** The octets of the groups from position i on; None if the array is indexed beyond its end. */
  function DecodeFrom(data: seq<Ascii>, i: nat, sb: seq<Octet>): Option<seq<Octet>>
    decreases |data| - i
  {
    if i >= |data| then Some(sb)
    else match Next(data, i, false) {
      case Missing | Padding => Some(sb)
      case Beyond => None
      case Value(b1, i1) =>
        match Next(data, i1, false)
        case Missing | Padding => Some(sb)
        case Beyond => None
        case Value(b2, i2) =>
          var one := sb + [b1 * 4 + b2 / 16];
          match Next(data, i2, true)
          case Missing | Padding => Some(one)
          case Beyond => None
          case Value(b3, i3) =>
            var two := one + [b2 % 16 * 16 + b3 / 4];
            match Next(data, i3, true)
            case Missing | Padding => Some(two)
            case Beyond => None
            case Value(b4, i4) => DecodeFrom(data, i4, two + [b3 % 4 * 64 + b4])
    }
  }

  /** `getBytes("iso8859-1")` of characters below 256. */
  function Signed(o: Octet): JByte {
    if o < 128 then o else o - 256
  }

  function Bytes(d: seq<Octet>): (r: seq<JByte>)
    ensures |r| == |d| && forall i :: 0 <= i < |d| ==> r[i] == Signed(d[i])
  {
    seq<JByte>(|d|, i requires 0 <= i < |d| => Signed(d[i]))
  }

  /** What decode returns; None stands for ArrayIndexOutOfBoundsException. */
  function Decoded(str: JString): Option<seq<JByte>> {
    match DecodeFrom(AsciiBytes(str), 0, [])
    case Some(d) => Some(Bytes(d))
    case None => None
  }

  /** The inner do-while loops; those for the third and fourth value look for padding. */
  method ScanValue(data: seq<Ascii>, start: nat, pad: bool) returns (f: Found)
    ensures f == Next(data, start, pad)
  {
    hide DECODE_CHARS, ValueOf;
    var i, b := start, -1;
    while i < |data| && b == -1
      invariant b == -1 && i != start ==> start < i <= |data|
      invariant b == -1 && i < |data| ==> Next(data, i, pad) == Next(data, start, pad)
      invariant b == -1 && start < i == |data| ==> Next(data, start, pad) == Missing
      invariant b != -1 ==> 0 <= b < 64 && Next(data, start, pad) == Value(b, i)
    {
      DecodeTable(data[i]);
      ValueRange(data[i]);
      if pad && data[i] == 61 {
        return Padding;
      }
      b := DECODE_CHARS[data[i]];
      i := i + 1;
    }
    if b != -1 {
      return Value(b, i);
    }
    return if i == start then Beyond else Missing;
  }

  lemma ValueRange(c: nat)
    ensures -1 <= ValueOf(c) < 64
  {
  }

  lemma DecodeBits(b1: Sextet, b2: Sextet, b3: Sextet, b4: Sextet)
    ensures Or(b1 * 4, And(b2, 0x30) / 16) == b1 * 4 + b2 / 16
    ensures Or(And(b2, 0x0f) * 16, And(b3, 0x3c) / 4) == b2 % 16 * 16 + b3 / 4
    ensures Or(And(b3, 0x03) * 64, b4) == b3 % 4 * 64 + b4
  {
    hide Bitwise, And, Or;
    LowMasks(b2);
    LowMasks(b3);
    MiddleMasks(b2);
    MiddleMasks(b3);
    assert Pow2(2) == 4 && Pow2(4) == 16 && Pow2(6) == 64;
    OrSum(b1, b2 / 16, 2);
    OrSum(b2 % 16, b3 / 4, 4);
    OrSum(b3 % 4, b4, 6);
  }

  method Decode(str: JString) returns (r: Option<seq<JByte>>)
    ensures r == Decoded(str)
  {
    hide Next, And, Or, AsciiBytes;
    var data := AsciiBytes(str);
    var len, i := |data|, 0;
    var sb: seq<Octet> := [];
    while i < len
      invariant i <= len && DecodeFrom(data, i, sb) == DecodeFrom(data, 0, [])
      decreases len - i
    {
      var f1 := ScanValue(data, i, false);
      if f1.Beyond? { return None; }
      if !f1.Value? { break; }
      var f2 := ScanValue(data, f1.next, false);
      if f2.Beyond? { return None; }
      if !f2.Value? { break; }
      DecodeBits(f1.v, f2.v, 0, 0);
      ghost var before := sb;
      sb := sb + [Or(f1.v * 4, And(f2.v, 0x30) / 16)];
      var f3 := ScanValue(data, f2.next, true);
      if f3.Beyond? { return None; }
      if f3.Padding? { return Some(Bytes(sb)); }
      if !f3.Value? { break; }
      DecodeBits(f1.v, f2.v, f3.v, 0);
      sb := sb + [Or(And(f2.v, 0x0f) * 16, And(f3.v, 0x3c) / 4)];
      var f4 := ScanValue(data, f3.next, true);
      if f4.Beyond? { return None; }
      if f4.Padding? { return Some(Bytes(sb)); }
      if !f4.Value? { break; }
      DecodeBits(f1.v, f2.v, f3.v, f4.v);
      sb := sb + [Or(And(f3.v, 0x03) * 64, f4.v)];
      i := f4.next;
    }
    return Some(Bytes(sb));
  }

  // ---- the round trip -----------------------------------------------------------------------------------------------

  /** A character of the encoding: of the alphabet, or padding. */
  predicate Encoding(c: Unit) {
    ValueOf(c) != -1 || c == PAD
  }

  /** The text without what is no part of an encoding. */
  function Significant(s: JString): JString {
    if s == [] then [] else (if Encoding(s[0]) then [s[0]] else []) + Significant(s[1..])
  }

  lemma {:induction false} AsciiKeepsSignificant(s: JString)
    ensures Significant(AsciiBytes(s)) == Significant(s)
    decreases |s|
  {
    if s != [] {
      var t := AsciiBytes(s);
      if SurrogatePair(s) {
        AsciiKeepsSignificant(s[2..]);
        assert t[1..] == AsciiBytes(s[2..]);
        assert s[1..][1..] == s[2..];
      } else {
        AsciiKeepsSignificant(s[1..]);
        assert t[1..] == AsciiBytes(s[1..]);
      }
    }
  }

  /** The inner loop finds the first significant character, if it is a value, or padding where that is looked for. */
  lemma {:induction false} NextFinds(data: seq<Ascii>, i: nat, pad: bool, c: Unit, rest: JString)
    requires i <= |data| && Significant(data[i..]) == [c] + rest
    ensures ValueOf(c) != -1 ==>
              var f := Next(data, i, pad);
              f.Value? && f.v == ValueOf(c) && f.next <= |data| && Significant(data[f.next..]) == rest
    ensures c == PAD && pad ==> Next(data, i, pad) == Padding
    decreases |data| - i
  {
    hide ValueOf;
    PadIsNoValue();
    var s := data[i..];
    assert s[1..] == data[i + 1..] && s[0] == data[i];
    if Encoding(s[0]) {
      assert [s[0]] + Significant(s[1..]) == [c] + rest;
      assert ([c] + rest)[0] == c && ([c] + rest)[1..] == rest;
      assert ([s[0]] + Significant(s[1..]))[1..] == Significant(s[1..]);
    } else {
      assert Significant(s) == [] + Significant(s[1..]) == Significant(s[1..]);
      NextFinds(data, i + 1, pad, c, rest);
    }
  }

  lemma PadIsNoValue()
    ensures ValueOf(PAD) == -1
  {
  }

  lemma {:induction false} NextMisses(data: seq<Ascii>, i: nat, pad: bool)
    requires i < |data| && Significant(data[i..]) == []
    ensures Next(data, i, pad) == Missing
    decreases |data| - i
  {
    hide ValueOf;
    var s := data[i..];
    assert s[1..] == data[i + 1..] && s[0] == data[i];
    assert !Encoding(s[0]);
    if i + 1 < |data| {
      NextMisses(data, i + 1, pad);
    }
  }

  lemma AlphabetValue(v: Sextet)
    ensures ValueOf(Alphabet(v)) == v
  {
  }

  /** The octets come back from the 6-bit groups. */
  lemma CutBack(a: Octet, b: Octet, c: Octet)
    ensures var s := Cut(Group(a, b, c));
            s.0 * 4 + s.1 / 16 == a && s.1 % 16 * 16 + s.2 / 4 == b && s.2 % 4 * 64 + s.3 == c
  {
    hide Cut, Group;
    CutGroup(a, b, c);
    ModUnique(a % 4 * 16 + b / 16, 16, a % 4, b / 16);
    ModUnique(b % 16 * 4 + c / 64, 4, b % 16, c / 64);
  }

  /** Reading the first two values of a group. */
  lemma FirstTwo(data: seq<Ascii>, i: nat, x: Sextet, y: Sextet, rest: JString)
    requires i <= |data| && Significant(data[i..]) == [Alphabet(x), Alphabet(y)] + rest
    ensures var f := Next(data, i, false);
            && f.Value? && f.v == x
            && var g := Next(data, f.next, false);
               g.Value? && g.v == y && g.next <= |data| && Significant(data[g.next..]) == rest
  {
    hide Next, Alphabet, ValueOf, Significant;
    AlphabetValue(x);
    AlphabetValue(y);
    assert [Alphabet(x), Alphabet(y)] + rest == [Alphabet(x)] + ([Alphabet(y)] + rest);
    NextFinds(data, i, false, Alphabet(x), [Alphabet(y)] + rest);
    NextFinds(data, Next(data, i, false).next, false, Alphabet(y), rest);
  }

  /** From a position on, exactly the octets whose encoding is still to come are appended. */
  lemma {:induction false} DecodesRest(data: seq<Ascii>, i: nat, sb: seq<Octet>, d: seq<Octet>)
    requires i <= |data| && Significant(data[i..]) == Base64Of(d)
    ensures DecodeFrom(data, i, sb) == Some(sb + d)
    decreases |d|
  {
    hide Next, Alphabet, ValueOf, Significant, Cut, Group;
    if d == [] {
      assert sb + d == sb;
      if i < |data| {
        NextMisses(data, i, false);
      }
    } else {
      var a, b, c := d[0], if |d| > 1 then d[1] else 0, if |d| > 2 then d[2] else 0;
      var s := Cut(Group(a, b, c));
      CutBack(a, b, c);
      var rest := Base64Of(d)[2..];
      assert Base64Of(d) == [Alphabet(s.0), Alphabet(s.1)] + rest;
      FirstTwo(data, i, s.0, s.1, rest);
      var j := Next(data, Next(data, i, false).next, false).next;
      StartsBefore(data, i);
      PadIsNoValue();
      if |d| == 1 {
        NextFinds(data, j, true, PAD, rest[1..]);
        assert sb + [a] == sb + d;
      } else {
        AlphabetValue(s.2);
        NextFinds(data, j, true, Alphabet(s.2), rest[1..]);
        var k := Next(data, j, true).next;
        if |d| == 2 {
          NextFinds(data, k, true, PAD, rest[2..]);
          assert sb + [a] + [b] == sb + d;
        } else {
          AlphabetValue(s.3);
          NextFinds(data, k, true, Alphabet(s.3), rest[2..]);
          var next := Next(data, k, true).next;
          assert rest[2..] == Base64Of(d[3..]);
          DecodesRest(data, next, sb + [a] + [b] + [c], d[3..]);
          assert sb + [a] + [b] + [c] + d[3..] == sb + d;
        }
      }
    }
  }

  lemma StartsBefore(data: seq<Ascii>, i: nat)
    requires i <= |data| && Next(data, i, false).Value?
    ensures i < |data|
  {
  }

  lemma BytesBack(data: seq<JByte>)
    ensures Bytes(Octets(data)) == data
  {
  }

  /**
   * decode undoes encode, for every byte array, also after any characters that are neither of the alphabet nor padding
   * have been put into the text, anywhere.
   */
  lemma DecodeUndoesEncode(data: seq<JByte>, text: JString)
    requires Significant(text) == Base64Of(Octets(data))
    ensures Decoded(text) == Some(data)
  {
    hide Significant, Base64Of, DecodeFrom, AsciiBytes;
    AsciiKeepsSignificant(text);
    assert AsciiBytes(text)[0..] == AsciiBytes(text);
    DecodesRest(AsciiBytes(text), 0, [], Octets(data));
    assert [] + Octets(data) == Octets(data);
    BytesBack(data);
  }

  /** The encoding itself has nothing that decode would skip. */
  lemma {:induction false} EncodingIsSignificant(d: seq<Octet>)
    ensures Significant(Base64Of(d)) == Base64Of(d)
  {
    hide Cut, Group;
    if d != [] {
      var r := Base64Of(d);
      var s := Cut(Group(d[0], if |d| > 1 then d[1] else 0, if |d| > 2 then d[2] else 0));
      AllEncoding(s.0);
      AllEncoding(s.1);
      AllEncoding(s.2);
      AllEncoding(s.3);
      hide Alphabet, ValueOf;
      if |d| >= 3 {
        EncodingIsSignificant(d[3..]);
        assert r[4..] == Base64Of(d[3..]);
      } else {
        assert r[4..] == [] && Significant(r[4..]) == [];
      }
      assert r[1..][1..] == r[2..] && r[2..][1..] == r[3..] && r[3..][1..] == r[4..];
      assert Significant(r[3..]) == [r[3]] + r[4..];
      assert Significant(r[2..]) == [r[2]] + Significant(r[3..]);
      assert Significant(r[1..]) == [r[1]] + Significant(r[2..]);
      assert r == [r[0]] + ([r[1]] + ([r[2]] + ([r[3]] + r[4..])));
    }
  }

  lemma AllEncoding(v: Sextet)
    ensures Encoding(Alphabet(v)) && Encoding(PAD)
  {
  }

  lemma RoundTrip(data: seq<JByte>)
    ensures Decoded(Base64Of(Octets(data))) == Some(data)
  {
    EncodingIsSignificant(Octets(data));
    DecodeUndoesEncode(data, Base64Of(Octets(data)));
  }

  // ---- text that ends too early -------------------------------------------------------------------------------------

  predicate IsValue(c: Ascii) {
    ValueOf(c) != -1
  }

  /** How many characters of the alphabet stand from position i up to position j. */
  function Values(data: seq<Ascii>, i: nat, j: nat): nat
    requires j <= |data|
    decreases j - i
  {
    if i >= j then 0 else (if IsValue(data[i]) then 1 else 0) + Values(data, i + 1, j)
  }

  /**
   * Padding stands at position p, and inside its group two or three values come before it; `c` values came before i.
   */
  predicate PadsGroup(data: seq<Ascii>, i: nat, c: nat, p: int) {
    i <= p < |data| && data[p] == PAD && (c + Values(data, i, p)) % 4 >= 2
  }

  /** The text ends with a character of the alphabet that does not complete its group. */
  predicate EndsInside(data: seq<Ascii>, i: nat, c: nat) {
    data != [] && IsValue(data[|data| - 1]) && (c + Values(data, i, |data|)) % 4 != 0
  }

  /** From position i on, with `c` values of a group read, the loops run over the end. */
  predicate Overreads(data: seq<Ascii>, i: nat, c: nat)
    requires i <= |data| && c < 4
    decreases |data| - i
  {
    if i == |data| then c != 0 && data != [] && IsValue(data[i - 1])
    else if data[i] == PAD && c >= 2 then false
    else Overreads(data, i + 1, if IsValue(data[i]) then (c + 1) % 4 else c)
  }

  /** One inner loop moves to the next value of the group, or ends the reading. */
  lemma {:induction false} NextOverreads(data: seq<Ascii>, i: nat, c: nat)
    requires i < |data| && c < 4
    ensures var f := Next(data, i, c >= 2);
            && !f.Beyond?
            && (f.Value? ==> IsValue(data[f.next - 1]) && Overreads(data, i, c) == Overreads(data, f.next, (c + 1) % 4))
            && (!f.Value? ==> !Overreads(data, i, c))
    decreases |data| - i
  {
    hide ValueOf;
    PadIsNoValue();
    if !(data[i] == PAD && c >= 2) && !IsValue(data[i]) && i + 1 < |data| {
      NextOverreads(data, i + 1, c);
    }
  }

  lemma {:induction false} ThrowsIffOverreads(data: seq<Ascii>, i: nat, sb: seq<Octet>)
    requires i <= |data|
    ensures DecodeFrom(data, i, sb).None? <==> Overreads(data, i, 0)
    decreases |data| - i
  {
    hide Next, Overreads, ValueOf;
    if i == |data| {
      OverreadsAtEnd(data, 0);
    } else {
      NextOverreads(data, i, 0);
      var f1 := Next(data, i, false);
      if f1.Value? {
        AfterValue(data, f1.next, 1);
        var f2 := Next(data, f1.next, false);
        if f2.Value? {
          AfterValue(data, f2.next, 2);
          var f3 := Next(data, f2.next, true);
          if f3.Value? {
            AfterValue(data, f3.next, 3);
            var f4 := Next(data, f3.next, true);
            if f4.Value? {
              var out := sb + [f1.v * 4 + f2.v / 16] + [f2.v % 16 * 16 + f3.v / 4] + [f3.v % 4 * 64 + f4.v];
              ThrowsIffOverreads(data, f4.next, out);
            }
          }
        }
      }
    }
  }

  /** Inside a group the next loop is beyond the end exactly where the last value was the last character. */
  lemma AfterValue(data: seq<Ascii>, i: nat, c: nat)
    requires 0 < i <= |data| && 0 < c < 4 && IsValue(data[i - 1])
    ensures var f := Next(data, i, c >= 2);
            && (f.Beyond? <==> i == |data|)
            && (f.Value? ==> IsValue(data[f.next - 1]) && Overreads(data, i, c) == Overreads(data, f.next, (c + 1) % 4))
            && (!f.Value? ==> Overreads(data, i, c) == f.Beyond?)
  {
    hide ValueOf;
    if i < |data| {
      NextOverreads(data, i, c);
    }
  }

  lemma OverreadsAtEnd(data: seq<Ascii>, c: nat)
    requires c < 4
    ensures Overreads(data, |data|, c) == (c != 0 && data != [] && IsValue(data[|data| - 1]))
  {
  }

  /** The scan in closed form. */
  lemma {:induction false} OverreadsIff(data: seq<Ascii>, i: nat, c: nat)
    requires i <= |data| && c < 4
    ensures Overreads(data, i, c) <==> EndsInside(data, i, c) && !exists p :: PadsGroup(data, i, c, p)
    decreases |data| - i
  {
    hide ValueOf;
    if i < |data| {
      var d := if IsValue(data[i]) then (c + 1) % 4 else c;
      var next := i + 1;
      OverreadsIff(data, next, d);
      CountFrom(data, i, c, |data|);
      forall p: int | p != i ensures PadsGroup(data, i, c, p) == PadsGroup(data, next, d, p) {
        if i < p < |data| {
          CountFrom(data, i, c, p);
        }
      }
      PadsHere(data, i, c);
      assert !PadsGroup(data, next, d, i);
      hide PadsGroup, Values;
      if data[i] == PAD && c >= 2 {
        assert PadsGroup(data, i, c, i);
      } else if p :| PadsGroup(data, next, d, p) {
        assert PadsGroup(data, i, c, p);
      }
    }
  }

  lemma PadsHere(data: seq<Ascii>, i: nat, c: nat)
    requires i < |data| && c < 4
    ensures PadsGroup(data, i, c, i) <==> data[i] == PAD && c >= 2
  {
  }

  lemma CountFrom(data: seq<Ascii>, i: nat, c: nat, j: nat)
    requires i < j <= |data| && c < 4
    ensures var d := if IsValue(data[i]) then (c + 1) % 4 else c;
            (c + Values(data, i, j)) % 4 == (d + Values(data, i + 1, j)) % 4
  {
  }

  /**
   * decode indexes past the end of its array exactly for a text whose last character is of the alphabet, in which the
   * number of such characters is not a multiple of four, and in which no padding stands behind two or three values of a
   * group.
   */
  lemma DecodeThrowsIff(str: JString)
    ensures var data := AsciiBytes(str);
            Decoded(str).None? <==> EndsInside(data, 0, 0) && !exists p :: PadsGroup(data, 0, 0, p)
  {
    hide DecodeFrom, AsciiBytes, Overreads, EndsInside, PadsGroup;
    ThrowsIffOverreads(AsciiBytes(str), 0, []);
    OverreadsIff(AsciiBytes(str), 0, 0);
  }

  // ---- what is decoded ----------------------------------------------------------------------------------------------

  /** The values of the characters of the alphabet, in order. */
  function ValuesIn(data: seq<Ascii>): seq<Sextet> {
    if data == [] then []
    else
      ValueRange(data[0]);
      (if IsValue(data[0]) then [ValueOf(data[0])] else []) + ValuesIn(data[1..])
  }

  /** A group as a number of 24 bits; where it has fewer than four values, as if zeros followed. */
  function Joined(group: seq<Sextet>): (n: nat)
    requires 0 < |group| <= 4
    ensures n < 0x100_0000
  {
    group[0] as int * 0x4_0000 + (if |group| > 1 then group[1] as int * 0x1000 else 0)
    + (if |group| > 2 then group[2] as int * 0x40 else 0) + if |group| > 3 then group[3] else 0
  }

  /** The octets of a group: one fewer than it has values. */
  function OctetsOf(group: seq<Sextet>): (d: seq<Octet>)
    requires 0 < |group| <= 4
    ensures |d| == |group| - 1
  {
    var n := Joined(group);
    [n / 0x1_0000, n / 0x100 % 0x100, n % 0x100][..|group| - 1]
  }

  /** Values in groups of four, the last with what is left. */
  function Ungrouped(vs: seq<Sextet>): seq<Octet> {
    if vs == [] then []
    else if |vs| < 4 then OctetsOf(vs)
    else OctetsOf(vs[..4]) + Ungrouped(vs[4..])
  }

  /** Where the reading ends: at the first padding that stands behind two or three values of a group, or at the end. */
  ghost predicate ReadingEnds(data: seq<Ascii>, i: nat, c: nat, end: int) {
    && i <= end <= |data| && (end < |data| ==> PadsGroup(data, i, c, end))
    && forall p :: i <= p < end ==> !PadsGroup(data, i, c, p)
  }

  /** The values the loops take from position i on, with `c` values of a group read. */
  function Taken(data: seq<Ascii>, i: nat, c: nat): seq<Sextet>
    requires i <= |data| && c < 4
    decreases |data| - i
  {
    if i == |data| || (data[i] == PAD && c >= 2) then []
    else if IsValue(data[i]) then
      ValueRange(data[i]);
      [ValueOf(data[i])] + Taken(data, i + 1, (c + 1) % 4)
    else Taken(data, i + 1, c)
  }

  /** One inner loop takes the next value, if there is one. */
  lemma {:induction false} NextTakes(data: seq<Ascii>, i: nat, c: nat)
    requires i <= |data| && c < 4
    ensures var f := Next(data, i, c >= 2);
            Taken(data, i, c) == if f.Value? then [f.v] + Taken(data, f.next, (c + 1) % 4) else []
    decreases |data| - i
  {
    hide ValueOf;
    PadIsNoValue();
    if i < |data| && !(data[i] == PAD && c >= 2) && !IsValue(data[i]) {
      NextTakes(data, i + 1, c);
    }
  }

  lemma GroupOctets(a: Sextet, b: Sextet, c: Sextet, d: Sextet)
    ensures OctetsOf([a]) == [] && OctetsOf([a, b]) == [a * 4 + b / 16]
    ensures OctetsOf([a, b, c]) == [a * 4 + b / 16, b % 16 * 16 + c / 4]
    ensures OctetsOf([a, b, c, d]) == [a * 4 + b / 16, b % 16 * 16 + c / 4, c % 4 * 64 + d]
  {
    TopOctets(a, b, 0, 0);
    TopOctets(a, b, c, 0);
    TopOctets(a, b, c, d);
  }

  lemma TopOctets(a: Sextet, b: Sextet, c: Sextet, d: Sextet)
    ensures var n := a * 0x4_0000 + b * 0x1000 + c * 0x40 + d;
            && n / 0x1_0000 == a * 4 + b / 16 && n / 0x100 % 0x100 == b % 16 * 16 + c / 4 && n % 0x100 == c % 4 * 64 + d
  {
    var n := a * 0x4_0000 + b * 0x1000 + c * 0x40 + d;
    ModUnique(n, 0x1_0000, a * 4 + b / 16, b % 16 * 0x1000 + c * 0x40 + d);
    ModUnique(n, 0x100, a * 0x400 + b * 16 + c / 4, c % 4 * 64 + d);
    ModUnique(a * 0x400 + b * 16 + c / 4, 0x100, a * 4 + b / 16, b % 16 * 16 + c / 4);
  }

  lemma ShortGroups(sb: seq<Octet>, a: Sextet, b: Sextet, c: Sextet)
    ensures sb == sb + Ungrouped([]) == sb + Ungrouped([a] + [])
    ensures sb + [a * 4 + b / 16] == sb + Ungrouped([a] + ([b] + []))
    ensures sb + [a * 4 + b / 16] + [b % 16 * 16 + c / 4] == sb + Ungrouped([a] + ([b] + ([c] + [])))
  {
    GroupOctets(a, b, c, 0);
    hide OctetsOf;
    assert [a] + ([b] + []) == [a, b] && [a] + ([b] + ([c] + [])) == [a, b, c];
  }

  lemma FullGroup(sb: seq<Octet>, a: Sextet, b: Sextet, c: Sextet, d: Sextet, rest: seq<Sextet>)
    ensures sb + [a * 4 + b / 16] + [b % 16 * 16 + c / 4] + [c % 4 * 64 + d] + Ungrouped(rest)
         == sb + Ungrouped([a] + ([b] + ([c] + ([d] + rest))))
  {
    GroupOctets(a, b, c, d);
    hide OctetsOf;
    var group := [a, b, c, d];
    assert [a] + ([b] + ([c] + ([d] + rest))) == group + rest;
    FirstGroup(group, rest);
  }

  /** The four inner loops find a value each. */
  predicate WholeGroup(data: seq<Ascii>, i: nat) {
    match Next(data, i, false)
    case Value(_, i1) =>
      (match Next(data, i1, false)
       case Value(_, i2) =>
         (match Next(data, i2, true)
          case Value(_, i3) => Next(data, i3, true).Value?
          case _ => false)
       case _ => false)
    case _ => false
  }

  lemma EndsEarly(data: seq<Ascii>, i: nat, sb: seq<Octet>)
    requires i <= |data| && DecodeFrom(data, i, sb).Some? && !WholeGroup(data, i)
    ensures DecodeFrom(data, i, sb).value == sb + Ungrouped(Taken(data, i, 0))
  {
    hide Next, Taken, ValueOf, Ungrouped;
    NextTakes(data, i, 0);
    ShortGroups(sb, 0, 0, 0);
    var f1 := Next(data, i, false);
    if i == |data| {
      NextAtEnd(data);
    } else if f1.Value? {
      NextTakes(data, f1.next, 1);
      ShortGroups(sb, f1.v, 0, 0);
      var f2 := Next(data, f1.next, false);
      if f2.Value? {
        NextTakes(data, f2.next, 2);
        ShortGroups(sb, f1.v, f2.v, 0);
        var f3 := Next(data, f2.next, true);
        if f3.Value? {
          NextTakes(data, f3.next, 3);
          ShortGroups(sb, f1.v, f2.v, f3.v);
        }
      }
    }
  }

  /** What the loops append is what stands for the values they take. */
  lemma {:induction false} DecodesTaken(data: seq<Ascii>, i: nat, sb: seq<Octet>)
    requires i <= |data| && DecodeFrom(data, i, sb).Some?
    ensures DecodeFrom(data, i, sb).value == sb + Ungrouped(Taken(data, i, 0))
    decreases |data| - i
  {
    hide Next, Taken, ValueOf, Ungrouped;
    if !WholeGroup(data, i) {
      EndsEarly(data, i, sb);
    } else {
      var f1 := Next(data, i, false);
      var f2 := Next(data, f1.next, false);
      var f3 := Next(data, f2.next, true);
      var f4 := Next(data, f3.next, true);
      NextTakes(data, i, 0);
      NextTakes(data, f1.next, 1);
      NextTakes(data, f2.next, 2);
      NextTakes(data, f3.next, 3);
      var out := sb + [f1.v * 4 + f2.v / 16] + [f2.v % 16 * 16 + f3.v / 4] + [f3.v % 4 * 64 + f4.v];
      DecodesTaken(data, f4.next, out);
      FullGroup(sb, f1.v, f2.v, f3.v, f4.v, Taken(data, f4.next, 0));
    }
  }

  lemma NextAtEnd(data: seq<Ascii>)
    ensures Next(data, |data|, false) == Beyond
  {
  }

  lemma FirstGroup(group: seq<Sextet>, rest: seq<Sextet>)
    requires |group| == 4
    ensures Ungrouped(group + rest) == OctetsOf(group) + Ungrouped(rest)
  {
    assert (group + rest)[..4] == group && (group + rest)[4..] == rest;
  }

  lemma EndsOneBefore(data: seq<Ascii>, i: nat, c: nat, end: nat)
    requires i < |data| && c < 4 && !(data[i] == PAD && c >= 2)
    requires ReadingEnds(data, i + 1, if IsValue(data[i]) then (c + 1) % 4 else c, end)
    ensures ReadingEnds(data, i, c, end)
  {
    hide ValueOf;
    PadsHere(data, i, c);
    var d := if IsValue(data[i]) then (c + 1) % 4 else c;
    forall p | i < p <= end ensures PadsGroup(data, i, c, p) == PadsGroup(data, i + 1, d, p) {
      if p < |data| {
        CountFrom(data, i, c, p);
      }
    }
    hide PadsGroup;
  }

  lemma ValuesInStep(data: seq<Ascii>, i: nat, end: nat)
    requires i < end <= |data|
    ensures ValuesIn(data[i..end]) == (if IsValue(data[i]) then [ValueOf(data[i])] else []) + ValuesIn(data[i + 1..end])
  {
    hide ValueOf;
    assert data[i..end][1..] == data[i + 1..end];
  }

  /** The values taken are those of the characters in front of where the reading ends. */
  lemma {:induction false} TakenIsPrefix(data: seq<Ascii>, i: nat, c: nat) returns (end: nat)
    requires i <= |data| && c < 4
    ensures ReadingEnds(data, i, c, end) && Taken(data, i, c) == ValuesIn(data[i..end])
    decreases |data| - i
  {
    hide ValueOf;
    end := i;
    assert data[i..i] == [];
    if i < |data| {
      PadsHere(data, i, c);
      if !(data[i] == PAD && c >= 2) {
        hide ReadingEnds, ValuesIn;
        end := TakenIsPrefix(data, i + 1, if IsValue(data[i]) then (c + 1) % 4 else c);
        EndsOneBefore(data, i, c, end);
        EndIsBehind(data, i + 1, if IsValue(data[i]) then (c + 1) % 4 else c, end);
        ValuesInStep(data, i, end);
      }
    }
  }

  lemma EndIsBehind(data: seq<Ascii>, i: nat, c: nat, end: nat)
    requires ReadingEnds(data, i, c, end)
    ensures i <= end <= |data|
  {
  }

  /**
   * What decode makes of any text: the values in front of the first padding that stands behind two or three values of a
   * group, or of the end, in groups of four, of which a last one of two or three gives one or two octets; unless the
   * end comes behind a character of the alphabet inside a group.
   */
  lemma DecodesTo(str: JString) returns (end: nat)
    ensures var data := AsciiBytes(str);
            && ReadingEnds(data, 0, 0, end)
            && Decoded(str) == if end == |data| && EndsInside(data, 0, 0) then None
                               else Some(Bytes(Ungrouped(ValuesIn(data[..end]))))
  {
    hide DecodeFrom, AsciiBytes, EndsInside, PadsGroup, Taken, Ungrouped, Bytes;
    var data := AsciiBytes(str);
    end := TakenIsPrefix(data, 0, 0);
    DecodeThrowsIff(str);
    assert data[0..end] == data[..end];
    if Decoded(str).Some? {
      DecodesTaken(data, 0, []);
      assert [] + Ungrouped(Taken(data, 0, 0)) == Ungrouped(Taken(data, 0, 0));
    }
    assert end == |data| <==> !exists p :: PadsGroup(data, 0, 0, p) by {
      PadsAreInside(data);
    }
  }

  lemma PadsAreInside(data: seq<Ascii>)
    ensures forall p :: PadsGroup(data, 0, 0, p) ==> 0 <= p < |data|
  {
  }
}
