/** Java's strings and 32-bit integers, as far as the modelled classes use them. */
module JavaText {
  import opened Bits

  /** A UTF-16 code unit, Java's and JavaScript's `char`. */
  type Unit = c: int | 0 <= c < 0x1_0000

  type JString = seq<Unit>

  /** The code units of an ASCII literal. */
  function Text(s: string): (t: JString)
    requires forall i :: 0 <= i < |s| ==> s[i] as int < 128
    ensures |t| == |s|
    ensures forall i :: 0 <= i < |s| ==> t[i] == s[i] as int
  {
    seq<Unit>(|s|, i requires 0 <= i < |s| => s[i] as int)
  }

  predicate StartsWith(s: JString, prefix: JString) {
    |prefix| <= |s| && s[..|prefix|] == prefix
  }

  const TWO_32 := 0x1_0000_0000
  const MAX_INT := 0x7FFF_FFFF
  const MIN_INT := -0x8000_0000

  type JInt = x: int | MIN_INT <= x <= MAX_INT

  const TWO_64 := 0x1_0000_0000_0000_0000

  type JLong = x: int | -0x8000_0000_0000_0000 <= x <= 0x7FFF_FFFF_FFFF_FFFF

  type JByte = b: int | -128 <= b <= 127

  /** `b & 0xff` */
  function Unsigned(b: JByte): Octet {
    b % 256
  }

  /** The value an `int` holds after an operation whose exact result is `x`. */
  function Wrap32(x: int): (r: JInt)
    ensures (r - x) % TWO_32 == 0
  {
    var m := x % TWO_32;
    if m > MAX_INT then m - TWO_32 else m
  }

  function Wrap64(x: int): JLong {
    var m := x % TWO_64;
    if m > 0x7FFF_FFFF_FFFF_FFFF then m - TWO_64 else m
  }

  /** The bitwise operators on `int` and `long`. */
  function IntOp(g: Gate, x: JInt, y: JInt): JInt {
    Wrap32(Bitwise(g, x % TWO_32, y % TWO_32, 32))
  }

  function LongOp(g: Gate, x: JLong, y: JLong): JLong {
    Wrap64(Bitwise(g, x % TWO_64, y % TWO_64, 64))
  }

  function LongNot(x: JLong): JLong {
    -1 - x
  }

  /** The exact result is recovered by adding a multiple of 2^32. */
  lemma Wrap32Quotient(x: int) returns (k: int)
    ensures Wrap32(x) == x + k * TWO_32
  {
    k := (Wrap32(x) - x) / TWO_32;
  }

  lemma Wrap32Shift(x: int, k: int)
    ensures Wrap32(x + k * TWO_32) == Wrap32(x)
  {
    assert (x + k * TWO_32 - x) % TWO_32 == 0;
    Wrap32Congruent(x + k * TWO_32, x);
  }

  /** Two exact results that differ by a multiple of 2^32 leave the same `int`. */
  lemma Wrap32Congruent(x: int, y: int)
    requires (x - y) % TWO_32 == 0
    ensures Wrap32(x) == Wrap32(y)
  {
  }

  /** ASCII case folding, as `hash` and `eq` do it: only A to Z move. */
  function Lower(c: Unit): (r: Unit)
    ensures !('A' as int <= r <= 'Z' as int)
  {
    if 'A' as int <= c <= 'Z' as int then c + 32 else c
  }
}
