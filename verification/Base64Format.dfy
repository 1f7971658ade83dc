/** The encoding of Base64ForAPP, character for character and bit for bit. */
module Base64Format {
  import opened Base64
  import opened Bits

  const CAPITALS := "ABCDEFGHIJKLMNOPQRSTUVWXYZ"
  const LETTERS := "abcdefghijklmnopqrstuvwxyz"
  const DIGITS := "0123456789"

  /** Table 1 of RFC 4648, section 4. */
  function Listed(v: Sextet): char {
    if v < 26 then CAPITALS[v]
    else if v < 52 then LETTERS[v - 26]
    else if v < 62 then DIGITS[v - 52]
    else if v == 62 then '+'
    else '/'
  }

  lemma AlphabetIsListed(v: Sextet)
    ensures Alphabet(v) == Listed(v) as int && |ENCODE_CHARS| == 64 && ENCODE_CHARS[v] == Alphabet(v)
  {
    EncodeTable(v);
    hide ENCODE_CHARS;
  }

  /** Decoding takes a character of the table for its position there, and no other character for a value. */
  lemma ValuesAreListed(c: nat, v: Sextet)
    requires c < 128
    ensures |DECODE_CHARS| == 128 && (DECODE_CHARS[c] == v <==> Listed(v) as int == c)
    ensures -1 <= DECODE_CHARS[c] < 64
  {
    DecodeTable(c);
    hide DECODE_CHARS, Listed;
    AlphabetIsListed(v);
  }

  /** Four digits of six bits, three digits of eight: the number they stand for, most significant digit first. */
  function OfSextets(p: int, q: int, r: int, s: int): int {
    ((p * 64 + q) * 64 + r) * 64 + s
  }

  function OfOctets(a: int, b: int, c: int): int {
    (a * 256 + b) * 256 + c
  }

  /** The octet at a position, zero behind the end. */
  function OctetAt(d: seq<Octet>, i: nat): Octet {
    if i < |d| then d[i] else 0
  }

  /**
   * The k-th four characters of an encoding spell the bits of the k-th three octets, zeros where there are none; the
   * third and the fourth are padding exactly where the second and the third octet are missing.
   */
  lemma {:induction false} GroupsAreBits(d: seq<Octet>, k: nat) returns (p: Sextet, q: Sextet, r: Sextet, s: Sextet)
    requires 3 * k < |d|
    ensures var e := Base64Of(d);
            && 4 * k + 3 < |e|
            && e[4 * k] == Listed(p) as int && e[4 * k + 1] == Listed(q) as int
            && e[4 * k + 2] == (if 3 * k + 1 < |d| then Listed(r) as int else 61)
            && e[4 * k + 3] == (if 3 * k + 2 < |d| then Listed(s) as int else 61)
    ensures OfSextets(p, q, r, s) == OfOctets(d[3 * k], OctetAt(d, 3 * k + 1), OctetAt(d, 3 * k + 2))
    decreases k
  {
    hide Listed, Alphabet, Cut, Group, OfSextets, OfOctets;
    if k == 0 {
      p, q, r, s := FirstGroupIsBits(d[0], OctetAt(d, 1), OctetAt(d, 2));
    } else {
      p, q, r, s := GroupsAreBits(d[3..], k - 1);
    }
  }

  lemma FirstGroupIsBits(a: Octet, b: Octet, c: Octet) returns (p: Sextet, q: Sextet, r: Sextet, s: Sextet)
    ensures Cut(Group(a, b, c)) == (p, q, r, s)
    ensures Alphabet(p) == Listed(p) as int && Alphabet(q) == Listed(q) as int
    ensures Alphabet(r) == Listed(r) as int && Alphabet(s) == Listed(s) as int
    ensures OfSextets(p, q, r, s) == OfOctets(a, b, c)
  {
    hide Listed, Alphabet;
    var t := Cut(Group(a, b, c));
    p, q, r, s := t.0, t.1, t.2, t.3;
    AlphabetIsListed(p);
    AlphabetIsListed(q);
    AlphabetIsListed(r);
    AlphabetIsListed(s);
    CutIsWhole(Group(a, b, c));
  }

  lemma CutIsWhole(n: nat)
    requires n < 0x100_0000
    ensures var t := Cut(n); OfSextets(t.0, t.1, t.2, t.3) == n
  {
    assert n / 64 / 64 == n / 4096 && n / 4096 / 64 == n / 262144 && n / 262144 < 64;
  }
}
