/** Hashing and comparison of header names. */
module HeaderNames {
  import opened JavaText

  const BUCKET_SIZE := 17

  /** The multiplicative hash over the folded name, without any wrap-around. */
  ghost function Polynomial(name: JString): int {
    if name == [] then 0 else 31 * Polynomial(name[1..]) + Lower(name[0])
  }

  /** The accumulator of the hash loop after it has read all of `name`, last character first. */
  function Accumulated(name: JString): JInt {
    if name == [] then 0 else Wrap32(31 * Accumulated(name[1..]) + Lower(name[0]))
  }

  /** Makes an `int` non-negative; the one `int` whose negation overflows becomes the largest one. */
  function NonNegative(h: JInt): (r: JInt)
    ensures 0 <= r
  {
    if h > 0 then h else if h == MIN_INT then MAX_INT else -h
  }

  function HashOf(name: JString): (r: JInt)
    ensures 0 <= r
  {
    NonNegative(Accumulated(name))
  }

  function BucketOf(hash: int): (b: nat)
    ensures b < BUCKET_SIZE
  {
    hash % BUCKET_SIZE
  }

  /** Two names are the same header name: equal but for ASCII case. */
  predicate SameName(a: JString, b: JString) {
    |a| == |b| && forall i :: 0 <= i < |a| ==> Lower(a[i]) == Lower(b[i])
  }

  /** The same character, or an ASCII letter and the other case of it: 65 to 90 are A to Z, 97 to 122 are a to z. */
  predicate SameLetter(c: Unit, d: Unit) {
    c == d || (65 <= c <= 90 && d == c + 32) || (97 <= c <= 122 && d == c - 32)
  }

  /** The names agree letter for letter, each in upper or lower case. */
  predicate SameLetters(a: JString, b: JString) {
    |a| == |b| && forall i :: 0 <= i < |a| ==> SameLetter(a[i], b[i])
  }

  /** Folding makes exactly those names equal that differ in the case of ASCII letters only. */
  lemma SameNameIff(a: JString, b: JString)
    ensures SameName(a, b) <==> SameLetters(a, b)
  {
    forall i | 0 <= i < |a| && |a| == |b|
      ensures Lower(a[i]) == Lower(b[i]) <==> SameLetter(a[i], b[i])
    {
      FoldIff(a[i], b[i]);
    }
    hide Lower, SameLetter;
  }

  lemma FoldIff(c: Unit, d: Unit)
    ensures Lower(c) == Lower(d) <==> SameLetter(c, d)
  {
  }

  method Hash(name: JString) returns (r: JInt)
    ensures r == HashOf(name)
  {
    var h: JInt := 0;
    var i := |name| - 1;
    while i >= 0
      invariant -1 <= i < |name|
      invariant h == Accumulated(name[i + 1..])
    {
      var c := name[i];
      if 'A' as int <= c <= 'Z' as int {
        c := c + 32;
      }
      assert name[i..][0] == name[i] && name[i..][1..] == name[i + 1..];
      h := Wrap32(31 * h + c);
      i := i - 1;
    }
    assert name[0..] == name;
    if h > 0 {
      r := h;
    } else if h == MIN_INT {
      r := MAX_INT;
    } else {
      r := -h;
    }
  }

  method Eq(name1: JString, name2: JString) returns (r: bool)
    ensures r <==> SameName(name1, name2)
    ensures r <==> SameLetters(name1, name2)
  {
    hide SameLetters;
    SameNameIff(name1, name2);
    if |name1| != |name2| {
      return false;
    }
    var i := |name1| - 1;
    while i >= 0
      invariant -1 <= i < |name1|
      invariant forall j :: i < j < |name1| ==> Lower(name1[j]) == Lower(name2[j])
    {
      var c1, c2 := name1[i], name2[i];
      if c1 != c2 {
        if 'A' as int <= c1 <= 'Z' as int {
          c1 := c1 + 32;
        }
        if 'A' as int <= c2 <= 'Z' as int {
          c2 := c2 + 32;
        }
        if c1 != c2 {
          return false;
        }
      }
      i := i - 1;
    }
    return true;
  }

  /** Wrapping at every step loses nothing but multiples of 2^32. */
  lemma {:induction false} AccumulatedIsPolynomial(name: JString)
    ensures Accumulated(name) == Wrap32(Polynomial(name))
  {
    if name != [] {
      AccumulatedIsPolynomial(name[1..]);
      var k := Wrap32Quotient(Polynomial(name[1..]));
      Wrap32Shift(Polynomial(name), 31 * k);
    }
  }

  ghost function Power31(n: nat): nat {
    if n == 0 then 1 else 31 * Power31(n - 1)
  }

  /** The polynomial: each character counts with the power of 31 of its position, A to Z (65 to 90) as a to z. */
  lemma {:induction false} PolynomialSplits(a: JString, c: Unit, b: JString)
    ensures Polynomial(a + [c] + b)
         == Polynomial(a) + Power31(|a|) * ((if 65 <= c <= 90 then c + 32 else c) + 31 * Polynomial(b))
  {
    var s := a + [c] + b;
    if a == [] {
      assert s[1..] == b;
    } else {
      assert s[1..] == a[1..] + [c] + b;
      PolynomialSplits(a[1..], c, b);
      Distributes(Power31(|a| - 1), (if 65 <= c <= 90 then c + 32 else c) + 31 * Polynomial(b));
    }
  }

  lemma Distributes(p: int, x: int)
    ensures 31 * (p * x) == 31 * p * x
  {
  }

  /** Names that are the same have the same hash, hence the same bucket. */
  lemma {:induction false} SameNameSameHash(a: JString, b: JString)
    requires SameName(a, b)
    ensures HashOf(a) == HashOf(b)
  {
    SameNameSameAccumulated(a, b);
  }

  lemma {:induction false} SameNameSameAccumulated(a: JString, b: JString)
    requires SameName(a, b)
    ensures Accumulated(a) == Accumulated(b)
  {
    if a != [] {
      SameNameSameAccumulated(a[1..], b[1..]);
    }
  }

  lemma SameNameIsEquivalence(a: JString, b: JString, c: JString)
    ensures SameName(a, a)
    ensures SameName(a, b) ==> SameName(b, a)
    ensures SameName(a, b) && SameName(b, c) ==> SameName(a, c)
  {
  }
}
