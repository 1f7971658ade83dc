/** The `Connection` header helpers of HttpHeaders: what `setKeepAlive` writes, `isKeepAlive` reads back. */
module KeepAlive {
  import opened Common
  import opened JavaText
  import opened HeaderNames
  import opened HeaderFields
  import opened HttpHeaders

  const CONNECTION := Text("Connection")
  const CLOSE := Text("close")
  const KEEP_ALIVE := Text("keep-alive")

  /**
   * The lower-case ASCII letter a character meets under `String.equalsIgnoreCase`, which compares upper-case
   * forms and then lower-case forms. Besides A to Z four letters outside ASCII meet an ASCII letter.
   */
  function Fold(c: Unit): Unit {
    if c == 0x17F then 's' as int
    else if c == 0x212A then 'k' as int
    else if c == 0x130 || c == 0x131 then 'i' as int
    else Lower(c)
  }

  /** `constant.equalsIgnoreCase(value)` for a lower-case ASCII constant; null equals nothing. */
  predicate EqualsIgnoreCase(constant: JString, value: Option<JString>) {
    && value.Some? && |value.value| == |constant|
    && forall i :: 0 <= i < |constant| ==> Fold(value.value[i]) == constant[i]
  }

  /** Whether a message whose `Connection` lookup gives `connection` is kept alive. */
  predicate KeptAlive(byDefault: bool, connection: Option<JString>) {
    if byDefault then !EqualsIgnoreCase(CLOSE, connection) else EqualsIgnoreCase(KEEP_ALIVE, connection)
  }

  /** The field operation `setKeepAlive` performs. */
  function KeepAliveOp(byDefault: bool, keepAlive: bool): Op {
    if byDefault == keepAlive then Op.Remove(CONNECTION)
    else Set(CONNECTION, Some(if keepAlive then KEEP_ALIVE else CLOSE))
  }

  class HttpMessage {
    const headers: HttpHeaders
    var keepAliveDefault: bool

    constructor (validator: Validator, keepAliveDefault: bool)
      ensures fresh(headers) && headers.Valid() && fresh(headers.Repr) && headers.Contents() == []
      ensures this !in headers.Repr && headers.validator == validator
      ensures this.keepAliveDefault == keepAliveDefault
    {
      headers := new HttpHeaders(validator);
      this.keepAliveDefault := keepAliveDefault;
    }

    method IsKeepAlive() returns (r: bool)
      requires headers.Valid()
      ensures r == KeptAlive(keepAliveDefault, LatestOf(headers.Contents(), CONNECTION))
    {
      var connection := headers.GetHeader(CONNECTION);
      if EqualsIgnoreCase(CLOSE, connection) {
        CloseIsNotKeepAlive(connection);
        return false;
      }
      if keepAliveDefault {
        return !EqualsIgnoreCase(CLOSE, connection);
      } else {
        return EqualsIgnoreCase(KEEP_ALIVE, connection);
      }
    }

    method SetKeepAlive(keepAlive: bool) returns (r: Outcome)
      requires headers.Valid() && this !in headers.Repr
      modifies headers.Repr
      ensures headers.Valid() && fresh(headers.Repr - old(headers.Repr)) && this !in headers.Repr
      ensures (headers.Contents(), r)
           == Apply(headers.validator, old(headers.Contents()), KeepAliveOp(keepAliveDefault, keepAlive))
    {
      r := Done;
      if keepAliveDefault {
        if keepAlive {
          headers.RemoveHeader(CONNECTION);
        } else {
          r := headers.SetHeader(CONNECTION, Some(CLOSE));
        }
      } else {
        if keepAlive {
          r := headers.SetHeader(CONNECTION, Some(KEEP_ALIVE));
        } else {
          headers.RemoveHeader(CONNECTION);
        }
      }
    }

    /** An accepted `setKeepAlive(b)`, asked for right after, is b; the other headers are as before. */
    method SetAndAsk(keepAlive: bool) returns (r: Outcome, kept: bool)
      requires headers.Valid() && this !in headers.Repr
      modifies headers.Repr
      ensures headers.Valid() && fresh(headers.Repr - old(headers.Repr)) && this !in headers.Repr
      ensures r == Done ==> kept == keepAlive
      ensures r == Done ==> forall other :: !SameName(CONNECTION, other) ==>
                              ValuesOf(headers.Contents(), other) == ValuesOf(old(headers.Contents()), other)
      ensures r != Done ==> headers.Contents() == old(headers.Contents())
    {
      hide KeptAlive, LatestOf, ValuesOf, SameName, HttpHeaders.Valid;
      ghost var fields := headers.Contents();
      r := SetKeepAlive(keepAlive);
      if r == Done {
        IsKeepAliveAfterSet(headers.validator, fields, keepAliveDefault, keepAlive, CONNECTION);
        forall other | !SameName(CONNECTION, other)
          ensures ValuesOf(headers.Contents(), other) == ValuesOf(fields, other)
        {
          IsKeepAliveAfterSet(headers.validator, fields, keepAliveDefault, keepAlive, other);
        }
      }
      kept := IsKeepAlive();
    }

    /** The same for a message just made. */
    static method MakeSetAndAsk(validator: Validator, byDefault: bool, keepAlive: bool)
      returns (m: HttpMessage, r: Outcome, kept: bool)
      ensures fresh(m) && m.headers.Valid() && m.headers.validator == validator && m.keepAliveDefault == byDefault
      ensures r == Done ==> kept == keepAlive
    {
      m := new HttpMessage(validator, byDefault);
      r, kept := m.SetAndAsk(keepAlive);
    }
  }

  /**
   * A letter of "close" or "keep-alive", in either case: 83 and 115 are S and s. The long s and the Kelvin sign have
   * S and k as their other case; the Turkish i's have I or i.
   */
  predicate Letter(c: Unit, lower: Unit) {
    || c == lower || (lower != 45 && c == lower - 32)
    || (lower == 115 && c == 0x17F) || (lower == 107 && c == 0x212A) || (lower == 105 && c in {0x130, 0x131})
  }

  /** Which texts are taken for "close". */
  lemma CloseIsSpelt(v: JString)
    ensures EqualsIgnoreCase(CLOSE, Some(v))
       <==> (&& |v| == 5 && Letter(v[0], 99) && Letter(v[1], 108) && Letter(v[2], 111) && Letter(v[3], 115)
             && Letter(v[4], 101))
  {
    assert CLOSE == [99, 108, 111, 115, 101];
  }

  /** Which texts are taken for "keep-alive". */
  lemma KeepAliveIsSpelt(v: JString)
    ensures EqualsIgnoreCase(KEEP_ALIVE, Some(v))
       <==> (&& |v| == 10 && Letter(v[0], 107) && Letter(v[1], 101) && Letter(v[2], 101) && Letter(v[3], 112)
             && v[4] == 45 && Letter(v[5], 97) && Letter(v[6], 108) && Letter(v[7], 105) && Letter(v[8], 118)
             && Letter(v[9], 101))
  {
    assert KEEP_ALIVE == [107, 101, 101, 112, 45, 97, 108, 105, 118, 101];
  }

  /** The header that is asked for is called Connection, in any case; a missing one leaves the default. */
  lemma ConnectionIsSpelt(name: JString)
    ensures SameName(CONNECTION, name)
       <==> SameLetters([67, 111, 110, 110, 101, 99, 116, 105, 111, 110], name)
    ensures KeptAlive(true, None) && !KeptAlive(false, None)
  {
    assert CONNECTION == [67, 111, 110, 110, 101, 99, 116, 105, 111, 110];
    SameNameIff(CONNECTION, name);
  }

  lemma CloseIsNotKeepAlive(value: Option<JString>)
    ensures !(EqualsIgnoreCase(CLOSE, value) && EqualsIgnoreCase(KEEP_ALIVE, value))
  {
    assert |CLOSE| == 5 && |KEEP_ALIVE| == 10;
  }

  lemma {:induction false} LatestAfterKeepAlive(v: Validator, fs: Fields, byDefault: bool, keepAlive: bool)
    requires Apply(v, fs, KeepAliveOp(byDefault, keepAlive)).1 == Done
    ensures LatestOf(Apply(v, fs, KeepAliveOp(byDefault, keepAlive)).0, CONNECTION)
         == if byDefault == keepAlive then None else Some(if keepAlive then KEEP_ALIVE else CLOSE)
  {
    OperationsArePerName(v, fs, KeepAliveOp(byDefault, keepAlive), CONNECTION);
    SameNameIsEquivalence(CONNECTION, CONNECTION, CONNECTION);
  }

  /**
   * Whatever fields the message had, in whatever spelling, an accepted `setKeepAlive(b)` makes `isKeepAlive` answer b,
   * and no other header is touched.
   */
  lemma {:induction false} IsKeepAliveAfterSet(v: Validator, fs: Fields, byDefault: bool, keepAlive: bool,
      other: JString)
    requires Apply(v, fs, KeepAliveOp(byDefault, keepAlive)).1 == Done
    ensures KeptAlive(byDefault, LatestOf(Apply(v, fs, KeepAliveOp(byDefault, keepAlive)).0, CONNECTION)) == keepAlive
    ensures !SameName(CONNECTION, other) ==>
              ValuesOf(Apply(v, fs, KeepAliveOp(byDefault, keepAlive)).0, other) == ValuesOf(fs, other)
  {
    LatestAfterKeepAlive(v, fs, byDefault, keepAlive);
    OperationsArePerName(v, fs, KeepAliveOp(byDefault, keepAlive), other);
    LiteralsFold();
  }

  lemma LiteralsFold()
    ensures EqualsIgnoreCase(CLOSE, Some(CLOSE)) && EqualsIgnoreCase(KEEP_ALIVE, Some(KEEP_ALIVE))
  {
    forall i | 0 <= i < |CLOSE|
      ensures Fold(CLOSE[i]) == CLOSE[i]
    {
      assert CLOSE[i] == "close"[i] as int;
    }
    forall i | 0 <= i < |KEEP_ALIVE|
      ensures Fold(KEEP_ALIVE[i]) == KEEP_ALIVE[i]
    {
      assert KEEP_ALIVE[i] == "keep-alive"[i] as int;
    }
  }
}
