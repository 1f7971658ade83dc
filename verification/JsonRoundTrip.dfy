/** What JSON.stringify writes is a JSON text of RFC 8259, and stands for the value it was made from. */
module JsonRoundTrip {
  import opened Common
  import opened JavaText
  import opened JsonText
  import opened JsonStringify

  /**
   * What a value comes back as: what has no text is null in an array and left out of an object; so is what is not
   * finite.
   */
  function Norm(v: Value): (r: Option<Json>)
    ensures r.Some? <==> !v.Undefined? && !v.Function?
    decreases v, 0
  {
    match v
    case Undefined => None
    case Function => None
    case Null => Some(JNull)
    case Boolean(b) => Some(JBool(b))
    case Number(text, finite) => Some(if finite then JNumber(text) else JNull)
    case Str(text) => Some(JString_(text))
    case Array(items) => Some(JArray(NormItems(items)))
    case Object(members) => Some(JObject(NormMembers(members)))
  }

  function NormItems(items: seq<Value>): (r: seq<Json>)
    ensures |r| == |items|
    decreases items, 1
  {
    if items == [] then []
    else
      var last := Norm(items[|items| - 1]);
      NormItems(items[..|items| - 1]) + [if last.Some? then last.value else JNull]
  }

  function NormMembers(members: seq<Member>): seq<(JString, Json)>
    decreases members, 1
  {
    if members == [] then []
    else
      var last := members[|members| - 1];
      var value := Norm(last.value);
      NormMembers(members[..|members| - 1]) + if value.Some? then [(last.name, value.value)] else []
  }

  /** String() writes every finite number as RFC 8259 does. */
  predicate Written(v: Value)
    decreases v, 0
  {
    match v
    case Number(text, finite) => finite ==> IsNumber(text)
    case Array(items) => forall i :: 0 <= i < |items| ==> Written(items[i])
    case Object(members) => forall i :: 0 <= i < |members| ==> Written(members[i].value)
    case _ => true
  }

  /** Nothing that could belong to a number comes first. */
  predicate Stops(rest: JString) {
    rest == [] || !NumberUnit(rest[0])
  }

  /** The text is read as this value, whatever follows it, and begins with the value itself. */
  ghost predicate Reads(text: JString, x: Json) {
    && text != []
    && forall rest :: Stops(rest) ==> ParseValue(text + rest) == Some((x, rest))
  }

  ghost predicate ReadsMember(text: JString, m: (JString, Json)) {
    forall rest :: Stops(rest) ==> ParseMember(text + rest) == Some((m, rest))
  }

  // ---- white space --------------------------------------------------------------------------------------------------

  lemma {:induction false} SkipAll(ws: JString, s: JString)
    requires AllWs(ws)
    ensures SkipWs(ws + s) == SkipWs(s)
  {
    if ws == [] {
      assert ws + s == s;
    } else {
      assert (ws + s)[1..] == ws[1..] + s;
      SkipAll(ws[1..], s);
    }
  }

  lemma ValueAfterWs(ws: JString, s: JString)
    requires AllWs(ws) && ParseValue(s).Some?
    ensures ParseValue(ws + s) == ParseValue(s)
  {
    hide ParseChars, ParseElements, ParseMembers, ParseNumber, SkipWs;
    SkipAll(ws, s);
  }

  lemma MemberAfterWs(ws: JString, s: JString)
    requires AllWs(ws)
    ensures ParseMember(ws + s) == ParseMember(s)
  {
    hide ParseChars, ParseValue, SkipWs;
    SkipAll(ws, s);
  }

  // ---- strings ------------------------------------------------------------------------------------------------------

  lemma DigitValue(n: nat)
    requires n < 16
    ensures HexValue(HexDigit(n)) == Some(n)
  {
  }

  lemma ToHexOf(n: nat)
    ensures n < 16 ==> ToHex(n) == [HexDigit(n)]
    ensures n >= 16 ==> ToHex(n) == ToHex(n / 16) + [HexDigit(n % 16)]
  {
  }

  lemma Padded(a: Unit, b: Unit, c: Unit, d: Unit)
    ensures LastFour([d]) == [48, 48, 48, d] && LastFour([c, d]) == [48, 48, c, d]
    ensures LastFour([b, c, d]) == [48, b, c, d] && LastFour([a, b, c, d]) == [a, b, c, d]
  {
  }

  /** Four digits, leading zeros included. */
  lemma {:induction false} HexDigits(c: Unit)
    ensures var a, b := c / 16, c / 256;
            LastFour(ToHex(c)) == [HexDigit(c / 4096), HexDigit(b % 16), HexDigit(a % 16), HexDigit(c % 16)]
  {
    hide ToHex, LastFour, HexDigit;
    var a, b, d := c / 16, c / 256, c / 4096;
    assert a / 16 == b && b / 16 == d && d < 16;
    DigitZero();
    ToHexOf(c);
    ToHexOf(a);
    ToHexOf(b);
    ToHexOf(d);
    Padded(HexDigit(d), HexDigit(b % 16), HexDigit(a % 16), HexDigit(c % 16));
    if c >= 4096 {
      assert ToHex(c) == [HexDigit(d), HexDigit(b % 16), HexDigit(a % 16), HexDigit(c % 16)];
    } else if c >= 256 {
      assert ToHex(c) == [HexDigit(b % 16), HexDigit(a % 16), HexDigit(c % 16)];
    } else if c >= 16 {
      assert ToHex(c) == [HexDigit(a % 16), HexDigit(c % 16)];
    }
  }

  lemma DigitZero()
    ensures HexDigit(0) == 48
  {
  }

  lemma FourParts(c: Unit)
    ensures c == c / 4096 * 4096 + c / 256 % 16 * 256 + c / 16 % 16 * 16 + c % 16
  {
    var a, b := c / 16, c / 256;
    assert b == a / 16 && c / 4096 == b / 16;
    assert c == a * 16 + c % 16 && a == b * 16 + a % 16 && b == b / 16 * 16 + b % 16;
  }

  lemma FourHexOf(a: nat, b: nat, c: nat, d: nat)
    requires a < 16 && b < 16 && c < 16 && d < 16
    ensures FourHex([HexDigit(a), HexDigit(b), HexDigit(c), HexDigit(d)]) == Some(a * 4096 + b * 256 + c * 16 + d)
  {
    hide HexValue, HexDigit;
    DigitValue(a);
    DigitValue(b);
    DigitValue(c);
    DigitValue(d);
  }

  lemma {:induction false} FourHexBack(c: Unit)
    ensures FourHex(LastFour(ToHex(c))) == Some(c)
  {
    hide LastFour, ToHex, FourHex, HexDigit;
    HexDigits(c);
    FourHexOf(c / 4096, c / 256 % 16, c / 16 % 16, c % 16);
    FourParts(c);
  }

  /** Every character, escaped, is read back, and is not taken for the closing quotation mark. */
  lemma EscapeIsRead(c: Unit, rest: JString)
    ensures Escape(c) != [] && Escape(c)[0] != QUOTE && ParseChar(Escape(c) + rest) == Some((c, rest))
  {
    hide LastFour, ToHex, FourHex;
    var s := Escape(c) + rest;
    assert s[|Escape(c)|..] == rest;
    if Escapable(c) && Meta(c).None? {
      assert s[2..6] == LastFour(ToHex(c));
      FourHexBack(c);
    }
  }

  lemma {:induction false} EscapedIsRead(s: JString, rest: JString)
    ensures ParseChars(EscapeAll(s) + [QUOTE] + rest) == Some((s, rest))
  {
    hide Escape, ParseChar;
    if s == [] {
      assert (EscapeAll(s) + [QUOTE] + rest)[1..] == rest;
    } else {
      var next := EscapeAll(s[1..]) + [QUOTE] + rest;
      assert EscapeAll(s) + [QUOTE] + rest == Escape(s[0]) + next;
      EscapeIsRead(s[0], next);
      EscapedIsRead(s[1..], rest);
      assert [s[0]] + s[1..] == s;
    }
  }

  lemma {:induction false} NothingEscaped(s: JString)
    requires !HasEscapable(s)
    ensures EscapeAll(s) == s
  {
    if s != [] {
      assert Escape(s[0]) == [s[0]] by {
        assert !Escapable(s[0]);
      }
      forall i | 0 <= i < |s[1..]| ensures !Escapable(s[1..][i]) {
        assert !Escapable(s[i + 1]);
      }
      NothingEscaped(s[1..]);
    }
  }

  /** Both ways in which quote puts its quotation marks. */
  lemma QuoteIsEscaped(s: JString)
    ensures Quote(s) == [QUOTE] + EscapeAll(s) + [QUOTE]
  {
    hide EscapeAll, HasEscapable;
    if !HasEscapable(s) {
      NothingEscaped(s);
    }
  }

  /** quote is undone by the unescaping of RFC 8259, section 7, for every string of code units. */
  lemma QuoteIsUndone(s: JString, rest: JString)
    ensures Quote(s) != [] && Quote(s)[0] == QUOTE && ParseChars((Quote(s) + rest)[1..]) == Some((s, rest))
  {
    hide EscapeAll, Quote, ParseChars;
    QuoteIsEscaped(s);
    EscapedIsRead(s, rest);
    assert (Quote(s) + rest)[1..] == EscapeAll(s) + [QUOTE] + rest;
  }

  lemma QuoteReads(s: JString)
    ensures Reads(Quote(s), JString_(s))
  {
    hide Quote, ParseChars, ParseElements, ParseMembers, ParseNumber;
    forall rest | Stops(rest) ensures ParseValue(Quote(s) + rest) == Some((JString_(s), rest)) {
      QuoteIsUndone(s, rest);
      var t := Quote(s) + rest;
      assert t[0] == QUOTE && SkipWs(t) == t;
    }
    QuoteIsUndone(s, []);
  }

  // ---- numbers and the three words ----------------------------------------------------------------------------------

  lemma NumberUnits(s: JString)
    requires IsNumber(s)
    ensures s != [] && (Digit(s[0]) || s[0] == 45) && forall i :: 0 <= i < |s| ==> NumberUnit(s[i])
  {
  }

  lemma {:induction false} NumberEnds(s: JString, rest: JString)
    requires Stops(rest) && forall i :: 0 <= i < |s| ==> NumberUnit(s[i])
    ensures NumberLength(s + rest) == |s|
  {
    if s == [] {
      assert s + rest == rest;
    } else {
      assert (s + rest)[1..] == s[1..] + rest;
      NumberEnds(s[1..], rest);
    }
  }

  lemma NumberReads(s: JString)
    requires IsNumber(s)
    ensures Reads(s, JNumber(s))
  {
    hide IsNumber, ParseChars, ParseElements, ParseMembers, NumberLength;
    NumberUnits(s);
    forall rest | Stops(rest) ensures ParseValue(s + rest) == Some((JNumber(s), rest)) {
      NumberEnds(s, rest);
      var t := s + rest;
      assert t[0] == s[0] && SkipWs(t) == t && t[..|s|] == s && t[|s|..] == rest;
    }
  }

  lemma WordsRead()
    ensures Reads(NULL, JNull) && Reads(TRUE, JBool(true)) && Reads(FALSE, JBool(false))
  {
    hide ParseChars, ParseElements, ParseMembers, ParseNumber;
    forall rest | Stops(rest) ensures ParseValue(NULL + rest) == Some((JNull, rest)) {
      assert (NULL + rest)[0] == 110 && (NULL + rest)[..4] == NULL && (NULL + rest)[4..] == rest;
    }
    forall rest | Stops(rest) ensures ParseValue(TRUE + rest) == Some((JBool(true), rest)) {
      assert (TRUE + rest)[0] == 116 && (TRUE + rest)[..4] == TRUE && (TRUE + rest)[4..] == rest;
    }
    forall rest | Stops(rest) ensures ParseValue(FALSE + rest) == Some((JBool(false), rest)) {
      assert (FALSE + rest)[0] == 102 && (FALSE + rest)[..5] == FALSE && (FALSE + rest)[5..] == rest;
    }
  }

  // ---- arrays and objects -------------------------------------------------------------------------------------------

  lemma {:induction false} JoinFront(parts: seq<JString>, sep: JString)
    requires |parts| > 1
    ensures JoinBy(parts, sep) == parts[0] + sep + JoinBy(parts[1..], sep)
  {
    var init, last := parts[..|parts| - 1], parts[|parts| - 1];
    if |parts| == 2 {
      assert JoinBy(init, sep) == parts[0] && parts[1..] == [last];
    } else {
      JoinFront(init, sep);
      assert init[1..] == parts[1..][..|parts| - 2];
      assert parts[1..][|parts| - 2] == last;
    }
  }

  /** What stands behind an element: blanks and a closing character, or a comma. */
  predicate Tail(tail: JString, close: Unit, rest: JString, s: JString) {
    AllWs(tail) && (close == CLOSE_BRACKET || close == CLOSE_BRACE) && s == tail + [close] + rest
  }

  lemma TailStops(tail: JString, close: Unit, rest: JString, s: JString)
    requires Tail(tail, close, rest, s)
    ensures Stops(s) && SkipWs(s) != [] && SkipWs(s)[0] == close && SkipWs(s)[1..] == rest
  {
    assert s == tail + ([close] + rest);
    SkipAll(tail, [close] + rest);
    assert SkipWs([close] + rest) == [close] + rest;
  }

  /** Elements joined with commas and blanks are read one by one. */
  lemma {:induction false} JoinReads(parts: seq<JString>, xs: seq<Json>, lead: JString, tail: JString, rest: JString,
      s: JString)
    requires |parts| == |xs| > 0 && AllWs(lead) && Tail(tail, CLOSE_BRACKET, rest, s)
    requires forall i :: 0 <= i < |parts| ==> Reads(parts[i], xs[i])
    ensures ParseElements(lead + (JoinBy(parts, [COMMA] + lead) + s)) == Some((xs, rest))
    decreases |parts|
  {
    hide ParseValue, Tail, AllWs, SkipWs;
    if |parts| == 1 {
      TailStops(tail, CLOSE_BRACKET, rest, s);
      ElementAt(parts[0], xs[0], lead, s);
      assert JoinBy(parts, [COMMA] + lead) == parts[0];
      assert xs == [xs[0]];
    } else {
      var more := lead + (JoinBy(parts[1..], [COMMA] + lead) + s);
      var next := [COMMA] + more;
      CommaStops(more);
      JoinFront(parts, [COMMA] + lead);
      assert JoinBy(parts, [COMMA] + lead) + s == parts[0] + next;
      ElementAt(parts[0], xs[0], lead, next);
      JoinReads(parts[1..], xs[1..], lead, tail, rest, s);
      assert xs == [xs[0]] + xs[1..];
    }
  }

  lemma CommaStops(more: JString)
    ensures Stops([COMMA] + more) && SkipWs([COMMA] + more) == [COMMA] + more && ([COMMA] + more)[1..] == more
  {
  }

  lemma ElementAt(part: JString, x: Json, lead: JString, s: JString)
    requires Reads(part, x) && AllWs(lead) && Stops(s)
    ensures ParseValue(lead + (part + s)) == Some((x, s))
  {
    hide ParseValue;
    ValueAfterWs(lead, part + s);
  }

  lemma {:induction false} JoinReadsMembers(parts: seq<JString>, ms: seq<(JString, Json)>, lead: JString, tail: JString,
                                            rest: JString, s: JString)
    requires |parts| == |ms| > 0 && AllWs(lead) && Tail(tail, CLOSE_BRACE, rest, s)
    requires forall i :: 0 <= i < |parts| ==> ReadsMember(parts[i], ms[i])
    ensures ParseMembers(lead + (JoinBy(parts, [COMMA] + lead) + s)) == Some((ms, rest))
    decreases |parts|
  {
    hide ParseMember, Tail, AllWs, SkipWs;
    if |parts| == 1 {
      TailStops(tail, CLOSE_BRACE, rest, s);
      MemberAfterWs(lead, parts[0] + s);
      assert JoinBy(parts, [COMMA] + lead) == parts[0];
      assert ms == [ms[0]];
    } else {
      var more := lead + (JoinBy(parts[1..], [COMMA] + lead) + s);
      var next := [COMMA] + more;
      CommaStops(more);
      JoinFront(parts, [COMMA] + lead);
      assert JoinBy(parts, [COMMA] + lead) + s == parts[0] + next;
      MemberAfterWs(lead, parts[0] + next);
      JoinReadsMembers(parts[1..], ms[1..], lead, tail, rest, s);
      assert ms == [ms[0]] + ms[1..];
    }
  }

  lemma OrNullReads(v: Value, gap: JString, indent: JString)
    requires Written(v)
    requires Norm(v).Some? ==> Stringify(v, gap, indent).Some? && Reads(Stringify(v, gap, indent).value, Norm(v).value)
    ensures Reads(OrNull(Stringify(v, gap, indent)), if Norm(v).Some? then Norm(v).value else JNull)
  {
    hide ParseValue, Stringify, Norm;
    WordsRead();
    TextIffNorm(v, gap, indent);
  }

  lemma TextIffNorm(v: Value, gap: JString, indent: JString)
    ensures Stringify(v, gap, indent).Some? <==> Norm(v).Some?
  {
  }

  lemma {:induction false} ElementsRead(items: seq<Value>, gap: JString, indent: JString)
    requires AllWs(gap) && AllWs(indent) && forall i :: 0 <= i < |items| ==> Written(items[i])
    ensures forall i :: 0 <= i < |items| ==> Reads(Elements(items, gap, indent)[i], NormItems(items)[i])
    decreases items, 1
  {
    hide Reads, Stringify, Norm, OrNull, AllWs, Written;
    if items != [] {
      var init, last := items[..|items| - 1], items[|items| - 1];
      ElementsRead(init, gap, indent);
      ValueReads(last, gap, indent);
      OrNullReads(last, gap, indent);
    }
  }

  lemma {:induction false} MembersRead(members: seq<Member>, gap: JString, indent: JString)
    requires AllWs(gap) && AllWs(indent) && forall i :: 0 <= i < |members| ==> Written(members[i].value)
    ensures |Members(members, gap, indent)| == |NormMembers(members)|
    ensures forall i :: 0 <= i < |NormMembers(members)| ==>
            ReadsMember(Members(members, gap, indent)[i], NormMembers(members)[i])
    decreases members, 1
  {
    hide Reads, ReadsMember, Stringify, Norm, MemberText, AllWs, Written;
    if members != [] {
      var init, last := members[..|members| - 1], members[|members| - 1];
      MembersRead(init, gap, indent);
      ValueReads(last.value, gap, indent);
      MemberReads(last.name, last.value, gap, indent);
    }
  }

  lemma MemberReads(name: JString, v: Value, gap: JString, indent: JString)
    requires Norm(v).Some? ==> Stringify(v, gap, indent).Some? && Reads(Stringify(v, gap, indent).value, Norm(v).value)
    ensures var texts := MemberText(name, Stringify(v, gap, indent), gap);
            && |texts| == (if Norm(v).Some? then 1 else 0)
            && (Norm(v).Some? ==> ReadsMember(texts[0], (name, Norm(v).value)))
  {
    hide ParseValue, ParseMember, Stringify, Norm, Quote;
    TextIffNorm(v, gap, indent);
    if Norm(v).Some? {
      var text, x := Stringify(v, gap, indent).value, Norm(v).value;
      var colon := if gap != [] then [COLON, 32] else [COLON];
      forall rest | Stops(rest) ensures ParseMember(Quote(name) + colon + text + rest) == Some(((name, x), rest)) {
        assert Quote(name) + colon + text + rest == Quote(name) + (colon + (text + rest));
        NamedReads(name, colon, text + rest, x, rest);
      }
    }
  }

  lemma NamedReads(name: JString, colon: JString, s: JString, x: Json, rest: JString)
    requires colon == [COLON, 32] || colon == [COLON]
    requires ParseValue(s) == Some((x, rest))
    ensures ParseMember(Quote(name) + (colon + s)) == Some(((name, x), rest))
  {
    hide ParseValue, ParseChars, Quote;
    var t, u := Quote(name) + (colon + s), colon + s;
    QuoteIsUndone(name, u);
    assert t[0] == QUOTE && SkipWs(t) == t && SkipWs(u) == u;
    assert u[1..] == colon[1..] + s;
    ValueAfterWs(colon[1..], s);
  }

  lemma WrapReadsArray(parts: seq<JString>, xs: seq<Json>, gap: JString, mind: JString)
    requires |parts| == |xs| && AllWs(gap) && AllWs(mind)
    requires forall i :: 0 <= i < |parts| ==> Reads(parts[i], xs[i])
    ensures Reads(Wrap(OPEN_BRACKET, parts, gap, mind, CLOSE_BRACKET), JArray(xs))
  {
    hide ParseValue, ParseElements, Reads;
    var text := Wrap(OPEN_BRACKET, parts, gap, mind, CLOSE_BRACKET);
    forall rest | Stops(rest) ensures ParseValue(text + rest) == Some((JArray(xs), rest)) {
      WrapReadsItems(parts, xs, gap, mind, rest);
    }
    AnyRest(text, JArray(xs));
  }

  lemma AnyRest(text: JString, x: Json)
    requires text != [] && forall rest :: Stops(rest) ==> ParseValue(text + rest) == Some((x, rest))
    ensures Reads(text, x)
  {
  }

  /** Behind the first element's blanks there is no closing bracket. */
  lemma WrapReadsItems(parts: seq<JString>, xs: seq<Json>, gap: JString, mind: JString, rest: JString)
    requires |parts| == |xs| && AllWs(gap) && AllWs(mind) && Stops(rest)
    requires forall i :: 0 <= i < |parts| ==> Reads(parts[i], xs[i])
    ensures ParseValue(Wrap(OPEN_BRACKET, parts, gap, mind, CLOSE_BRACKET) + rest) == Some((JArray(xs), rest))
  {
    hide ParseElements, Reads, AllWs, JoinBy;
    var t := Wrap(OPEN_BRACKET, parts, gap, mind, CLOSE_BRACKET) + rest;
    assert t[0] == OPEN_BRACKET && SkipWs(t) == t;
    if parts == [] {
      assert t[1..] == [CLOSE_BRACKET] + rest && t[1..][1..] == rest;
    } else {
      var lead, tail := Lead(gap), Lead2(gap, mind);
      LeadIsWs(gap, mind);
      var s := tail + [CLOSE_BRACKET] + rest;
      WrapShape(OPEN_BRACKET, parts, gap, mind, CLOSE_BRACKET, rest);
      assert t[1..] == lead + (JoinBy(parts, [COMMA] + lead) + s);
      JoinReads(parts, xs, lead, tail, rest, s);
      NoCloseFirst(t[1..], CLOSE_BRACKET);
    }
  }

  /** What Wrap puts before each part, and behind the last. */
  function Lead(gap: JString): JString {
    if gap != [] then NEWLINE + gap else []
  }

  function Lead2(gap: JString, mind: JString): JString {
    if gap != [] then NEWLINE + mind else []
  }

  lemma {:induction false} WrapShape(open: Unit, parts: seq<JString>, gap: JString, mind: JString, close: Unit,
      rest: JString)
    requires parts != []
    ensures Wrap(open, parts, gap, mind, close) + rest
         == [open] + (Lead(gap) + (JoinBy(parts, [COMMA] + Lead(gap)) + (Lead2(gap, mind) + [close] + rest)))
  {
    hide JoinBy;
    assert [COMMA] + NEWLINE + gap == [COMMA] + (NEWLINE + gap) && [COMMA] + [] == [COMMA];
    var joined := JoinBy(parts, [COMMA] + Lead(gap));
    if gap != [] {
      assert [open] + NEWLINE + gap + joined + NEWLINE + mind + [close] + rest
          == [open] + ((NEWLINE + gap) + (joined + ((NEWLINE + mind) + [close] + rest)));
    } else {
      assert [open] + joined + [close] + rest == [open] + ([] + (joined + ([] + [close] + rest)));
    }
  }

  lemma LeadIsWs(gap: JString, mind: JString)
    requires AllWs(gap) && AllWs(mind)
    ensures AllWs(Lead(gap)) && AllWs(Lead2(gap, mind))
  {
  }

  /** A text that holds elements or members does not begin with the closing character. */
  lemma {:induction false} NoCloseFirst(s: JString, close: Unit)
    requires close == CLOSE_BRACKET ==> ParseElements(s).Some?
    requires close == CLOSE_BRACE ==> ParseMembers(s).Some?
    requires close == CLOSE_BRACKET || close == CLOSE_BRACE
    ensures !(SkipWs(s) != [] && SkipWs(s)[0] == close)
  {
    hide ParseChars, IsNumber, SkipWs;
  }

  lemma WrapReadsObject(parts: seq<JString>, ms: seq<(JString, Json)>, gap: JString, mind: JString)
    requires |parts| == |ms| && AllWs(gap) && AllWs(mind)
    requires forall i :: 0 <= i < |parts| ==> ReadsMember(parts[i], ms[i])
    ensures Reads(Wrap(OPEN_BRACE, parts, gap, mind, CLOSE_BRACE), JObject(ms))
  {
    hide ParseValue, ParseMembers, Reads, ReadsMember;
    var text := Wrap(OPEN_BRACE, parts, gap, mind, CLOSE_BRACE);
    forall rest | Stops(rest) ensures ParseValue(text + rest) == Some((JObject(ms), rest)) {
      WrapReadsMembers(parts, ms, gap, mind, rest);
    }
    AnyRest(text, JObject(ms));
  }

  lemma WrapReadsMembers(parts: seq<JString>, ms: seq<(JString, Json)>, gap: JString, mind: JString, rest: JString)
    requires |parts| == |ms| && AllWs(gap) && AllWs(mind) && Stops(rest)
    requires forall i :: 0 <= i < |parts| ==> ReadsMember(parts[i], ms[i])
    ensures ParseValue(Wrap(OPEN_BRACE, parts, gap, mind, CLOSE_BRACE) + rest) == Some((JObject(ms), rest))
  {
    hide ParseMembers, ReadsMember, AllWs, JoinBy;
    var t := Wrap(OPEN_BRACE, parts, gap, mind, CLOSE_BRACE) + rest;
    assert t[0] == OPEN_BRACE && SkipWs(t) == t;
    if parts == [] {
      assert t[1..] == [CLOSE_BRACE] + rest && t[1..][1..] == rest;
    } else {
      var lead, tail := Lead(gap), Lead2(gap, mind);
      LeadIsWs(gap, mind);
      var s := tail + [CLOSE_BRACE] + rest;
      WrapShape(OPEN_BRACE, parts, gap, mind, CLOSE_BRACE, rest);
      assert t[1..] == lead + (JoinBy(parts, [COMMA] + lead) + s);
      JoinReadsMembers(parts, ms, lead, tail, rest, s);
      NoCloseFirst(t[1..], CLOSE_BRACE);
    }
  }

  /** Every value with a text is read back from it, whatever follows. */
  lemma {:induction false} ValueReads(v: Value, gap: JString, indent: JString)
    requires Written(v) && AllWs(gap) && AllWs(indent)
    ensures Norm(v).Some? ==> Stringify(v, gap, indent).Some? && Reads(Stringify(v, gap, indent).value, Norm(v).value)
    decreases v, 0
  {
    hide Reads, Wrap, Elements, Members, NormItems, NormMembers, Quote, IsNumber;
    WordsRead();
    match v
    case Number(text, finite) =>
      if finite {
        NumberReads(text);
      }
    case Str(text) => QuoteReads(text);
    case Array(items) =>
      ElementsRead(items, gap + indent, indent);
      WrapReadsArray(Elements(items, gap + indent, indent), NormItems(items), gap + indent, gap);
    case Object(members) =>
      MembersRead(members, gap + indent, indent);
      WrapReadsObject(Members(members, gap + indent, indent), NormMembers(members), gap + indent, gap);
    case _ =>
  }

  /**
   * What JSON.stringify returns is a JSON text and stands for the value: undefined and functions become null in arrays
   * and vanish from objects, numbers that are not finite become null, everything else is kept. It returns undefined
   * exactly for undefined and functions. The indentation must be white space of RFC 8259.
   */
  lemma StringifyRoundTrip(v: Value, space: Space)
    requires Written(v) && AllWs(IndentOf(space))
    ensures Stringify(v, [], IndentOf(space)).Some? <==> Norm(v).Some?
    ensures Norm(v).Some? ==> ParseText(Stringify(v, [], IndentOf(space)).value) == Norm(v)
  {
    hide Stringify, ParseValue, Norm, IndentOf, Written;
    TextIffNorm(v, [], IndentOf(space));
    ValueReads(v, [], IndentOf(space));
    if Norm(v).Some? {
      var text := Stringify(v, [], IndentOf(space)).value;
      assert text + [] == text && Stops([]);
      assert ParseValue(text + []) == Some((Norm(v).value, []));
    }
  }

  // ---- which indentations are right ---------------------------------------------------------------------------------

  lemma {:induction false} SkippedIsWs(s: JString) returns (k: nat)
    ensures k <= |s| && SkipWs(s) == s[k..] && AllWs(s[..k])
  {
    if s != [] && Ws(s[0]) {
      var j := SkippedIsWs(s[1..]);
      k := j + 1;
      assert s[..k] == [s[0]] + s[1..][..j] && s[1..][j..] == s[k..];
    } else {
      k := 0;
    }
  }

  /** Null is read from the word only. */
  lemma NullIsTheWord(s: JString, r: JString)
    requires ParseValue(s) == Some((JNull, r))
    ensures StartsWith(SkipWs(s), NULL) && r == SkipWs(s)[4..]
  {
    hide ParseChars, ParseElements, ParseMembers, IsNumber, SkipWs;
  }

  /** An array of one null: the word, and the closing bracket behind it. */
  lemma OneNull(s: JString, rest: JString) returns (r: JString)
    requires ParseElements(s) == Some(([JNull], rest))
    ensures ParseValue(s) == Some((JNull, r)) && SkipWs(r) == [CLOSE_BRACKET] + rest
  {
    hide ParseValue, SkipWs;
    r := ParseValue(s).value.1;
    var u := SkipWs(r);
    assert [ParseValue(s).value.0] == [JNull] && u[0] == CLOSE_BRACKET by {
      if u[0] == COMMA {
        ElementsAreSome(u[1..]);
      }
    }
  }

  lemma ElementsAreSome(s: JString)
    ensures ParseElements(s).Some? ==> ParseElements(s).value.0 != []
  {
    hide ParseValue, SkipWs;
  }

  /** The text of an array of one null, by its indentation. */
  lemma TextOfNull(indent: JString)
    requires indent != []
    ensures Stringify(Array([Null]), [], indent)
         == Some([OPEN_BRACKET] + (NEWLINE + indent + (NULL + NEWLINE + [CLOSE_BRACKET])))
    ensures Norm(Array([Null])) == Some(JArray([JNull])) && Written(Array([Null]))
  {
    assert [Null][..0] == [] && Elements([], indent, indent) == [] && [] + indent == indent;
    assert Elements([Null], indent, indent) == [] + [NULL] == [NULL];
    assert NormItems([]) == [] && NormItems([Null]) == [] + [JNull] == [JNull];
    var text := Wrap(OPEN_BRACKET, [NULL], indent, [], CLOSE_BRACKET);
    assert text == [OPEN_BRACKET] + (NEWLINE + indent + (NULL + NEWLINE + [CLOSE_BRACKET]));
  }

  lemma NoBlanksAtEnd(head: JString, blanks: JString)
    requires AllWs(blanks) && head + blanks != [] && !Ws((head + blanks)[|head + blanks| - 1])
    ensures blanks == []
  {
  }

  lemma BlanksUpToBracket(s: JString, k: nat, rest: JString)
    requires k + 4 < |s| && s[|s| - 1] == CLOSE_BRACKET
    requires SkipWs(s[k + 4..]) == [CLOSE_BRACKET] + rest && SkipWs(rest) == []
    ensures forall q :: k + 4 <= q < |s| - 1 ==> Ws(s[q])
  {
    hide SkipWs;
    var r := s[k + 4..];
    var i := SkippedIsWs(r);
    var j := SkippedIsWs(rest);
    assert AllWs(rest) by {
      assert rest == rest[..j];
    }
    assert r == r[..i] + [CLOSE_BRACKET] + rest;
    NoBlanksAtEnd(r[..i] + [CLOSE_BRACKET], rest);
    forall q | k + 4 <= q < |s| - 1 ensures Ws(s[q]) {
      assert r[..i][q - k - 4] == s[q];
    }
  }

  /** What stands before the word in a text that ends with it, a line break and a bracket, has been skipped. */
  lemma OnlyBlanksBefore(lead: JString, k: nat, r: JString, rest: JString)
    requires var s := lead + (NULL + NEWLINE + [CLOSE_BRACKET]);
             && k <= |s| && AllWs(s[..k]) && StartsWith(s[k..], NULL) && r == s[k..][4..]
             && SkipWs(r) == [CLOSE_BRACKET] + rest && SkipWs(rest) == []
    ensures AllWs(lead)
  {
    hide SkipWs;
    var s := lead + (NULL + NEWLINE + [CLOSE_BRACKET]);
    var n := |s|;
    assert r == s[k + 4..];
    assert k + 4 != n by {
      assert s[n - 1] == CLOSE_BRACKET && s[k..][3] == 108;
    }
    BlanksUpToBracket(s, k, rest);
    assert s[n - 3] == 108;
    assert k >= |lead|;
    assert lead == s[..k][..|lead|];
  }

  /** With any other indentation an array of one null is not read back. */
  lemma OtherIndentation(indent: JString)
    requires !AllWs(indent)
    ensures ParseText(Stringify(Array([Null]), [], indent).value) != Norm(Array([Null]))
  {
    TextOfNull(indent);
    hide Stringify, Norm, ParseValue, ParseElements, SkipWs;
    var s := NEWLINE + indent + (NULL + NEWLINE + [CLOSE_BRACKET]);
    var text := [OPEN_BRACKET] + s;
    if ParseText(text) == Some(JArray([JNull])) {
      var rest := ParseValue(text).value.1;
      ArrayIsElements(s, rest);
      var r := OneNull(s, rest);
      NullIsTheWord(s, r);
      var k := SkippedIsWs(s);
      OnlyBlanksBefore(NEWLINE + indent, k, r, rest);
      forall q | 0 <= q < |indent| ensures Ws(indent[q]) {
        assert (NEWLINE + indent)[q + 1] == indent[q];
      }
      assert false;
    }
  }

  lemma ArrayIsElements(s: JString, rest: JString)
    requires ParseValue([OPEN_BRACKET] + s) == Some((JArray([JNull]), rest))
    ensures ParseElements(s) == Some(([JNull], rest))
  {
    hide ParseElements, ParseChars, ParseMembers, ParseNumber;
    var text := [OPEN_BRACKET] + s;
    assert SkipWs(text) == text && text[1..] == s;
  }

  /**
   * The exact condition on the third argument: every value that has a text is read back from it if and only if the
   * indentation is white space of RFC 8259.
   */
  lemma RoundTripIffBlankIndent(space: Space)
    ensures AllWs(IndentOf(space))
       <==> forall v :: Written(v) && Norm(v).Some? ==> ReadBack(v, IndentOf(space))
  {
    hide Stringify, ParseText, Norm, Written, IndentOf, ReadBack, AllWs;
    if AllWs(IndentOf(space)) {
      forall v | Written(v) && Norm(v).Some? ensures ReadBack(v, IndentOf(space)) {
        StringifyRoundTrip(v, space);
        ReadsBackIff(v, IndentOf(space));
      }
    } else {
      NoIndent();
      OtherIndentation(IndentOf(space));
      TextOfNull(IndentOf(space));
      ReadsBackIff(Array([Null]), IndentOf(space));
    }
  }

  predicate ReadBack(v: Value, indent: JString) {
    var text := Stringify(v, [], indent);
    text.Some? && ParseText(text.value) == Norm(v)
  }

  lemma ReadsBackIff(v: Value, indent: JString)
    requires Norm(v).Some? && Stringify(v, [], indent).Some?
    ensures ReadBack(v, indent) <==> ParseText(Stringify(v, [], indent).value) == Norm(v)
  {
    hide Stringify, ParseText, Norm;
  }

  lemma NoIndent()
    ensures AllWs([])
  {
  }
}
