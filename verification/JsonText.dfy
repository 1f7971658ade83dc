/** JSON texts: the grammar of RFC 8259, sections 2 to 7, as a parser over UTF-16 code units. */
module JsonText {
  import opened Common
  import opened JavaText

  /** What a JSON text stands for; a number is kept as it is written. */
  datatype Json =
    | JNull
    | JBool(b: bool)
    | JNumber(text: JString)
    | JString_(text: JString)
    | JArray(items: seq<Json>)
    | JObject(members: seq<(JString, Json)>)

  const QUOTE: Unit := 34
  const COMMA: Unit := 44
  const COLON: Unit := 58
  const OPEN_BRACKET: Unit := 91
  const BACKSLASH: Unit := 92
  const CLOSE_BRACKET: Unit := 93
  const OPEN_BRACE: Unit := 123
  const CLOSE_BRACE: Unit := 125

  const NULL: JString := [110, 117, 108, 108]
  const TRUE: JString := [116, 114, 117, 101]
  const FALSE: JString := [102, 97, 108, 115, 101]

  /** Section 2: insignificant white space. */
  predicate Ws(c: Unit) {
    c == 32 || c == 9 || c == 10 || c == 13
  }

  predicate AllWs(s: JString) {
    forall i :: 0 <= i < |s| ==> Ws(s[i])
  }

  function SkipWs(s: JString): (r: JString)
    ensures |r| <= |s|
  {
    if s != [] && Ws(s[0]) then SkipWs(s[1..]) else s
  }

  // ---- section 6: numbers ---------------------------------------------------------------------------------------

  predicate Digit(c: Unit) {
    48 <= c <= 57
  }

  /** Digits, minus, plus, point and the two letters e: everything a number is written with. */
  predicate NumberUnit(c: Unit) {
    Digit(c) || c == 45 || c == 43 || c == 46 || c == 69 || c == 101
  }

  function Digits(s: JString, i: nat): (j: nat)
    requires i <= |s|
    ensures i <= j <= |s| && forall k :: i <= k < j ==> Digit(s[k])
    decreases |s| - i
  {
    if i < |s| && Digit(s[i]) then Digits(s, i + 1) else i
  }

  /** `[ minus ] int [ frac ] [ exp ]`, each part as long as it can be. */
  predicate IsNumber(s: JString) {
    var a := if s != [] && s[0] == 45 then 1 else 0;
    var b := Digits(s, a);
    && a < b && (s[a] == 48 ==> b == a + 1)
    && var c := if b < |s| && s[b] == 46 then Digits(s, b + 1) else b;
       && (c > b ==> c > b + 1)
       && var d := if c < |s| && (s[c] == 69 || s[c] == 101) then Exponent(s, c + 1) else c;
          d == |s|
  }

  /** Behind the letter e: a sign may follow, and at least one digit; 0 if there is none. */
  function Exponent(s: JString, i: nat): (j: nat)
    requires i <= |s|
    ensures j <= |s| && (j > 0 ==> i < j && forall k :: i <= k < j ==> NumberUnit(s[k]))
  {
    var a := if i < |s| && (s[i] == 43 || s[i] == 45) then i + 1 else i;
    var b := Digits(s, a);
    if a < b then b else 0
  }

  function NumberLength(s: JString): (n: nat)
    ensures n <= |s|
  {
    if s != [] && NumberUnit(s[0]) then 1 + NumberLength(s[1..]) else 0
  }

  function ParseNumber(s: JString): (r: Option<(Json, JString)>)
    ensures r.Some? ==> |r.value.1| < |s|
  {
    var n := NumberLength(s);
    if n > 0 && IsNumber(s[..n]) then Some((JNumber(s[..n]), s[n..])) else None
  }

  // ---- section 7: strings ------------------------------------------------------------------------------------------

  function HexValue(c: Unit): Option<nat> {
    if 48 <= c <= 57 then Some(c - 48)
    else if 97 <= c <= 102 then Some(c - 87)
    else if 65 <= c <= 70 then Some(c - 55)
    else None
  }

  /** The code unit behind `\u`. */
  function FourHex(s: JString): Option<Unit>
    requires |s| == 4
  {
    var a, b, c, d := HexValue(s[0]), HexValue(s[1]), HexValue(s[2]), HexValue(s[3]);
    if a.Some? && b.Some? && c.Some? && d.Some? && a.value < 16 && b.value < 16 && c.value < 16 && d.value < 16
    then Some(a.value * 4096 + b.value * 256 + c.value * 16 + d.value)
    else None
  }

  /** The escapes of one letter: \" \\ \/ \b \f \n \r \t. */
  function ShortEscape(c: Unit): Option<Unit> {
    if c == 34 || c == 92 || c == 47 then Some(c)
    else if c == 98 then Some(8)
    else if c == 102 then Some(12)
    else if c == 110 then Some(10)
    else if c == 114 then Some(13)
    else if c == 116 then Some(9)
    else None
  }

  /** The next character of a string and what follows it. */
  function ParseChar(s: JString): (r: Option<(Unit, JString)>)
    ensures r.Some? ==> |r.value.1| < |s|
  {
    if s == [] || s[0] < 32 || s[0] == QUOTE then None
    else if s[0] != BACKSLASH then Some((s[0], s[1..]))
    else if |s| == 1 then None
    else if s[1] == 117 then
      if |s| < 6 then None
      else match FourHex(s[2..6]) {
        case Some(u) => Some((u, s[6..]))
        case None => None
      }
    else match ShortEscape(s[1]) {
      case Some(u) => Some((u, s[2..]))
      case None => None
    }
  }

  /** From behind the opening quotation mark to behind the closing one. */
  function ParseChars(s: JString): (r: Option<(JString, JString)>)
    ensures r.Some? ==> |r.value.1| < |s|
    decreases |s|
  {
    if s != [] && s[0] == QUOTE then Some(([], s[1..]))
    else match ParseChar(s) {
      case None => None
      case Some((u, rest)) =>
        match ParseChars(rest)
        case None => None
        case Some((us, r)) => Some(([u] + us, r))
    }
  }

  // ---- sections 3 to 5: values --------------------------------------------------------------------------------------

  /** A value, with white space before it allowed, and what follows it. */
  function ParseValue(s: JString): (r: Option<(Json, JString)>)
    ensures r.Some? ==> |r.value.1| < |s|
    decreases |s|, 0
  {
    var t := SkipWs(s);
    if t == [] then None
    else if t[0] == QUOTE then
      match ParseChars(t[1..]) {
        case Some((text, rest)) => Some((JString_(text), rest))
        case None => None
      }
    else if t[0] == OPEN_BRACKET then
      var u := SkipWs(t[1..]);
      if u != [] && u[0] == CLOSE_BRACKET then Some((JArray([]), u[1..]))
      else match ParseElements(t[1..]) {
        case Some((items, rest)) => Some((JArray(items), rest))
        case None => None
      }
    else if t[0] == OPEN_BRACE then
      var u := SkipWs(t[1..]);
      if u != [] && u[0] == CLOSE_BRACE then Some((JObject([]), u[1..]))
      else match ParseMembers(t[1..]) {
        case Some((members, rest)) => Some((JObject(members), rest))
        case None => None
      }
    else if StartsWith(t, NULL) then Some((JNull, t[4..]))
    else if StartsWith(t, TRUE) then Some((JBool(true), t[4..]))
    else if StartsWith(t, FALSE) then Some((JBool(false), t[5..]))
    else ParseNumber(t)
  }

  /** One value or more, separated by commas, up to the closing bracket. */
  function ParseElements(s: JString): (r: Option<(seq<Json>, JString)>)
    ensures r.Some? ==> |r.value.1| < |s|
    decreases |s|, 1
  {
    match ParseValue(s)
    case None => None
    case Some((item, rest)) =>
      var u := SkipWs(rest);
      if u == [] then None
      else if u[0] == CLOSE_BRACKET then Some(([item], u[1..]))
      else if u[0] != COMMA then None
      else match ParseElements(u[1..]) {
        case None => None
        case Some((items, r)) => Some(([item] + items, r))
      }
  }

  /** One name and value. */
  function ParseMember(s: JString): (r: Option<((JString, Json), JString)>)
    ensures r.Some? ==> |r.value.1| < |s|
    decreases |s|, 1
  {
    var t := SkipWs(s);
    if t == [] || t[0] != QUOTE then None
    else match ParseChars(t[1..]) {
      case None => None
      case Some((name, rest)) =>
        var u := SkipWs(rest);
        if u == [] || u[0] != COLON then None
        else match ParseValue(u[1..]) {
          case None => None
          case Some((value, r)) => Some(((name, value), r))
        }
    }
  }

  /** One member or more, separated by commas, up to the closing brace. */
  function ParseMembers(s: JString): (r: Option<(seq<(JString, Json)>, JString)>)
    ensures r.Some? ==> |r.value.1| < |s|
    decreases |s|, 2
  {
    match ParseMember(s)
    case None => None
    case Some((member, rest)) =>
      var u := SkipWs(rest);
      if u == [] then None
      else if u[0] == CLOSE_BRACE then Some(([member], u[1..]))
      else if u[0] != COMMA then None
      else match ParseMembers(u[1..]) {
        case None => None
        case Some((members, r)) => Some(([member] + members, r))
      }
  }

  /** A whole JSON text. */
  function ParseText(s: JString): Option<Json> {
    match ParseValue(s)
    case Some((value, rest)) => if SkipWs(rest) == [] then Some(value) else None
    case None => None
  }
}
