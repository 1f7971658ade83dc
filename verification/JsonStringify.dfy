/** json2.js: JSON.stringify without replacer and toJSON. */
module JsonStringify {
  import opened Common
  import opened JavaText
  import opened JsonText

  /**
   * JavaScript values: a number is known by what String() makes of it; an object by its own enumerable members in
   * order.
   */
  datatype Value =
    | Undefined
    | Function
    | Null
    | Boolean(b: bool)
    | Number(text: JString, finite: bool)
    | Str(text: JString)
    | Array(items: seq<Value>)
    | Object(members: seq<Member>)

  datatype Member = Member(name: JString, value: Value)

  // ---- quote ------------------------------------------------------------------------------------------------------

  /** The characters that the regular expression `escapable` matches. */
  predicate Escapable(c: Unit) {
    || c == 92 || c == 34 || c <= 0x1F || 0x7F <= c <= 0x9F || c == 0xAD || 0x600 <= c <= 0x604 || c == 0x70F
    || c == 0x17B4 || c == 0x17B5 || 0x200C <= c <= 0x200F || 0x2028 <= c <= 0x202F || 0x2060 <= c <= 0x206F
    || c == 0xFEFF || 0xFFF0 <= c
  }

  /** The table `meta`. */
  function Meta(c: Unit): Option<JString> {
    if c == 8 then Some(Text("\\b"))
    else if c == 9 then Some(Text("\\t"))
    else if c == 10 then Some(Text("\\n"))
    else if c == 12 then Some(Text("\\f"))
    else if c == 13 then Some(Text("\\r"))
    else if c == 34 then Some(Text("\\\""))
    else if c == 92 then Some(Text("\\\\"))
    else None
  }

  function HexDigit(n: nat): Unit
    requires n < 16
  {
    if n < 10 then 48 + n else 87 + n
  }

  /** `n.toString(16)` */
  function ToHex(n: nat): (s: JString)
    ensures s != []
  {
    if n < 16 then [HexDigit(n)] else ToHex(n / 16) + [HexDigit(n % 16)]
  }

  /** `('0000' + s).slice(-4)` */
  function LastFour(s: JString): (r: JString)
    ensures |r| == 4
  {
    var padded := Text("0000") + s;
    padded[|padded| - 4..]
  }

  function Escape(c: Unit): JString {
    if !Escapable(c) then [c]
    else match Meta(c) {
      case Some(s) => s
      case None => [92, 117] + LastFour(ToHex(c))
    }
  }

  function EscapeAll(s: JString): JString {
    if s == [] then [] else Escape(s[0]) + EscapeAll(s[1..])
  }

  predicate HasEscapable(s: JString) {
    exists i :: 0 <= i < |s| && Escapable(s[i])
  }

  function Quote(s: JString): JString {
    if HasEscapable(s) then [QUOTE] + EscapeAll(s) + [QUOTE] else [QUOTE] + s + [QUOTE]
  }

  // ---- str ----------------------------------------------------------------------------------------------------------

  function JoinBy(parts: seq<JString>, separator: JString): JString
    requires parts != []
  {
    if |parts| == 1 then parts[0] else JoinBy(parts[..|parts| - 1], separator) + separator + parts[|parts| - 1]
  }

  const NEWLINE: JString := [10]

  /** The partial results between their brackets; `mind` is the gap outside. */
  function Wrap(open: Unit, parts: seq<JString>, gap: JString, mind: JString, close: Unit): JString {
    if parts == [] then [open, close]
    else if gap != [] then
      [open] + NEWLINE + gap + JoinBy(parts, [COMMA] + NEWLINE + gap) + NEWLINE + mind + [close]
    else [open] + JoinBy(parts, [COMMA]) + [close]
  }

  /** The text of a value, or None where `str` returns undefined. */
  function Stringify(v: Value, gap: JString, indent: JString): (r: Option<JString>)
    ensures r.Some? <==> !v.Undefined? && !v.Function?
    ensures r.Some? && (v.Number? ==> v.text != []) ==> r.value != []
    decreases v, 0
  {
    match v
    case Undefined => None
    case Function => None
    case Null => Some(NULL)
    case Boolean(b) => Some(if b then TRUE else FALSE)
    case Number(text, finite) => Some(if finite then text else NULL)
    case Str(text) => Some(Quote(text))
    case Array(items) =>
      Some(Wrap(OPEN_BRACKET, Elements(items, gap + indent, indent), gap + indent, gap, CLOSE_BRACKET))
    case Object(members) =>
      Some(Wrap(OPEN_BRACE, Members(members, gap + indent, indent), gap + indent, gap, CLOSE_BRACE))
  }

  function Elements(items: seq<Value>, gap: JString, indent: JString): (parts: seq<JString>)
    ensures |parts| == |items|
    decreases items, 1
  {
    if items == [] then []
    else Elements(items[..|items| - 1], gap, indent) + [OrNull(Stringify(items[|items| - 1], gap, indent))]
  }

  /** `str(i, value) || 'null'` */
  function OrNull(text: Option<JString>): JString {
    if text.Some? && text.value != [] then text.value else NULL
  }

  function Members(members: seq<Member>, gap: JString, indent: JString): seq<JString>
    decreases members, 1
  {
    if members == [] then []
    else
      var last := members[|members| - 1];
      Members(members[..|members| - 1], gap, indent) + MemberText(last.name, Stringify(last.value, gap, indent), gap)
  }

  /** Nothing is pushed for a value without a text. */
  function MemberText(name: JString, text: Option<JString>, gap: JString): seq<JString> {
    if text.Some? && text.value != [] then [Quote(name) + (if gap != [] then [COLON, 32] else [COLON]) + text.value]
    else []
  }

  /** The third argument of JSON.stringify. */
  datatype Space = NoSpace | Count(n: int) | Indent(text: JString)

  function Blanks(n: nat): (s: JString)
    ensures |s| == n && forall i :: 0 <= i < n ==> s[i] == 32
  {
    seq<Unit>(n, _ => 32)
  }

  function IndentOf(space: Space): JString {
    match space
    case NoSpace => []
    case Count(n) => Blanks(if n > 0 then n else 0)
    case Indent(text) => text
  }

  /** The variables that `str` and `stringify` share. */
  class Stringifier {
    var gap: JString
    var indent: JString

    constructor ()
    {
      gap := [];
      indent := [];
    }

    /** `str`: on every return the gap is what it was. */
    method Str(v: Value) returns (r: Option<JString>)
      modifies this
      ensures gap == old(gap) && indent == old(indent)
      ensures r == Stringify(v, gap, indent)
      decreases v, 0
    {
      hide Wrap, Quote;
      var mind := gap;
      match v
      case Str(text) => r := Some(Quote(text));
      case Number(text, finite) => r := Some(if finite then text else NULL);
      case Boolean(b) => r := Some(if b then TRUE else FALSE);
      case Null => r := Some(NULL);
      case Array(items) =>
        gap := gap + indent;
        var partial := StrItems(items);
        r := Some(Wrap(OPEN_BRACKET, partial, gap, mind, CLOSE_BRACKET));
        gap := mind;
      case Object(members) =>
        gap := gap + indent;
        var partial := StrMembers(members);
        r := Some(Wrap(OPEN_BRACE, partial, gap, mind, CLOSE_BRACE));
        gap := mind;
      case Undefined => r := None;
      case Function => r := None;
    }

    /** The loop over the elements of an array. */
    method StrItems(items: seq<Value>) returns (partial: seq<JString>)
      modifies this
      ensures gap == old(gap) && indent == old(indent)
      ensures partial == Elements(items, gap, indent)
      decreases items, 1
    {
      hide Stringify;
      partial := [];
      for i := 0 to |items|
        invariant gap == old(gap) && indent == old(indent)
        invariant partial == Elements(items[..i], gap, indent)
      {
        assert items[..i + 1][..i] == items[..i];
        var text := Str(items[i]);
        partial := partial + [if text.Some? && |text.value| > 0 then text.value else NULL];
      }
      assert items[..|items|] == items;
    }

    /** The loop over the members of an object. */
    method StrMembers(members: seq<Member>) returns (partial: seq<JString>)
      modifies this
      ensures gap == old(gap) && indent == old(indent)
      ensures partial == Members(members, gap, indent)
      decreases members, 1
    {
      hide Stringify, Quote;
      partial := [];
      for i := 0 to |members|
        invariant gap == old(gap) && indent == old(indent)
        invariant partial == Members(members[..i], gap, indent)
      {
        assert members[..i + 1][..i] == members[..i];
        var k := members[i].name;
        var text := Str(members[i].value);
        if text.Some? && |text.value| > 0 {
          partial := partial + [Quote(k) + (if |gap| > 0 then [COLON, 32] else [COLON]) + text.value];
        }
      }
      assert members[..|members|] == members;
    }

    /** JSON.stringify(value, undefined, space) */
    method StringifyValue(value: Value, space: Space) returns (r: Option<JString>)
      modifies this
      ensures r == Stringify(value, [], IndentOf(space))
    {
      gap := [];
      indent := [];
      match space {
        case Count(n) =>
          var i := 0;
          while i < n
            invariant 0 <= i && (i <= n || i == 0) && indent == Blanks(i) && gap == []
          {
            indent := indent + [32];
            i := i + 1;
          }
        case Indent(text) => indent := text;
        case NoSpace =>
      }
      r := Str(value);
    }
  }
}
