/** mustache.js: exports.parse. */
module MustacheParse {
  import opened Common
  import opened JavaText
  import opened MustacheTokens
  import opened MustacheRender
  import opened MustacheScanner
  import opened MustacheLines

  /** The tags in force. */
  datatype Tags = Tags(open: JString, close: JString)

  datatype ParseError = InvalidTags(tags: seq<JString>) | UnclosedTag(pos: nat) | Unbalanced(error: NestError)

  const EQUALS: Unit := 61
  const BRACE: Unit := 123
  const CLOSING_BRACE: Unit := 125

  /** `value.split(/\s+/)` */
  function SplitBlank(s: JString): (parts: seq<JString>)
    ensures parts != []
    decreases |s|
  {
    var i := FirstBlank(s);
    if i == |s| then [s]
    else
      assert White(s[i..][0]);
      [s[..i]] + SplitBlank(s[i..][Blanks(s[i..])..])
  }

  function FirstBlank(s: JString): (i: nat)
    ensures i <= |s| && (forall k :: 0 <= k < i ==> !White(s[k])) && (i < |s| ==> White(s[i]))
  {
    if s == [] || White(s[0]) then 0 else 1 + FirstBlank(s[1..])
  }

  function KindOf(sigil: Option<Unit>): (kind: Kind)
    ensures kind != Literal
  {
    match sigil
    case None => Name
    case Some(c) =>
      if c == 35 then Section
      else if c == 94 then Inverted
      else if c == 47 then Close
      else if c == 62 then Partial
      else if c == 61 then SetTags
      else if c == 33 then Comment
      else Unescaped
  }

  /** A tag: its kind and value, and where the text behind it begins. */
  datatype TagRead = TagRead(kind: Kind, value: JString, end: nat)

  /** Reads a tag from behind its opening text on; without a closing text, tells where it was looked for. */
  function ReadTag(template: JString, start: nat, tags: Tags): (r: Result<TagRead, nat>)
    requires start <= |template|
    ensures r.Ok? ==> start <= r.value.end <= |template| && r.value.kind != Literal
  {
    var p1 := start + HereAt(Sigil, template, start);
    var sigil := if p1 > start then Some(template[start]) else None;
    var p2 := p1 + HereAt(Blank, template, p1);
    var p3 := p2 + UntilAt(ValueEnd(sigil, tags), template, p2);
    var p4 := Behind(sigil, template, p3, tags);
    var n := HereAt(Closing(tags.close), template, p4);
    if n == 0 then Err(p4) else Ok(TagRead(KindOf(sigil), template[p2..p3], p4 + n))
  }

  /** Where the value of a tag ends. */
  function ValueEnd(sigil: Option<Unit>, tags: Tags): Pattern {
    if sigil == Some(EQUALS) then Closing([EQUALS])
    else if sigil == Some(BRACE) then Closing([CLOSING_BRACE] + tags.close)
    else Closing(tags.close)
  }

  /** After the value: a second "=" or a "}" is passed, and whatever stands before the closing text. */
  function Behind(sigil: Option<Unit>, template: JString, p: nat, tags: Tags): (q: nat)
    requires p <= |template|
    ensures p <= q <= |template|
  {
    if sigil == Some(EQUALS) || sigil == Some(BRACE) then
      var q := p + HereAt(Closing([if sigil == Some(EQUALS) then EQUALS else CLOSING_BRACE]), template, p);
      q + UntilAt(Closing(tags.close), template, q)
    else p
  }

  function Characters(template: JString, a: nat, b: nat): (r: seq<Token>)
    requires a <= b <= |template|
    ensures |r| == b - a
    ensures forall i :: 0 <= i < |r| ==> r[i] == Token(Literal, [template[a + i]], a + i, a + i + 1)
  {
    seq(b - a, i requires 0 <= i < b - a => Token(Literal, [template[a + i]], a + i, a + i + 1))
  }

  function Before(ts: seq<Token>, r: Result<seq<Token>, ParseError>): Result<seq<Token>, ParseError> {
    match r
    case Ok(rest) => Ok(ts + rest)
    case Err(e) => Err(e)
  }

  /** One round of the tokenizer: text, and the tag behind it if there is one. */
  datatype Round = Stop(tokens: seq<Token>) | Fail(error: ParseError) | Go(tokens: seq<Token>, end: nat, next: Tags)

  /** An empty opening text ends the reading. */
  function OneRound(template: JString, pos: nat, tags: Tags): (r: Round)
    requires pos <= |template|
    ensures r.Go? ==> pos < r.end <= |template|
  {
    var p := pos + UntilAt(Opening(tags.open), template, pos);
    var text := Characters(template, pos, p);
    var n := HereAt(Opening(tags.open), template, p);
    if n == 0 then Stop(text)
    else match ReadTag(template, p + n, tags) {
      case Err(q) => Fail(UnclosedTag(q))
      case Ok(TagRead(kind, value, end)) =>
        if kind == SetTags && |SplitBlank(value)| != 2 then Fail(InvalidTags(SplitBlank(value)))
        else Go(text + [Token(kind, value, p, end)], end, NextTags(kind, value, tags))
    }
  }

  /** The tokens from position `pos` on, no line stripped. */
  function Raw(template: JString, pos: nat, tags: Tags): Result<seq<Token>, ParseError>
    requires pos <= |template|
    decreases |template| - pos
  {
    if pos == |template| then Ok([])
    else match OneRound(template, pos, tags) {
      case Stop(tokens) => Ok(tokens)
      case Fail(error) => Err(error)
      case Go(tokens, end, next) => Before(tokens, Raw(template, end, next))
    }
  }

  function NextTags(kind: Kind, value: JString, tags: Tags): Tags
    requires kind == SetTags ==> |SplitBlank(value)| == 2
  {
    if kind == SetTags then Tags(SplitBlank(value)[0], SplitBlank(value)[1]) else tags
  }

  /** What parse returns or throws. */
  function Parse(template: JString, tags: seq<JString>): Result<seq<Node>, ParseError> {
    if |tags| != 2 then Err(InvalidTags(tags))
    else match Raw(template, 0, Tags(tags[0], tags[1])) {
      case Err(e) => Err(e)
      case Ok(raw) =>
        match Nest(Squash(Strip(raw)))
        case Err(e) => Err(Unbalanced(e))
        case Ok(tree) => Ok(tree)
    }
  }

  method PassBehind(scanner: Scanner, sigil: Option<Unit>, tags: Tags)
    requires scanner.Valid()
    modifies scanner
    ensures scanner.Valid() && scanner.pos == Behind(sigil, scanner.template, old(scanner.pos), tags)
  {
    hide UntilAt, HereAt, Scanner.Valid;
    if sigil == Some(EQUALS) {
      var equals := scanner.Scan(Closing([EQUALS]));
      var ignored := scanner.ScanUntil(Closing(tags.close));
    } else if sigil == Some(BRACE) {
      var brace := scanner.Scan(Closing([CLOSING_BRACE]));
      var ignored := scanner.ScanUntil(Closing(tags.close));
    }
  }

  /** The tag behind its opening text: the scanner goes over it. */
  method ScanTag(scanner: Scanner, tags: Tags) returns (r: Result<TagRead, nat>)
    requires scanner.Valid()
    modifies scanner
    ensures scanner.Valid() && r == ReadTag(scanner.template, old(scanner.pos), tags)
    ensures r.Ok? ==> scanner.pos == r.value.end
  {
    hide UntilAt, HereAt, Scanner.Valid, Behind, KindOf, ValueEnd;
    var kind := scanner.Scan(Sigil);
    var sigil := if |kind| > 0 then Some(kind[0]) else None;
    var ignored := scanner.Scan(Blank);
    var value := scanner.ScanUntil(ValueEnd(sigil, tags));
    PassBehind(scanner, sigil, tags);
    var close := scanner.Scan(Closing(tags.close));
    if |close| == 0 {
      return Err(scanner.pos);
    }
    return Ok(TagRead(KindOf(sigil), value, scanner.pos));
  }

  /** The text before the next tag goes character by character into the line buffer. */
  method TakeText(lines: LineBuffer, value: JString, start: nat, ghost text: seq<Token>)
    requires lines.Valid() && |text| == |value|
    requires forall i :: 0 <= i < |text| ==> text[i] == Token(Literal, [value[i]], start + i, start + i + 1)
    modifies lines
    ensures lines.Valid() && lines.Seen() == old(lines.Seen()) + text
  {
    hide *;
    ghost var seen := lines.Seen();
    assert seen + text[..0] == seen;
    for i := 0 to |value|
      invariant lines.Valid() && lines.Seen() == seen + text[..i]
    {
      assert seen + text[..i + 1] == seen + text[..i] + [text[i]];
      lines.Character(value[i], start + i);
    }
    assert text[..|value|] == text;
  }

  /** How the tokenizer goes on: with which tags, or not at all. */
  function Onwards(r: Round): Result<Option<Tags>, ParseError> {
    match r
    case Stop(_) => Ok(None)
    case Fail(error) => Err(error)
    case Go(_, _, next) => Ok(Some(next))
  }

  /** The body of the loop. */
  method ScanRound(scanner: Scanner, lines: LineBuffer, tags: Tags) returns (r: Result<Option<Tags>, ParseError>)
    requires scanner.Valid() && lines.Valid()
    modifies scanner, lines
    ensures var round := OneRound(scanner.template, old(scanner.pos), tags);
            && r == Onwards(round)
            && (r.Ok? ==> scanner.Valid() && lines.Valid() && lines.Seen() == old(lines.Seen()) + round.tokens)
            && (round.Go? ==> scanner.pos == round.end)
  {
    hide UntilAt, HereAt, Scanner.Valid, ReadTag, Characters, SplitBlank, LineBuffer.Valid, LineBuffer.Seen;
    ghost var seen := lines.Seen();
    var first := scanner.pos;
    var value := scanner.ScanUntil(Opening(tags.open));
    var start := scanner.pos;
    ghost var text := Characters(scanner.template, first, start);
    TakeText(lines, value, first, text);
    var mark := scanner.Scan(Opening(tags.open));
    if |mark| == 0 {
      return Ok(None);
    }
    var tag := ScanTag(scanner, tags);
    if tag.Err? {
      return Err(UnclosedTag(tag.error));
    }
    var TagRead(kind, content, end) := tag.value;
    lines.Tag(Token(kind, content, start, end));
    assert seen + text + [Token(kind, content, start, end)] == seen + (text + [Token(kind, content, start, end)]);
    if kind == SetTags {
      var parts := SplitBlank(content);
      if |parts| != 2 {
        return Err(InvalidTags(parts));
      }
      return Ok(Some(Tags(parts[0], parts[1])));
    }
    return Ok(Some(tags));
  }

  lemma NothingBefore(r: Result<seq<Token>, ParseError>)
    ensures Before([], r) == r
  {
    if r.Ok? {
      assert [] + r.value == r.value;
    }
  }

  lemma BeforeTwice(a: seq<Token>, b: seq<Token>, r: Result<seq<Token>, ParseError>)
    ensures Before(a, Before(b, r)) == Before(a + b, r)
  {
    if r.Ok? {
      assert a + (b + r.value) == a + b + r.value;
    }
  }

  method ParseTemplate(template: JString, tags: seq<JString>) returns (r: Result<seq<Node>, ParseError>)
    ensures r == Parse(template, tags)
  {
    hide OneRound, Strip, Nest, Squash, LineBuffer.Valid, LineBuffer.Seen;
    if |tags| != 2 {
      return Err(InvalidTags(tags));
    }
    var tagRes := Tags(tags[0], tags[1]);
    var scanner := new Scanner(template);
    var lines := new LineBuffer();
    ghost var all := Raw(template, 0, tagRes);
    NothingBefore(all);
    while |scanner.tail| > 0
      invariant scanner.Valid() && lines.Valid() && scanner.template == template
      invariant all == Before(lines.Seen(), Raw(template, scanner.pos, tagRes))
      decreases |scanner.tail|
    {
      ghost var seen, round := lines.Seen(), OneRound(template, scanner.pos, tagRes);
      var r := ScanRound(scanner, lines, tagRes);
      if r.Err? {
        return Err(r.error);
      }
      if r.value.None? {
        break;
      }
      BeforeTwice(seen, round.tokens, Raw(template, scanner.pos, round.next));
      tagRes := r.value.value;
    }
    assert all == Ok(lines.Seen()) by {
      assert lines.Seen() + [] == lines.Seen();
    }
    var tokens := lines.Finish();
    tokens := SquashTokens(tokens);
    var nested := NestTokens(tokens);
    r := if nested.Ok? then Ok(nested.value) else Err(Unbalanced(nested.error));
  }
}
