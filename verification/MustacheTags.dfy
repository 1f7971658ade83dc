/** mustache.js: what each kind of tag renders, told without the functions that the two readings of a template share. */
module MustacheTags {
  import opened Common
  import opened JavaText
  import opened MustacheTokens
  import opened MustacheRender
  import opened MustacheScanner
  import opened MustacheLines
  import opened MustacheParse
  import opened MustacheWriter

  // ---- character references -----------------------------------------------------------------------------------------

  function DigitValue(c: Unit): nat {
    if 48 <= c <= 57 then c - 48
    else if 65 <= c <= 70 then c - 55
    else if 97 <= c <= 102 then c - 87
    else 0
  }

  function NumberIn(base: nat, digits: JString): nat {
    if digits == [] then 0 else base * NumberIn(base, digits[..|digits| - 1]) + DigitValue(digits[|digits| - 1])
  }

  /** The character that `&name;` refers to in HTML: by name, or by its number in decimal or hexadecimal digits. */
  function Referenced(name: JString): Option<int> {
    if name == [97, 109, 112] then Some(38)
    else if name == [108, 116] then Some(60)
    else if name == [103, 116] then Some(62)
    else if name == [113, 117, 111, 116] then Some(34)
    else if |name| >= 3 && name[0] == 35 && name[1] in {88, 120} then Some(NumberIn(16, name[2..]))
    else if |name| >= 2 && name[0] == 35 then Some(NumberIn(10, name[1..]))
    else None
  }

  /** Every replacement that escapeHtml makes is an HTML character reference to what it replaces. */
  lemma EntitiesAreReferences(c: Unit)
    ensures c in {38, 60, 62, 34, 39, 47} ==>
              |Entity(c)| > 2 && Entity(c)[0] == 38 && Entity(c)[|Entity(c)| - 1] == 59
              && Referenced(Entity(c)[1..|Entity(c)| - 1]) == Some(c)
    ensures c !in {38, 60, 62, 34, 39, 47} ==> Entity(c) == [c]
  {
    if c == 38 {
      assert Entity(c) == [38, 97, 109, 112, 59];
      assert [38, 97, 109, 112, 59][1..4] == [97, 109, 112];
    } else if c == 60 {
      assert Entity(c)[1..3] == [108, 116];
    } else if c == 62 {
      assert Entity(c)[1..3] == [103, 116];
    } else if c == 34 {
      assert Entity(c)[1..5] == [113, 117, 111, 116];
    } else if c in {39, 47} {
      NumbersAreReferences(c);
    }
  }

  lemma NumbersAreReferences(c: Unit)
    requires c in {39, 47}
    ensures |Entity(c)| > 2 && Entity(c)[0] == 38 && Entity(c)[|Entity(c)| - 1] == 59
    ensures Referenced(Entity(c)[1..|Entity(c)| - 1]) == Some(c)
  {
    hide NumberIn;
    if c == 39 {
      assert Entity(c)[1..4] == [35, 51, 57] && [35, 51, 57][1..] == [51, 57];
      TwoDigits(10, 51, 57);
    } else {
      assert Entity(c)[1..5] == [35, 120, 50, 70] && [35, 120, 50, 70][2..] == [50, 70];
      TwoDigits(16, 50, 70);
    }
  }

  lemma TwoDigits(base: nat, a: Unit, b: Unit)
    ensures NumberIn(base, [a, b]) == base * DigitValue(a) + DigitValue(b)
  {
    assert [a, b][..1] == [a] && [a][..0] == [];
    assert NumberIn(base, [a]) == DigitValue(a);
  }

  // ---- plain and unescaped tags -------------------------------------------------------------------------------------

  /**
   * A plain tag and an unescaped one fail alike; otherwise the plain one prints the text escaped, so none of the
   * characters < > " ' / comes out of it, and the unescaped one prints it as it is.
   */
  lemma PlainTagsAreEscaped(env: Env, name: JString, chain: seq<JsValue>)
    requires chain != []
    ensures var plain, raw := TagText(env, Name, name, chain), TagText(env, Unescaped, name, chain);
            && (plain.Err? <==> raw.Err?) && (plain.Err? ==> plain == raw)
            && (plain.Ok? ==> raw == Ok(UnescapeHtml(plain.value)))
            && (plain.Ok? ==> forall c :: c in {60, 62, 34, 39, 47} ==> c !in plain.value)
  {
    hide NameText, EscapeHtml, UnescapeHtml;
    var raw := TagText(env, Unescaped, name, chain);
    if raw.Ok? {
      EscapeIsUndone(raw.value);
    }
  }

  /** Tags that set delimiters, comments and stray close tags print nothing. */
  lemma SilentTags(env: Env, name: JString, chain: seq<JsValue>)
    requires chain != []
    ensures TagText(env, SetTags, name, chain) == TagText(env, Comment, name, chain) == Ok([])
  {
  }

  /** What an unescaped tag prints: a function found is called in the innermost view, and so is what it returns. */
  lemma PrintsValue(env: Env, name: JString, chain: seq<JsValue>, v: JsValue)
    requires chain != [] && Find(env, chain, name) == Ok(v)
    ensures var once := if v.Function? then env.call(v.id, chain[0]) else v;
            var twice := if once.Function? then env.call(once.id, chain[0]) else once;
            TagText(env, Unescaped, name, chain) == Ok(if twice in {Undefined, Null} then [] else env.show(twice))
  {
    hide Find;
  }

  // ---- lookup -------------------------------------------------------------------------------------------------------

  /** The values that a condition takes for false. */
  predicate Falsy(v: JsValue) {
    v in {Undefined, Null, Boolean(false), Str([])} || (v.Number? && v.zeroOrNaN)
  }

  /**
   * "." is the innermost view. Any other name is looked for in the views, and the innermost with a value wins; what is
   * further out is not looked at. A name that every object inherits is found before that.
   */
  lemma {:induction false} InnermostWins(env: Env, chain: seq<JsValue>, name: JString, k: nat)
    requires k < |chain|
    requires forall i :: 0 <= i < k ==> InView(env, chain[i], name) in {Ok(Undefined), Ok(Null)}
    requires k + 1 == |chain| || InView(env, chain[k], name) !in {Ok(Undefined), Ok(Null)}
    ensures Find(env, chain, name)
         == if !Falsy(env.inherited(name)) then Ok(env.inherited(name))
            else if name == [46] then Ok(chain[0])
            else InView(env, chain[k], name)
  {
    hide InView, Search;
    InnermostOf(env, chain, name, k);
  }

  lemma {:induction false} InnermostOf(env: Env, chain: seq<JsValue>, name: JString, k: nat)
    requires k < |chain|
    requires forall i :: 0 <= i < k ==> InView(env, chain[i], name) in {Ok(Undefined), Ok(Null)}
    requires k + 1 == |chain| || InView(env, chain[k], name) !in {Ok(Undefined), Ok(Null)}
    ensures Search(env, chain, name) == InView(env, chain[k], name)
    decreases k
  {
    hide InView;
    if k > 0 {
      assert InView(env, chain[0], name) in {Ok(Undefined), Ok(Null)};
      InnermostOf(env, chain[1..], name, k - 1);
    }
  }

  /** A name without dots, or that begins with one, is a property of the view; null and undefined have none. */
  lemma PropertyOfView(env: Env, view: JsValue, name: JString)
    requires 46 !in name || name[0] == 46
    ensures InView(env, view, name)
         == if view in {Undefined, Null} then Err(TypeError) else Ok(env.get(view, name))
  {
  }

  /** A path goes from value to value, one property after the other, as long as there is something to go on from. */
  lemma {:induction false} PathStep(env: Env, view: JsValue, path: seq<JString>, last: JString)
    ensures var v := Walk(env, view, path);
            Walk(env, view, path + [last]) == if Falsy(v) then v else env.get(v, last)
    decreases |path|
  {
    if path == [] {
      assert [] + [last] == [last] && [last][1..] == [];
    } else {
      assert (path + [last])[1..] == path[1..] + [last];
      if Truthy(view) {
        PathStep(env, env.get(view, path[0]), path[1..], last);
      }
    }
  }

  /** `name.last`: what `name` leads to from the view, and from there, if it is something, the property `last`. */
  lemma DottedName(env: Env, view: JsValue, name: JString, last: JString)
    requires name != [] && name[0] != 46 && 46 !in last
    ensures var v := if 46 in name then InView(env, view, name)
                     else Ok(if Falsy(view) then view else env.get(view, name));
            && v.Ok?
            && InView(env, view, name + [46] + last)
            == Ok(if Falsy(v.value) then v.value else env.get(v.value, last))
  {
    hide Walk, Split, Falsy;
    var dotted := name + [46] + last;
    assert dotted[|name|] == 46 && dotted[0] == name[0];
    SplitSnoc(name, last);
    PathStep(env, view, Split(name), last);
    if 46 !in name {
      SplitPlain(name);
      PathStep(env, view, [], name);
      assert [] + [name] == [name];
      NoPath(env, view);
    }
  }

  lemma NoPath(env: Env, view: JsValue)
    ensures Walk(env, view, []) == view
  {
  }

  lemma {:induction false} SplitSnoc(name: JString, last: JString)
    requires 46 !in last
    ensures Split(name + [46] + last) == Split(name) + [last]
    decreases |last|
  {
    var s := name + [46] + last;
    if last == [] {
      assert s[..|s| - 1] == name;
    } else {
      SplitSnoc(name, last[..|last| - 1]);
      assert s[..|s| - 1] == name + [46] + last[..|last| - 1];
      assert last[..|last| - 1] + [last[|last| - 1]] == last && s[|s| - 1] == last[|last| - 1];
    }
  }

  lemma {:induction false} SplitPlain(name: JString)
    requires 46 !in name
    ensures Split(name) == [name]
    decreases |name|
  {
    if name != [] {
      SplitPlain(name[..|name| - 1]);
      assert name[..|name| - 1] + [name[|name| - 1]] == name;
    }
  }

  // ---- sections -----------------------------------------------------------------------------------------------------

  function Joined(texts: seq<JString>): JString {
    if texts == [] then [] else Joined(texts[..|texts| - 1]) + texts[|texts| - 1]
  }

  /** For which values a section is left out, and an inverted one rendered. */
  predicate LeftOut(v: JsValue) {
    Falsy(v) || v == Array([])
  }

  /** A section over an array renders its text once for each item, in order, with the item as the innermost view. */
  lemma {:induction false} SectionOverItems(env: Env, name: JString, nodes: seq<Node>, chain: seq<JsValue>,
      items: seq<JsValue>, texts: seq<JString>)
    requires chain != [] && Lookup(env, chain, name) == Ok(Array(items)) && |texts| == |items|
    requires forall i :: 0 <= i < |items| ==> RenderAll(env, nodes, [items[i]] + chain) == Ok(texts[i])
    ensures RenderSection(env, Section, name, nodes, chain) == Ok(Joined(texts))
  {
    hide Lookup, RenderAll;
    ItemsInOrder(env, nodes, chain, items, texts);
  }

  lemma {:induction false} ItemsInOrder(env: Env, nodes: seq<Node>, chain: seq<JsValue>, items: seq<JsValue>,
      texts: seq<JString>)
    requires |texts| == |items|
    requires forall i :: 0 <= i < |items| ==> RenderAll(env, nodes, [items[i]] + chain) == Ok(texts[i])
    ensures RenderEach(env, nodes, Views(chain, items)) == Ok(Joined(texts))
    decreases |items|
  {
    hide RenderAll;
    if items != [] {
      var last := |items| - 1;
      ItemsInOrder(env, nodes, chain, items[..last], texts[..last]);
      assert Views(chain, items)[..last] == Views(chain, items[..last]);
    }
  }

  /** A section over an object renders it once, in the object; over true, a number or a text, once in the same views. */
  lemma SectionOnce(env: Env, name: JString, nodes: seq<Node>, chain: seq<JsValue>, v: JsValue)
    requires chain != [] && Lookup(env, chain, name) == Ok(v) && !LeftOut(v) && !v.Array? && !v.Function?
    ensures RenderSection(env, Section, name, nodes, chain)
         == RenderAll(env, nodes, if v.Object? then [v] + chain else chain)
  {
    hide Lookup, RenderAll;
    RenderedOnce(env, nodes, chain);
    RenderedOnce(env, nodes, [v] + chain);
  }

  lemma RenderedOnce(env: Env, nodes: seq<Node>, chain: seq<JsValue>)
    requires chain != []
    ensures RenderEach(env, nodes, [chain]) == RenderAll(env, nodes, chain)
  {
    hide RenderAll;
    assert [chain][..0] == [];
    JoinAssociates(Ok([]), RenderAll(env, nodes, chain), Ok([]));
  }

  /** Where a section is left out its inverted section is rendered, once and in the same views, and only there. */
  lemma EitherOr(env: Env, name: JString, nodes: seq<Node>, chain: seq<JsValue>, v: JsValue)
    requires chain != [] && Lookup(env, chain, name) == Ok(v)
    ensures LeftOut(v) ==> RenderSection(env, Section, name, nodes, chain) == Ok([])
    ensures RenderSection(env, Inverted, name, nodes, chain)
         == if LeftOut(v) then RenderAll(env, nodes, chain) else Ok([])
  {
    hide Lookup, RenderAll;
    RenderedOnce(env, nodes, chain);
  }

  // ---- standalone lines ---------------------------------------------------------------------------------------------

  /** White space, or a tag that does not print a value; a partial does not count as printing. */
  predicate Spare(t: Token) {
    || t.kind in {Section, Inverted, Close, Partial, SetTags, Comment}
    || (t.kind == Literal && forall c :: c in t.value ==> White(c))
  }

  /** A line up to its line break loses its text exactly if it has a tag and nothing that is not spare. */
  lemma LineIsCleanedIff(line: seq<Token>, rest: seq<Token>)
    requires Line(line)
    ensures var tagged := exists i :: 0 <= i < |line| && line[i].kind != Literal;
            var cleaned := tagged && forall t :: t in line ==> Spare(t);
            Strip(line + rest) == (if cleaned then TagsOnly(line) else line) + Strip(rest)
  {
    hide White;
    LineEndOf(line, rest);
    var ts := line + rest;
    assert ts[..|line|] == line && ts[|line|..] == rest && ts[|line| - 1] == line[|line| - 1];
    forall t ensures !Ink(t) <==> Spare(t) {
      InkIff(t);
    }
    hide Ink, Break, TagsOnly, LineEnd, Spare;
  }

  lemma InkIff(t: Token)
    ensures !Ink(t) <==> Spare(t)
  {
    hide White;
    assert (forall c :: c in t.value ==> White(c)) ==> forall i :: 0 <= i < |t.value| ==> White(t.value[i]);
  }

  /** Of a line that is cleaned exactly the tags are left, in order. */
  lemma {:induction false} TagsAreLeft(line: seq<Token>, t: Token)
    ensures TagsOnly(line + [t]) == TagsOnly(line) + if t.kind == Literal then [] else [t]
    ensures TagsOnly([]) == []
  {
    assert (line + [t])[..|line|] == line;
  }

  // ---- new delimiters -----------------------------------------------------------------------------------------------

  /** `{{=open close=}}`: the first word is the opening text of the tags behind it, and the second the closing one. */
  lemma NewDelimiters(open: JString, blanks: JString, close: JString, tags: Tags)
    requires open != [] && blanks != [] && close != [] && AllWhite(blanks)
    requires forall i :: 0 <= i < |open| ==> !White(open[i])
    requires forall i :: 0 <= i < |close| ==> !White(close[i])
    ensures |SplitBlank(open + blanks + close)| == 2
    ensures NextTags(SetTags, open + blanks + close, tags) == Tags(open, close)
  {
    hide White, FirstBlank, Blanks;
    var s := open + blanks + close;
    assert s == open + (blanks + close) && (blanks + close)[0] == blanks[0];
    WordEnds(open, blanks + close);
    BlanksEndAt(blanks, close);
    WordEnds(close, []);
    assert s[..|open|] == open && s[|open|..] == blanks + close && (blanks + close)[|blanks|..] == close;
    assert close + [] == close && SplitBlank(close) == [close];
    assert SplitBlank(s) == [open] + [close];
  }

  lemma {:induction false} WordEnds(word: JString, rest: JString)
    requires forall i :: 0 <= i < |word| ==> !White(word[i])
    requires rest == [] || White(rest[0])
    ensures FirstBlank(word + rest) == |word|
  {
    hide White;
    if word == [] {
      assert word + rest == rest;
    } else {
      assert (word + rest)[1..] == word[1..] + rest;
      WordEnds(word[1..], rest);
    }
  }

  lemma {:induction false} BlanksEndAt(blanks: JString, rest: JString)
    requires AllWhite(blanks) && (rest == [] || !White(rest[0]))
    ensures Blanks(blanks + rest) == |blanks|
  {
    hide White;
    if blanks == [] {
      assert blanks + rest == rest;
    } else {
      assert (blanks + rest)[1..] == blanks[1..] + rest;
      BlanksEndAt(blanks[1..], rest);
    }
  }

  // ---- two whole templates ------------------------------------------------------------------------------------------

  /** A name that the tokenizer takes as it stands. */
  predicate PlainName(name: JString) {
    && name != [] && !White(name[0]) && !White(name[|name| - 1])
    && name[0] !in SIGILS && 125 !in name
  }

  function InBraces(name: JString): JString {
    [123, 123] + name + [125, 125]
  }

  function InTripleBraces(name: JString): JString {
    [123, 123, 123] + name + [125, 125, 125]
  }

  /** The value of a tag ends where its closing braces begin. */
  lemma NameEnds(name: JString, tail: JString, tag: JString)
    requires name != [] && !White(name[|name| - 1]) && 125 !in name
    requires tag != [] && tag[0] == 125 && StartsWith(tail, tag)
    ensures Until(Closing(tag), name + tail) == |name| && Here(Closing(tag), tail) == |tag|
  {
    hide White;
    var s := name + tail;
    BraceMatches(tail, tag);
    assert s[|name|..] == tail;
    var n := Until(Closing(tag), s);
    if n < |name| {
      NoMatchInName(name, tail, tag, n);
    }
  }

  lemma BraceMatches(tail: JString, tag: JString)
    requires tag != [] && tag[0] == 125 && StartsWith(tail, tag)
    ensures Match(Closing(tag), tail) == Some(|tag|)
  {
    assert tail[..|tag|][0] == tail[0] && !White(tail[0]);
    assert Blanks(tail) == 0 && tail[0..] == tail;
  }

  lemma NoMatchInName(name: JString, tail: JString, tag: JString, n: nat)
    requires n < |name| && !White(name[|name| - 1]) && 125 !in name && tag != [] && tag[0] == 125
    ensures Match(Closing(tag), (name + tail)[n..]).None?
  {
    hide White, Blanks, Backtrack, StartsWith;
    var s := (name + tail)[n..];
    BlanksEnd(s, |name| - 1 - n);
    forall j | 0 <= j <= Blanks(s) ensures !StartsWith(s[j..], tag) {
      assert s[j..][0] == name[n + j];
      StartsOtherwise(s[j..], tag);
    }
  }

  lemma {:induction false} BlanksEnd(s: JString, i: nat)
    requires i < |s| && !White(s[i])
    ensures Blanks(s) <= i
  {
    hide White;
    if i > 0 && White(s[0]) {
      BlanksEnd(s[1..], i - 1);
    }
  }

  lemma StartsOtherwise(s: JString, tag: JString)
    requires s != [] && tag != [] && s[0] != tag[0]
    ensures !StartsWith(s, tag)
  {
    assert |tag| <= |s| ==> s[..|tag|][0] == s[0];
  }

  lemma OpeningMatches(rest: JString)
    requires rest != [] && !White(rest[0])
    ensures Until(Opening([123, 123]), [123, 123] + rest) == 0 && Here(Opening([123, 123]), [123, 123] + rest) == 2
  {
    hide White;
    var s := [123, 123] + rest;
    assert s[..2] == [123, 123] && s[2..] == rest;
  }

  lemma DefaultTags()
    ensures DEFAULT_TAGS == [[123, 123], [125, 125]]
  {
    assert DEFAULT_TAGS[0] == [123, 123] && DEFAULT_TAGS[1] == [125, 125];
  }

  lemma PlainTagRead(name: JString)
    requires PlainName(name)
    ensures var t := InBraces(name);
            ReadTag(t, 2, Tags([123, 123], [125, 125])) == Ok(TagRead(Name, name, |t|))
  {
    hide White, Until, Here, Match;
    var t := InBraces(name);
    var none: Option<Unit> := None;
    assert t[2..] == name + [125, 125];
    NothingHere(name + [125, 125]);
    NameEnds(name, [125, 125], [125, 125]);
    assert t[2 + |name|..] == [125, 125] && t[2..2 + |name|] == name;
    assert Behind(none, t, 2 + |name|, Tags([123, 123], [125, 125])) == 2 + |name|;
  }

  /** No sigil and no white space. */
  lemma NothingHere(s: JString)
    requires s != [] && s[0] !in SIGILS && !White(s[0])
    ensures Here(Sigil, s) == 0 && Here(Blank, s) == 0
  {
    hide White;
  }

  lemma TripleTagRead(name: JString)
    requires PlainName(name)
    ensures var t := InTripleBraces(name);
            ReadTag(t, 2, Tags([123, 123], [125, 125])) == Ok(TagRead(Unescaped, name, |t|))
  {
    hide White, Until, Here, Match, InTripleBraces;
    TripleBraces(name);
    BraceHere(name + [125, 125, 125]);
    BlankHere(name + [125, 125, 125]);
    NameEnds(name, [125, 125, 125], [125, 125, 125]);
    CloseHere();
    assert [125] + [125, 125] == [125, 125, 125];
    assert Behind(Some(BRACE), InTripleBraces(name), 3 + |name|, Tags([123, 123], [125, 125])) == 4 + |name|;
  }

  /** The pieces that the tokenizer meets. */
  lemma TripleBraces(name: JString)
    ensures var t, p := InTripleBraces(name), 3 + |name|;
            && |t| == p + 3 && t[2] == 123
            && t[2..] == [123] + (name + [125, 125, 125]) && t[3..] == name + [125, 125, 125]
            && t[p..] == [125, 125, 125] && t[3..p] == name && t[p + 1..] == [125, 125]
  {
  }

  lemma BraceHere(rest: JString)
    ensures Here(Sigil, [123] + rest) == 1
  {
  }

  lemma BlankHere(s: JString)
    requires s != [] && !White(s[0])
    ensures Here(Blank, s) == 0
  {
    hide White;
  }

  lemma CloseHere()
    ensures Here(Closing([125]), [125, 125, 125]) == 1
    ensures Until(Closing([125, 125]), [125, 125]) == 0 && Here(Closing([125, 125]), [125, 125]) == 2
  {
    assert [125, 125, 125][..1] == [125];
    BraceMatches([125, 125, 125], [125]);
    assert [125, 125][..2] == [125, 125];
    BraceMatches([125, 125], [125, 125]);
    hide Match;
  }

  lemma OneTag(t: JString, kind: Kind, name: JString, rest: JString)
    requires t == [123, 123] + rest && rest != [] && !White(rest[0]) && kind in {Name, Unescaped}
    requires ReadTag(t, 2, Tags([123, 123], [125, 125])) == Ok(TagRead(kind, name, |t|))
    ensures Parse(t, DEFAULT_TAGS) == Ok([Leaf(Token(kind, name, 0, |t|))])
  {
    hide White, Until, Here, Match, ReadTag, Strip, Squash, Nest;
    var tags, token := Tags([123, 123], [125, 125]), Token(kind, name, 0, |t|);
    DefaultTags();
    OpeningMatches(rest);
    assert t[0..] == t;
    assert Characters(t, 0, 0) + [token] == [token];
    assert OneRound(t, 0, tags) == Go([token], |t|, tags);
    assert Raw(t, |t|, tags) == Ok([]);
    assert [token] + [] == [token];
    OneTokenTree(token);
  }

  lemma OneTokenTree(t: Token)
    requires t.kind in {Name, Unescaped}
    ensures Nest(Squash(Strip([t]))) == Ok([Leaf(t)])
  {
    hide Nest, Emit, EmitNode, Bare, Proper, Strip, Squash;
    StripShort([t]);
    OneTokenSquashed(t);
    OneTokenEmitted(t);
    NestIffEmit([t], [Leaf(t)]);
  }

  lemma OneTokenSquashed(t: Token)
    requires t.kind in {Name, Unescaped}
    ensures Squash([t]) == [t]
  {
    assert [t][..0] == [] && Squash([]) == [];
  }

  lemma OneTokenEmitted(t: Token)
    requires t.kind in {Name, Unescaped}
    ensures Emit([Leaf(t)]) == Bare([t]) && Proper([Leaf(t)])
  {
    var tree := [Leaf(t)];
    assert tree[..0] == [] && Emit([]) == [] && Emit(tree) == [] + EmitNode(tree[0]);
  }

  lemma OneLeafRenders(env: Env, t: Token, view: JsValue)
    requires t.kind in {Name, Unescaped}
    ensures RenderAll(env, [Leaf(t)], [view]) == TagText(env, t.kind, t.value, [view])
  {
    hide TagText;
    var tree := [Leaf(t)];
    assert tree[..0] == [];
    JoinAssociates(Ok([]), TagText(env, t.kind, t.value, [view]), Ok([]));
  }

  /**
   * Two templates, for every name, view and environment: `{{name}}` renders a text without < > " ' /, and `{{{name}}}`
   * renders what that text stands for; where one of them fails so does the other.
   */
  lemma PlainAndTripleBraces(env: Env, name: JString, view: JsValue)
    requires PlainName(name)
    ensures var plain, raw := Rendered(env, InBraces(name), view), Rendered(env, InTripleBraces(name), view);
            if plain.Output? then
              && raw == Output(UnescapeHtml(plain.text))
              && forall c :: c in {60, 62, 34, 39, 47} ==> c !in plain.text
            else plain.RenderFailed? && raw == plain
  {
    hide White, ReadTag, Parse, TagText, RenderAll, UnescapeHtml;
    var t, u := InBraces(name), InTripleBraces(name);
    PlainTagRead(name);
    TripleTagRead(name);
    assert t == [123, 123] + (name + [125, 125]) && u == [123, 123] + ([123] + name + [125, 125, 125]);
    BraceIsNoBlank();
    OneTag(t, Name, name, name + [125, 125]);
    OneTag(u, Unescaped, name, [123] + name + [125, 125, 125]);
    OneLeafRenders(env, Token(Name, name, 0, |t|), view);
    OneLeafRenders(env, Token(Unescaped, name, 0, |u|), view);
    PlainTagsAreEscaped(env, name, [view]);
  }

  lemma BraceIsNoBlank()
    ensures !White(123)
  {
  }
}
