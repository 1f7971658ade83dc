/** mustache.js: what the tokens of `parse` have to do with the template, and what a parsed template renders. */
module MustacheMeaning {
  import opened Common
  import opened JavaText
  import opened MustacheTokens
  import opened MustacheRender
  import opened MustacheScanner
  import opened MustacheLines
  import opened MustacheParse

  // ---- the tokens cover the template --------------------------------------------------------------------------------

  /** The tokens follow each other without gap or overlap from position a to position b. */
  predicate Tiles(ts: seq<Token>, a: nat, b: nat) {
    if ts == [] then a == b
    else ts[0].start == a && a < ts[0].end <= b && Tiles(ts[1..], ts[0].end, b)
  }

  predicate IsSigil(sigil: JString) {
    sigil == [] || (|sigil| == 1 && sigil[0] in SIGILS)
  }

  /** Which sigil stands for which kind of tag: # ^ / > = ! and { or &; a plain tag has none. */
  predicate Marks(sigil: JString, kind: Kind) {
    match kind
    case Section => sigil == [35]
    case Inverted => sigil == [94]
    case Close => sigil == [47]
    case Partial => sigil == [62]
    case SetTags => sigil == [61]
    case Comment => sigil == [33]
    case Unescaped => sigil == [123] || sigil == [38]
    case Name => sigil == []
    case Literal => false
  }

  lemma SigilMarks(sigil: JString)
    requires IsSigil(sigil)
    ensures Marks(sigil, KindOf(Sign(sigil)))
  {
  }

  function Sign(sigil: JString): Option<Unit> {
    if sigil == [] then None else Some(sigil[0])
  }

  /** A tag as it is written: both tags in force around sigil and value, white space in between. */
  ghost predicate Spelt(text: JString, t: Token, tags: Tags) {
    exists a, sigil, b, c :: SpeltAs(text, t, tags, a, sigil, b, c)
  }

  predicate SpeltAs(text: JString, t: Token, tags: Tags, a: JString, sigil: JString, b: JString, c: JString) {
    && text == tags.open + a + sigil + b + t.value + c + tags.close
    && AllWhite(a) && AllWhite(b) && IsSigil(sigil) && Marks(sigil, t.kind)
    && (sigil != [EQUALS] && sigil != [BRACE] ==> AllWhite(c))
  }

  /** Every token stands in the template where it says; no opening tag in force begins at a text token. */
  ghost predicate Written(template: JString, ts: seq<Token>, tags: Tags) {
    ts == [] ||
    var t := ts[0];
    && t.start < t.end <= |template|
    && if t.kind == Literal then
         && t.end == t.start + 1 && t.value == [template[t.start]] && !StartsWith(template[t.start..], tags.open)
         && Written(template, ts[1..], tags)
       else
         && Spelt(template[t.start..t.end], t, tags)
         && (t.kind == SetTags ==> |SplitBlank(t.value)| == 2)
         && Written(template, ts[1..], NextTags(t.kind, t.value, tags))
  }

  // ---- white space at the ends of a value ---------------------------------------------------------------------------

  predicate Trimmed(s: JString) {
    s != [] ==> !White(s[0]) && !White(s[|s| - 1])
  }

  /** A value without white space at its ends splits into parts that are not empty, unless it is empty itself. */
  lemma {:induction false} SplitTrimmed(s: JString)
    requires s != [] && !White(s[|s| - 1])
    ensures !White(s[0]) ==> forall i :: 0 <= i < |SplitBlank(s)| ==> SplitBlank(s)[i] != []
    decreases |s|
  {
    hide White, Blanks;
    var i := FirstBlank(s);
    if i < |s| && !White(s[0]) {
      var n := Blanks(s[i..]);
      var rest := s[i..][n..];
      assert White(s[i..][0]);
      assert s[i..][|s| - 1 - i] == s[|s| - 1];
      BlanksStop(s[i..]);
      assert rest[|rest| - 1] == s[|s| - 1] && !White(rest[0]);
      SplitTrimmed(rest);
    }
  }

  lemma BlanksStop(s: JString)
    requires s != [] && !White(s[|s| - 1])
    ensures Blanks(s) < |s|
  {
    hide White;
    var n := Blanks(s);
    forall i | 0 <= i < n ensures White(s[i]) {
      assert s[..n][i] == s[i];
    }
  }

  /** Blanks in front of a match belong to it, so what is skipped before it does not end in white space. */
  lemma UntilTrims(tag: JString, s: JString)
    ensures var n := Until(Closing(tag), s); 0 < n < |s| ==> !White(s[n - 1])
  {
    hide White, Match;
    var n := Until(Closing(tag), s);
    if 0 < n < |s| {
      assert Match(Closing(tag), s[n - 1..]).None?;
      BlankBefore(tag, s, n);
    }
  }

  lemma BlankBefore(tag: JString, s: JString, n: nat)
    requires 0 < n <= |s| && Match(Closing(tag), s[n..]).Some?
    ensures White(s[n - 1]) ==> Match(Closing(tag), s[n - 1..]).Some?
  {
    hide White, StartsWith;
    if White(s[n - 1]) {
      var k := Backtrack(s[n..], tag, Blanks(s[n..])).value;
      BlanksMore(s, n);
      assert s[n - 1..][k + 1..] == s[n..][k..];
    }
  }

  lemma BlanksMore(s: JString, n: nat)
    requires 0 < n <= |s| && White(s[n - 1])
    ensures Blanks(s[n - 1..]) == 1 + Blanks(s[n..])
  {
    assert s[n - 1..][1..] == s[n..];
  }

  // ---- a tag is read as it is written -------------------------------------------------------------------------------

  /** What a match of `\s*tag` at position p looks like. */
  lemma ClosingIsSpelt(template: JString, p: nat, tag: JString) returns (k: nat)
    requires p <= |template| && HereAt(Closing(tag), template, p) > 0
    ensures HereAt(Closing(tag), template, p) == k + |tag|
    ensures p + k + |tag| <= |template| && AllWhite(template[p..p + k]) && template[p + k..p + k + |tag|] == tag
  {
    hide White;
    var s := template[p..];
    k := Backtrack(s, tag, Blanks(s)).value;
    assert s[k..][..|tag|] == tag;
    SliceAfter(template, p, k);
    SliceAfter(template, p + k, |tag|);
    assert AllWhite(s[..k]) by {
      assert forall i :: 0 <= i < k ==> s[..Blanks(s)][i] == s[i];
    }
  }

  lemma BlankIsWhite(template: JString, p: nat)
    requires p <= |template|
    ensures var n := HereAt(Blank, template, p);
            p + n <= |template| && AllWhite(template[p..p + n]) && (p + n < |template| ==> !White(template[p + n]))
  {
    hide White;
    var n := HereAt(Blank, template, p);
    SliceAfter(template, p, n);
    if p + n < |template| {
      assert template[p..][n] == template[p + n];
    }
  }

  lemma SigilIsRead(template: JString, p: nat)
    requires p <= |template|
    ensures var n := HereAt(Sigil, template, p);
            p + n <= |template| && IsSigil(template[p..p + n])
            && Sign(template[p..p + n]) == if n > 0 then Some(template[p]) else None
  {
    var n := HereAt(Sigil, template, p);
    SliceAfter(template, p, n);
  }

  /** An opening match: the tag and white space. */
  lemma OpeningIsSpelt(template: JString, p: nat, tag: JString)
    requires p <= |template| && HereAt(Opening(tag), template, p) > 0
    ensures var n := HereAt(Opening(tag), template, p);
            && |tag| <= n && p + n <= |template| && template[p..p + |tag|] == tag
            && AllWhite(template[p + |tag|..p + n])
  {
    hide White;
    var s, n := template[p..], HereAt(Opening(tag), template, p);
    SliceAfter(template, p, |tag|);
    SliceAfter(template, p + |tag|, n - |tag|);
  }

  /** The seven parts of a tag are what stands between their positions. */
  lemma Cut(s: JString, a: nat, b: nat, c: nat, d: nat, e: nat, f: nat, g: nat, h: nat)
    requires a <= b <= c <= d <= e <= f <= g <= h <= |s|
    ensures s[a..h] == s[a..b] + s[b..c] + s[c..d] + s[d..e] + s[e..f] + s[f..g] + s[g..h]
  {
    CutOnce(s, a, b, c);
    CutOnce(s, a, c, d);
    CutOnce(s, a, d, e);
    CutOnce(s, a, e, f);
    CutOnce(s, a, f, g);
    CutOnce(s, a, g, h);
  }

  lemma CutOnce(s: JString, a: nat, b: nat, c: nat)
    requires a <= b <= c <= |s|
    ensures s[a..c] == s[a..b] + s[b..c]
  {
  }

  lemma Assemble(s: JString, a: nat, b: nat, c: nat, d: nat, e: nat, f: nat, g: nat, h: nat, kind: Kind, tags: Tags)
    requires a <= b <= c <= d <= e <= f <= g <= h <= |s|
    requires s[a..b] == tags.open && s[g..h] == tags.close
    requires AllWhite(s[b..c]) && IsSigil(s[c..d]) && AllWhite(s[d..e]) && kind == KindOf(Sign(s[c..d]))
    requires s[c..d] != [EQUALS] && s[c..d] != [BRACE] ==> AllWhite(s[f..g])
    ensures Spelt(s[a..h], Token(kind, s[e..f], a, h), tags)
  {
    SigilMarks(s[c..d]);
    hide AllWhite, IsSigil, KindOf, Marks;
    Cut(s, a, b, c, d, e, f, g, h);
    assert SpeltAs(s[a..h], Token(kind, s[e..f], a, h), tags, s[b..c], s[c..d], s[d..e], s[f..g]);
  }

  /** ReadTag takes the tag apart as it is written; a value that sets new tags has no white space at its ends. */
  lemma TagIsSpelt(template: JString, p: nat, tags: Tags)
    requires p <= |template|
    requires var n := HereAt(Opening(tags.open), template, p); n > 0 && ReadTag(template, p + n, tags).Ok?
    ensures var TagRead(kind, value, end) := ReadTag(template, p + HereAt(Opening(tags.open), template, p), tags).value;
            && Spelt(template[p..end], Token(kind, value, p, end), tags)
            && (kind == SetTags ==> Trimmed(value))
  {
    hide HereAt, UntilAt, White, KindOf, AllWhite, Spelt, IsSigil, Trimmed, SpeltAs;
    var n := HereAt(Opening(tags.open), template, p);
    OpeningIsSpelt(template, p, tags.open);
    var start := p + n;
    SigilIsRead(template, start);
    var p1 := start + HereAt(Sigil, template, start);
    var sigil := template[start..p1];
    BlankIsWhite(template, p1);
    var p2 := p1 + HereAt(Blank, template, p1);
    var p3 := p2 + UntilAt(ValueEnd(Sign(sigil), tags), template, p2);
    var p4 := Behind(Sign(sigil), template, p3, tags);
    var k := ClosingIsSpelt(template, p4, tags.close);
    var TagRead(kind, value, end) := ReadTag(template, start, tags).value;
    Assemble(template, p, p + |tags.open|, start, p1, p2, p3, p4 + k, end, kind, tags);
    if kind == SetTags {
      SetTagsSign(Sign(sigil));
      ValueTrims(template, p2, p3);
    }
  }

  lemma SetTagsSign(sigil: Option<Unit>)
    requires KindOf(sigil) == SetTags
    ensures sigil == Some(EQUALS)
  {
  }

  lemma ValueTrims(template: JString, p2: nat, p3: nat)
    requires p2 <= p3 < |template| && p3 == p2 + UntilAt(Closing([EQUALS]), template, p2) && !White(template[p2])
    ensures Trimmed(template[p2..p3])
  {
    hide White, Until, Match;
    UntilTrims([EQUALS], template[p2..]);
    if p2 < p3 {
      LastOfSlice(template, p2, p3);
    }
  }

  lemma LastOfSlice(s: JString, a: nat, b: nat)
    requires a < b <= |s|
    ensures s[a..][b - a - 1] == s[a..b][b - a - 1] == s[b - 1] && s[a..b][0] == s[a] == s[a..][0] && |s[a..b]| == b - a
  {
  }

  // ---- all tokens ---------------------------------------------------------------------------------------------------

  /** Up to the next opening tag there is none. */
  lemma TextIsPlain(template: JString, pos: nat, tag: JString)
    requires pos <= |template|
    ensures forall q :: pos <= q < pos + UntilAt(Opening(tag), template, pos) ==> !StartsWith(template[q..], tag)
  {
    hide White;
    var s := template[pos..];
    forall q | pos <= q < pos + UntilAt(Opening(tag), template, pos) ensures !StartsWith(template[q..], tag) {
      assert Match(Opening(tag), s[q - pos..]).None?;
      SliceAfter(template, pos, q - pos);
    }
  }

  lemma {:induction false} CharactersFit(template: JString, a: nat, b: nat, rest: seq<Token>, tags: Tags, end: nat)
    requires a <= b <= end <= |template| && Tiles(rest, b, end) && Written(template, rest, tags)
    requires forall q :: a <= q < b ==> !StartsWith(template[q..], tags.open)
    ensures Tiles(Characters(template, a, b) + rest, a, end)
            && Written(template, Characters(template, a, b) + rest, tags)
    decreases b - a
  {
    hide StartsWith, Spelt;
    var ts := Characters(template, a, b) + rest;
    if a == b {
      assert ts == rest;
    } else {
      CharactersFit(template, a + 1, b, rest, tags, end);
      assert ts[1..] == Characters(template, a + 1, b) + rest;
      assert ts[0] == Token(Literal, [template[a]], a, a + 1);
    }
  }

  /**
   * When nothing is thrown, the tokens before stripping are the template: they lie side by side from its beginning on,
   * each is what stands there, and no opening tag was overlooked. They end where the template does; an empty opening
   * tag may end them earlier, in front of a character that is not white space.
   */
  lemma {:induction false} RawIsTemplate(template: JString, pos: nat, tags: Tags) returns (end: nat)
    requires pos <= |template| && Raw(template, pos, tags).Ok?
    ensures var ts := Raw(template, pos, tags).value; Tiles(ts, pos, end) && Written(template, ts, tags)
    ensures pos <= end <= |template|
    ensures end < |template| ==> tags.open == [] && !White(template[end])
    decreases |template| - pos
  {
    hide HereAt, UntilAt, StartsWith, Spelt, ReadTag, Characters, SplitBlank, Written, Tiles, NextTags, White;
    end := pos;
    NothingFits(template, tags, pos);
    if pos < |template| {
      var p := pos + UntilAt(Opening(tags.open), template, pos);
      TextIsPlain(template, pos, tags.open);
      var text, n := Characters(template, pos, p), HereAt(Opening(tags.open), template, p);
      if n == 0 {
        end := p;
        NothingFits(template, tags, p);
        StopsAtEnd(template, pos, tags.open);
        assert text + [] == text;
        CharactersFit(template, pos, p, [], tags, p);
      } else {
        TagIsSpelt(template, p, tags);
        var TagRead(kind, value, behind) := ReadTag(template, p + n, tags).value;
        var next := NextTags(kind, value, tags);
        NextIsNotEmpty(kind, value, tags);
        end := RawIsTemplate(template, behind, next);
        TagFits(template, Token(kind, value, p, behind), Raw(template, behind, next).value, tags, end);
        var rest := [Token(kind, value, p, behind)] + Raw(template, behind, next).value;
        CharactersFit(template, pos, p, rest, tags, end);
        assert text + rest == text + [Token(kind, value, p, behind)] + Raw(template, behind, next).value;
      }
    }
  }

  lemma TagFits(template: JString, t: Token, rest: seq<Token>, tags: Tags, end: nat)
    requires t.start < t.end <= |template| && t.kind != Literal && Spelt(template[t.start..t.end], t, tags)
    requires t.kind == SetTags ==> |SplitBlank(t.value)| == 2
    requires Tiles(rest, t.end, end) && Written(template, rest, NextTags(t.kind, t.value, tags))
    ensures Tiles([t] + rest, t.start, end) && Written(template, [t] + rest, tags)
  {
    hide Spelt, SplitBlank, NextTags;
    assert ([t] + rest)[1..] == rest;
  }

  lemma NothingFits(template: JString, tags: Tags, end: nat)
    ensures Tiles([], end, end) && Written(template, [], tags)
  {
  }

  /** Without a tag the reading stops: at the end, or where an empty opening tag finds no white space. */
  lemma StopsAtEnd(template: JString, pos: nat, tag: JString)
    requires pos <= |template|
    requires HereAt(Opening(tag), template, pos + UntilAt(Opening(tag), template, pos)) == 0
    ensures var p := pos + UntilAt(Opening(tag), template, pos);
            p < |template| ==> tag == [] && !White(template[p])
  {
    hide White;
    var n := UntilAt(Opening(tag), template, pos);
    SliceAfter(template, pos, n);
    if tag == [] && pos + n < |template| {
      assert template[pos + n..][0..] == template[pos + n..];
      assert template[pos + n..][0] == template[pos + n];
    }
  }

  lemma EmptyIsOnePart()
    ensures SplitBlank([]) == [[]]
  {
  }

  /** Tags that a template sets are not empty, neither the opening nor the closing one. */
  lemma NextIsNotEmpty(kind: Kind, value: JString, tags: Tags)
    requires kind == SetTags ==> Trimmed(value) && |SplitBlank(value)| == 2
    ensures var next := NextTags(kind, value, tags);
            if kind == SetTags then next.open != [] && next.close != [] else next == tags
  {
    if kind == SetTags {
      EmptyIsOnePart();
      SplitTrimmed(value);
    }
  }

  /** After every round the tags are those from before, or two that are not empty. */
  lemma NewTagsAreNotEmpty(template: JString, pos: nat, tags: Tags)
    requires pos <= |template| && OneRound(template, pos, tags).Go?
    ensures var next := OneRound(template, pos, tags).next;
            next == tags || (next.open != [] && next.close != [])
  {
    hide HereAt, UntilAt, Spelt, ReadTag, Characters, SplitBlank, NextTags, Trimmed;
    var p := pos + UntilAt(Opening(tags.open), template, pos);
    TagIsSpelt(template, p, tags);
    var tag := ReadTag(template, p + HereAt(Opening(tags.open), template, p), tags).value;
    NextIsNotEmpty(tag.kind, tag.value, tags);
  }

  // ---- what is rendered ---------------------------------------------------------------------------------------------

  /** A parsed template renders what a direct reading of its tokens gives, standalone lines stripped. */
  lemma ParseKeepsMeaning(env: Env, template: JString, tags: Tags, tree: seq<Node>, chain: seq<JsValue>)
    requires Parse(template, [tags.open, tags.close]) == Ok(tree) && chain != []
    ensures Raw(template, 0, tags).Ok?
    ensures RenderAll(env, tree, chain) == Interpret(env, Pieces(Strip(Raw(template, 0, tags).value)), chain)
  {
    hide Raw, Strip, Squash, Nest, RenderAll, Interpret, Pieces;
    assert tags == Tags([tags.open, tags.close][0], [tags.open, tags.close][1]);
    CompilationKeepsMeaning(env, Strip(Raw(template, 0, tags).value), tree, chain);
  }

  /** Text in which the opening tag does not occur is rendered as it stands, with any tags and on any views. */
  lemma PlainTextIsKept(env: Env, template: JString, tags: Tags, chain: seq<JsValue>)
    requires tags.open != [] && chain != []
    requires forall q :: 0 <= q < |template| ==> !StartsWith(template[q..], tags.open)
    ensures var r := Parse(template, [tags.open, tags.close]); r.Ok? && RenderAll(env, r.value, chain) == Ok(template)
  {
    hide Raw, Strip, Squash, RenderAll, Interpret, Pieces, Nest, StartsWith;
    var raw := Characters(template, 0, |template|);
    PlainRaw(template, tags);
    NoTagsNothingStripped(raw);
    SquashedText(raw);
    assert tags == Tags([tags.open, tags.close][0], [tags.open, tags.close][1]);
    var tree := if raw == [] then [] else [Leaf(Squash(raw)[0])];
    OneLeaf(Squash(raw), tree);
    ParseKeepsMeaning(env, template, tags, tree, chain);
    PiecesOfText(template, |template|);
    assert template[..|template|] == template;
    InterpretChars(env, template, [], chain);
    assert Chars(template) + [] == Chars(template);
    InterpretNothing(env, chain);
    JoinAssociates(Ok([]), Ok(template), Ok([]));
  }

  lemma UntilFinds(template: JString, tag: JString)
    ensures var n := UntilAt(Opening(tag), template, 0); n < |template| ==> StartsWith(template[n..], tag)
  {
    assert template[0..] == template;
  }

  lemma PlainRaw(template: JString, tags: Tags)
    requires tags.open != [] && forall q :: 0 <= q < |template| ==> !StartsWith(template[q..], tags.open)
    ensures Raw(template, 0, tags) == Ok(Characters(template, 0, |template|))
  {
    hide White, ReadTag;
    if template != [] {
      var n := UntilAt(Opening(tags.open), template, 0);
      assert template[0..] == template;
      UntilFinds(template, tags.open);
      assert template[n..] == [];
    } else {
      assert Characters(template, 0, 0) == [];
    }
  }

  lemma {:induction false} NoTagsNothingStripped(ts: seq<Token>)
    requires forall i :: 0 <= i < |ts| ==> ts[i].kind == Literal
    ensures Strip(ts) == ts
    decreases |ts|
  {
    hide Break, LineEnd, CleanLine;
    var n := LineEnd(ts);
    if !(n == 0 || !Break(ts[n - 1])) {
      NoTagsNotCleaned(ts[..n]);
      NoTagsNothingStripped(ts[n..]);
      assert ts[..n] + ts[n..] == ts;
    }
  }

  lemma NoTagsNotCleaned(line: seq<Token>)
    requires forall i :: 0 <= i < |line| ==> line[i].kind == Literal
    ensures CleanLine(line) == line
  {
    hide Ink;
    assert !Standalone(line);
  }

  lemma {:induction false} SquashedText(ts: seq<Token>)
    requires forall i :: 0 <= i < |ts| ==> ts[i].kind == Literal
    ensures |Squash(ts)| == if ts == [] then 0 else 1
    ensures ts != [] ==> Squash(ts)[0].kind == Literal
  {
    if ts != [] {
      SquashedText(ts[..|ts| - 1]);
    }
  }

  lemma OneLeaf(ts: seq<Token>, tree: seq<Node>)
    requires |ts| <= 1 && (ts != [] ==> ts[0].kind == Literal)
    requires tree == if ts == [] then [] else [Leaf(ts[0])]
    ensures Nest(ts) == Ok(tree)
  {
    if ts != [] {
      assert tree[..0] == [] && Emit([]) == [] && Emit(tree) == [] + EmitNode(tree[0]);
    }
    assert Emit(tree) == Bare(ts);
    NestIffEmit(ts, tree);
  }

  lemma {:induction false} PiecesOfText(template: JString, n: nat)
    requires n <= |template|
    ensures Pieces(Characters(template, 0, n)) == Chars(template[..n])
  {
    var ts := Characters(template, 0, n);
    if n > 0 {
      assert ts[..n - 1] == Characters(template, 0, n - 1);
      PiecesOfText(template, n - 1);
      assert Chars(template[..n]) == Chars(template[..n - 1]) + Chars([template[n - 1]]);
    }
  }
}
