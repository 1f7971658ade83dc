/** json2.js: what the output looks like, character by character, and which parts of a value are in it. */
module JsonLayout {
  import opened Common
  import opened JavaText
  import opened JsonRoundTrip
  import opened JsonStringify
  import opened JsonText

  // ---- strings ------------------------------------------------------------------------------------------------------

  /**
   * Control characters and those that Unicode gives no appearance of their own, as the regular expression lists them:
   * a reader of JavaScript may delete them or take them for line ends.
   */
  predicate Invisible(c: Unit) {
    || 0 <= c <= 31 || 127 <= c <= 159 || c in {173, 1807, 6068, 6069, 65279} || 1536 <= c <= 1540
    || 8204 <= c <= 8207 || 8232 <= c <= 8239 || 8288 <= c <= 8303 || 65520 <= c <= 65535
  }

  predicate LowerHex(c: Unit) {
    48 <= c <= 57 || 97 <= c <= 102
  }

  /** The letter behind the backslash, for those characters that have one. */
  const LETTER_OF: map<Unit, Unit> := map[8 := 98, 9 := 116, 10 := 110, 12 := 102, 13 := 114, 34 := 34, 92 := 92]

  /** Seven characters are escaped by a letter, the other invisible ones by four digits; no other is escaped. */
  lemma EscapesAsListed(c: Unit)
    ensures c in LETTER_OF ==> Escape(c) == [92, LETTER_OF[c]]
    ensures c !in LETTER_OF && Invisible(c) ==>
              && |Escape(c)| == 6 && Escape(c)[0] == 92 && Escape(c)[1] == 117
              && forall i :: 2 <= i < 6 ==> LowerHex(Escape(c)[i])
    ensures c !in LETTER_OF && !Invisible(c) ==> Escape(c) == [c]
  {
    if c in LETTER_OF {
      ShortEscapes(c);
    } else if Invisible(c) {
      hide LastFour, ToHex;
      HexDigits(c);
      FourLowerDigits(c);
    }
  }

  lemma ShortEscapes(c: Unit)
    requires c in LETTER_OF
    ensures Escape(c) == [92, LETTER_OF[c]]
  {
    assert c in {8, 9, 10, 12, 13, 34, 92};
  }

  lemma FourLowerDigits(c: Unit)
    ensures forall i :: 0 <= i < 4 ==> LowerHex(LastFour(ToHex(c))[i])
  {
    hide LastFour, ToHex;
    HexDigits(c);
  }

  /** No string, whatever is in it, brings one of those characters into the output. */
  lemma {:induction false} QuotedIsVisible(s: JString)
    ensures forall i :: 0 <= i < |Quote(s)| ==> !Invisible(Quote(s)[i])
  {
    hide Quote, EscapeAll, Invisible;
    QuoteIsEscaped(s);
    EscapedIsVisible(s);
    assert !Invisible(34) by {
      PlainCharacters();
    }
  }

  lemma {:induction false} EscapedIsVisible(s: JString)
    ensures forall i :: 0 <= i < |EscapeAll(s)| ==> !Invisible(EscapeAll(s)[i])
  {
    hide Escape, Invisible;
    if s != [] {
      EscapedIsVisible(s[1..]);
      OneIsVisible(s[0]);
    }
  }

  lemma OneIsVisible(c: Unit)
    ensures forall i :: 0 <= i < |Escape(c)| ==> !Invisible(Escape(c)[i])
  {
    hide Escape;
    EscapesAsListed(c);
  }

  lemma PlainCharacters()
    ensures !Invisible(34)
  {
  }

  /** A text without such characters, quotation marks and backslashes stands in the output as it is. */
  lemma PlainIsKept(s: JString)
    requires forall i :: 0 <= i < |s| ==> !Invisible(s[i]) && s[i] !in {34, 92}
    ensures Quote(s) == [34] + s + [34]
  {
    forall i | 0 <= i < |s| ensures !Escapable(s[i]) {
    }
  }

  // ---- which parts of a value are in the output ---------------------------------------------------------------------

  /** Read back, an array has as many items as before: null where there was no value, or a number that is not finite. */
  lemma {:induction false} ItemsReadBack(items: seq<Value>)
    ensures Norm(Array(items)).Some? && Norm(Array(items)).value.JArray?
    ensures var xs := Norm(Array(items)).value.items;
            && |xs| == |items|
            && forall i :: 0 <= i < |items| ==>
                 match items[i]
                 case Undefined => xs[i] == JNull
                 case Function => xs[i] == JNull
                 case Null => xs[i] == JNull
                 case Boolean(b) => xs[i] == JBool(b)
                 case Number(text, finite) => xs[i] == if finite then JNumber(text) else JNull
                 case Str(text) => xs[i] == JString_(text)
                 case Array(_) => Norm(items[i]) == Some(xs[i])
                 case Object(_) => Norm(items[i]) == Some(xs[i])
  {
    EachReadBack(items);
    hide NormItems;
  }

  lemma {:induction false} EachReadBack(items: seq<Value>)
    ensures forall i :: 0 <= i < |items| ==>
              NormItems(items)[i] == if Norm(items[i]).Some? then Norm(items[i]).value else JNull
  {
    hide Norm;
    if items != [] {
      EachReadBack(items[..|items| - 1]);
    }
  }

  /** Read back, an object has the members it had, in order, but for those whose value is undefined or a function. */
  lemma {:induction false} MembersReadBack(members: seq<Member>, m: Member)
    ensures Norm(Object([])) == Some(JObject([]))
    ensures var before, after := Norm(Object(members)), Norm(Object(members + [m]));
            && before.Some? && before.value.JObject? && after.Some? && after.value.JObject?
            && if m.value.Undefined? || m.value.Function? then after == before
               else Norm(m.value).Some?
                    && after.value.members == before.value.members + [(m.name, Norm(m.value).value)]
  {
    assert (members + [m])[..|members|] == members;
    assert NormMembers(members) + [] == NormMembers(members);
  }

  /** The words in lower case, however deep; a number that is not finite is null, any other as String() writes it. */
  lemma WordsAsListed(b: bool, text: JString, gap: JString, indent: JString)
    ensures Stringify(Null, gap, indent) == Stringify(Number(text, false), gap, indent) == Some([110, 117, 108, 108])
    ensures Stringify(Boolean(b), gap, indent)
         == Some(if b then [116, 114, 117, 101] else [102, 97, 108, 115, 101])
    ensures Stringify(Number(text, true), gap, indent) == Some(text)
    ensures Stringify(Undefined, gap, indent) == Stringify(Function, gap, indent) == None
  {
  }

  // ---- lines --------------------------------------------------------------------------------------------------------

  function Times(indent: JString, d: nat): (s: JString)
    ensures indent == [] || d == 0 <==> s == []
  {
    if d == 0 then [] else Times(indent, d - 1) + indent
  }

  /** A third argument that is a number: at depth d a line begins with d times as many blanks. */
  lemma {:induction false} BlanksAtDepth(n: int, d: nat)
    ensures |Times(IndentOf(Count(n)), d)| == (if n > 0 then n else 0) * d
    ensures forall i :: 0 <= i < |Times(IndentOf(Count(n)), d)| ==> Times(IndentOf(Count(n)), d)[i] == 32
  {
    if d > 0 {
      BlanksAtDepth(n, d - 1);
    }
  }

  /** Each text on a line of its own behind the margin, commas at the line ends. */
  function Lines(texts: seq<JString>, margin: JString): JString {
    if texts == [] then []
    else [10] + margin + texts[0] + (if |texts| == 1 then [] else [44] + Lines(texts[1..], margin))
  }

  function InARow(texts: seq<JString>): JString {
    if texts == [] then [] else texts[0] + if |texts| == 1 then [] else [44] + InARow(texts[1..])
  }

  /**
   * The texts between two brackets, `d` levels deep: in a row where nothing is indented, and otherwise each on its own
   * line one level deeper, the closing bracket on a line of its own level.
   */
  function Laid(open: Unit, texts: seq<JString>, close: Unit, indent: JString, d: nat): JString {
    if texts == [] then [open, close]
    else if indent == [] then [open] + InARow(texts) + [close]
    else [open] + Lines(texts, Times(indent, d + 1)) + [10] + Times(indent, d) + [close]
  }

  lemma WrapIsLaid(open: Unit, texts: seq<JString>, close: Unit, indent: JString, d: nat)
    ensures Wrap(open, texts, Times(indent, d) + indent, Times(indent, d), close) == Laid(open, texts, close, indent, d)
  {
    hide JoinBy, Lines, InARow;
    if texts != [] {
      var gap := Times(indent, d + 1);
      JoinIsInARow(texts);
      JoinIsLines(texts, gap);
      assert [44] + [10] + gap == [44] + NEWLINE + gap;
      ThreeMore([open], [10], gap, JoinBy(texts, [44] + [10] + gap));
    }
  }

  lemma ThreeMore(a: JString, b: JString, c: JString, d: JString)
    ensures a + b + c + d == a + (b + c + d)
  {
  }

  lemma {:induction false} JoinIsInARow(texts: seq<JString>)
    requires texts != []
    ensures JoinBy(texts, [44]) == InARow(texts)
    decreases |texts|
  {
    if |texts| > 1 {
      JoinIsInARow(texts[1..]);
      JoinFront(texts, [44]);
      hide JoinBy;
      assert texts[0] + [44] + InARow(texts[1..]) == texts[0] + ([44] + InARow(texts[1..]));
    }
  }

  lemma {:induction false} JoinIsLines(texts: seq<JString>, margin: JString)
    requires texts != []
    ensures [10] + margin + JoinBy(texts, [44] + [10] + margin) == Lines(texts, margin)
    decreases |texts|
  {
    if |texts| == 1 {
      assert [10] + margin + texts[0] + [] == [10] + margin + texts[0];
    } else {
      JoinIsLines(texts[1..], margin);
      JoinFront(texts, [44] + [10] + margin);
      hide JoinBy;
      MarginMoves([10] + margin, texts[0], [10], margin, JoinBy(texts[1..], [44] + [10] + margin));
    }
  }

  lemma MarginMoves(lead: JString, text: JString, newline: JString, margin: JString, rest: JString)
    ensures lead + (text + ([44] + newline + margin) + rest) == lead + text + ([44] + (newline + margin + rest))
  {
  }

  /** The text that stands for an item of an array. */
  function ItemText(text: Option<JString>): JString {
    if text.Some? && text.value != [] then text.value else [110, 117, 108, 108]
  }

  /** An array, `d` levels deep, has its items between brackets, those that have no text as null. */
  lemma {:induction false} ArrayLayout(items: seq<Value>, indent: JString, d: nat, texts: seq<JString>)
    requires |texts| == |items|
    requires forall i :: 0 <= i < |items| ==> texts[i] == ItemText(Stringify(items[i], Times(indent, d + 1), indent))
    ensures Stringify(Array(items), Times(indent, d), indent) == Some(Laid(91, texts, 93, indent, d))
  {
    hide Wrap, Laid, Elements, ItemText;
    ItemTexts(items, indent, d, texts);
    WrapIsLaid(91, texts, 93, indent, d);
  }

  lemma {:induction false} ItemTexts(items: seq<Value>, indent: JString, d: nat, texts: seq<JString>)
    requires |texts| == |items|
    requires forall i :: 0 <= i < |items| ==> texts[i] == ItemText(Stringify(items[i], Times(indent, d + 1), indent))
    ensures Elements(items, Times(indent, d) + indent, indent) == texts
    decreases |items|
  {
    hide Stringify;
    if items != [] {
      ItemTexts(items[..|items| - 1], indent, d, texts[..|items| - 1]);
      assert texts == texts[..|items| - 1] + [texts[|items| - 1]];
    }
  }

  /** Name and value of each member that has a text, with a blank behind the colon where there is an indentation. */
  function Pairs(members: seq<Member>, indent: JString, d: nat): seq<JString> {
    if members == [] then []
    else
      var text := Stringify(members[0].value, Times(indent, d + 1), indent);
      (if text.None? || text.value == [] then []
       else [Quote(members[0].name) + (if indent == [] then [58] else [58, 32]) + text.value])
      + Pairs(members[1..], indent, d)
  }

  /** An object, `d` levels deep, has those between braces. */
  lemma {:induction false} ObjectLayout(members: seq<Member>, indent: JString, d: nat)
    ensures Stringify(Object(members), Times(indent, d), indent)
         == Some(Laid(123, Pairs(members, indent, d), 125, indent, d))
  {
    hide Wrap, Laid, Members, Pairs;
    MembersArePairs(members, indent, d);
    WrapIsLaid(123, Pairs(members, indent, d), 125, indent, d);
  }

  lemma {:induction false} MembersArePairs(members: seq<Member>, indent: JString, d: nat)
    ensures Members(members, Times(indent, d) + indent, indent) == Pairs(members, indent, d)
    decreases |members|
  {
    hide Stringify, Quote;
    if members != [] {
      var init, last := members[..|members| - 1], members[|members| - 1];
      MembersArePairs(init, indent, d);
      PairsSnoc(init, last, indent, d);
      assert members == init + [last];
    }
  }

  lemma {:induction false} PairsSnoc(members: seq<Member>, m: Member, indent: JString, d: nat)
    ensures Pairs(members + [m], indent, d) == Pairs(members, indent, d) + Pairs([m], indent, d)
    decreases |members|
  {
    hide Stringify, Quote;
    if members != [] {
      assert (members + [m])[1..] == members[1..] + [m];
      PairsSnoc(members[1..], m, indent, d);
    } else {
      assert members + [m] == [m];
    }
  }
}
