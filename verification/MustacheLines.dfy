/** mustache.js: the removal of standalone lines, by line in `Strip`, and by index lists in the way `parse` does it. */
module MustacheLines {
  import opened JavaText
  import opened MustacheTokens
  import opened MustacheScanner

  const NEWLINE: Unit := 10

  /** Text tokens hold one character each until squashTokens. */
  predicate Small(ts: seq<Token>) {
    forall i :: 0 <= i < |ts| && ts[i].kind == Literal ==> |ts[i].value| == 1
  }

  predicate Break(t: Token) {
    t.kind == Literal && t.value == [NEWLINE]
  }

  predicate Space(t: Token) {
    t.kind == Literal && AllWhite(t.value)
  }

  /** Something that keeps a line from standing alone: other text, or a tag that is replaced by a value. */
  predicate Ink(t: Token) {
    if t.kind == Literal then !AllWhite(t.value) else t.kind == Name || t.kind == Unescaped
  }

  /** A line with a tag and with nothing but white space and tags that print nothing of their own. */
  predicate Standalone(line: seq<Token>) {
    (exists i :: 0 <= i < |line| && line[i].kind != Literal) && forall i :: 0 <= i < |line| ==> !Ink(line[i])
  }

  function TagsOnly(line: seq<Token>): seq<Token> {
    if line == [] then []
    else TagsOnly(line[..|line| - 1]) + if line[|line| - 1].kind == Literal then [] else [line[|line| - 1]]
  }

  function CleanLine(line: seq<Token>): seq<Token> {
    if Standalone(line) then TagsOnly(line) else line
  }

  /** The length of the first line with its line break; the length of the text if it has no break. */
  function LineEnd(ts: seq<Token>): (n: nat)
    ensures n <= |ts| && (ts != [] ==> n > 0)
    ensures forall i :: 0 <= i < n - 1 ==> !Break(ts[i])
    ensures n < |ts| ==> Break(ts[n - 1])
  {
    if ts == [] then 0 else if Break(ts[0]) then 1 else 1 + LineEnd(ts[1..])
  }

  /**
   * What is left of the tokens: every line that a line break ends is cleaned; a last line without one stays as it is.
   */
  function Strip(ts: seq<Token>): seq<Token>
    decreases |ts|
  {
    var n := LineEnd(ts);
    if n == 0 || !Break(ts[n - 1]) then ts else CleanLine(ts[..n]) + Strip(ts[n..])
  }

  predicate NoBreak(ts: seq<Token>) {
    forall i :: 0 <= i < |ts| ==> !Break(ts[i])
  }

  /** A line: one break, at the end. */
  predicate Line(ts: seq<Token>) {
    |ts| > 0 && Break(ts[|ts| - 1]) && NoBreak(ts[..|ts| - 1])
  }

  predicate Complete(ts: seq<Token>) {
    ts == [] || Break(ts[|ts| - 1])
  }

  lemma LineEndOf(line: seq<Token>, rest: seq<Token>)
    requires Line(line)
    ensures LineEnd(line + rest) == |line|
  {
    hide Break;
    var ts := line + rest;
    var n := LineEnd(ts);
    forall i | 0 <= i < |line| - 1 ensures !Break(ts[i]) {
      assert line[..|line| - 1][i] == ts[i];
    }
    assert Break(ts[|line| - 1]);
  }

  /** Stripping goes line by line, so what follows a complete part does not change it. */
  lemma {:induction false} StripAfter(done: seq<Token>, rest: seq<Token>)
    requires Complete(done)
    ensures Strip(done + rest) == Strip(done) + Strip(rest)
    decreases |done|
  {
    hide CleanLine, LineEnd, Break;
    if done == [] {
      assert done + rest == rest && Strip(done) == [];
    } else {
      var n := LineEnd(done);
      EndsWithin(done, rest);
      assert Break(done[n - 1]);
      assert (done + rest)[..n] == done[..n] && (done + rest)[n..] == done[n..] + rest;
      StripAfter(done[n..], rest);
    }
  }

  lemma EndsWithin(done: seq<Token>, rest: seq<Token>)
    requires Complete(done) && done != []
    ensures var n := LineEnd(done);
            LineEnd(done + rest) == n && 0 < n && Break(done[n - 1]) && Complete(done[n..])
  {
    hide Break;
    var n := LineEnd(done);
    var line := done[..n];
    assert Line(line);
    assert done + rest == line + (done[n..] + rest);
    LineEndOf(line, done[n..] + rest);
  }

  lemma StripLine(line: seq<Token>)
    requires Line(line)
    ensures Strip(line) == CleanLine(line)
  {
    hide CleanLine, Break, LineEnd;
    LineEndOf(line, []);
    assert line + [] == line && line[..|line|] == line && line[|line|..] == [];
    StripShort([]);
  }

  lemma StripShort(ts: seq<Token>)
    requires NoBreak(ts)
    ensures Strip(ts) == ts
  {
    hide Break;
  }

  /** The tokens that are not white space. */
  function Visible(ts: seq<Token>): seq<Token> {
    if ts == [] then [] else Visible(ts[..|ts| - 1]) + if Space(ts[|ts| - 1]) then [] else [ts[|ts| - 1]]
  }

  lemma {:induction false} VisibleConcat(a: seq<Token>, b: seq<Token>)
    ensures Visible(a + b) == Visible(a) + Visible(b)
    decreases |b|
  {
    hide Space;
    if b == [] {
      assert a + b == a;
    } else {
      assert (a + b)[..|a + b| - 1] == a + b[..|b| - 1];
      VisibleConcat(a, b[..|b| - 1]);
    }
  }

  lemma {:induction false} TagsAreVisible(line: seq<Token>)
    requires forall i :: 0 <= i < |line| ==> !Ink(line[i])
    ensures Visible(TagsOnly(line)) == Visible(line)
  {
    hide AllWhite;
    if line != [] {
      var init, t := line[..|line| - 1], line[|line| - 1];
      TagsAreVisible(init);
      if t.kind != Literal {
        VisibleConcat(TagsOnly(init), [t]);
        assert [t][..0] == [] && Visible([t]) == [] + [t];
      } else {
        assert TagsOnly(line) == TagsOnly(init) + [] == TagsOnly(init);
        assert Space(t) && Visible(line) == Visible(init) + [] == Visible(init);
      }
    }
  }

  /** Stripping takes out nothing but white space: every tag and every other character stays, in order. */
  lemma {:induction false} StripKeepsVisible(ts: seq<Token>)
    ensures Visible(Strip(ts)) == Visible(ts)
    decreases |ts|
  {
    hide Visible, Ink, Break, TagsOnly, LineEnd;
    var n := LineEnd(ts);
    if !(n == 0 || !Break(ts[n - 1])) {
      StripKeepsVisible(ts[n..]);
      VisibleConcat(CleanLine(ts[..n]), Strip(ts[n..]));
      assert ts == ts[..n] + ts[n..];
      VisibleConcat(ts[..n], ts[n..]);
      if Standalone(ts[..n]) {
        TagsAreVisible(ts[..n]);
      }
    }
  }

  // ---- the index lists ----------------------------------------------------------------------------------------------

  /** Where the white space of a line is, counted from `offset`. */
  function Positions(line: seq<Token>, offset: nat): (ps: seq<nat>)
    ensures forall i :: 0 <= i < |ps| ==> offset <= ps[i] < offset + |line| && Space(line[ps[i] - offset])
    ensures forall i, j :: 0 <= i < j < |ps| ==> ps[i] < ps[j]
  {
    if line == [] then []
    else
      var n := |line| - 1;
      Positions(line[..n], offset) + if Space(line[n]) then [offset + n] else []
  }

  predicate Increasing(ps: seq<nat>, bound: nat) {
    && (forall i :: 0 <= i < |ps| ==> ps[i] < bound)
    && (forall i, j :: 0 <= i < j < |ps| ==> ps[i] < ps[j])
  }

  function Without(ts: seq<Token>, k: nat): seq<Token>
    requires k < |ts|
  {
    ts[..k] + ts[k + 1..]
  }

  /** Splicing out the listed positions, the last one first. */
  function Splices(ts: seq<Token>, ps: seq<nat>): seq<Token>
    requires Increasing(ps, |ts|)
    decreases |ps|
  {
    if ps == [] then ts else Splices(Without(ts, ps[|ps| - 1]), ps[..|ps| - 1])
  }

  /** In a line without ink the listed positions are exactly the text, so the splices leave the tags. */
  lemma {:induction false} SplicesLeaveTags(base: seq<Token>, line: seq<Token>, behind: seq<Token>)
    requires forall i :: 0 <= i < |line| ==> !Ink(line[i])
    ensures Increasing(Positions(line, |base|), |base + line + behind|)
    ensures Splices(base + line + behind, Positions(line, |base|)) == base + TagsOnly(line) + behind
    decreases |line|
  {
    hide AllWhite, Splices, TagsOnly, Positions;
    var all := base + line + behind;
    if line == [] {
      SplicesOfNothing(all, |base|);
      assert all == base + [] + behind;
    } else {
      var init, t := line[..|line| - 1], line[|line| - 1];
      if t.kind == Literal {
        SplicesLeaveTags(base, init, behind);
        SplicesOfLiteral(base, init, t, behind);
        assert line == init + [t];
      } else {
        assert all == base + init + ([t] + behind);
        SplicesLeaveTags(base, init, [t] + behind);
        PositionsSkip(line, |base|);
        assert base + TagsOnly(init) + ([t] + behind) == base + (TagsOnly(init) + [t]) + behind;
      }
    }
  }

  lemma SplicesOfNothing(all: seq<Token>, offset: nat)
    ensures Positions([], offset) == [] && TagsOnly([]) == [] && Splices(all, []) == all
  {
  }

  lemma PositionsSkip(line: seq<Token>, offset: nat)
    requires line != [] && line[|line| - 1].kind != Literal
    ensures Positions(line, offset) == Positions(line[..|line| - 1], offset)
    ensures TagsOnly(line) == TagsOnly(line[..|line| - 1]) + [line[|line| - 1]]
  {
  }

  lemma SplicesOfLiteral(base: seq<Token>, init: seq<Token>, t: Token, behind: seq<Token>)
    requires Space(t) && Increasing(Positions(init, |base|), |base + init + behind|)
    ensures var ps := Positions(init + [t], |base|);
            Increasing(ps, |base + (init + [t]) + behind|)
            && Splices(base + (init + [t]) + behind, ps) == Splices(base + init + behind, Positions(init, |base|))
    ensures TagsOnly(init + [t]) == TagsOnly(init)
  {
    hide AllWhite, Splices;
    var line, k := init + [t], |base| + |init|;
    assert line[..|init|] == init;
    var ps := Positions(init, |base|);
    assert Positions(line, |base|) == ps + [k];
    SpliceLast(base + line + behind, ps, k);
    WithoutLast(base, init, t, behind);
  }

  lemma SpliceLast(all: seq<Token>, ps: seq<nat>, k: nat)
    requires Increasing(ps, k) && k < |all|
    ensures Increasing(ps, |Without(all, k)|) && Increasing(ps + [k], |all|)
    ensures Splices(all, ps + [k]) == Splices(Without(all, k), ps)
  {
    assert (ps + [k])[..|ps|] == ps;
  }

  lemma WithoutLast(base: seq<Token>, init: seq<Token>, t: Token, behind: seq<Token>)
    ensures Without(base + (init + [t]) + behind, |base| + |init|) == base + init + behind
  {
  }

  /** The variables of `parse` that stripSpace shares. */
  class LineBuffer {
    var tokens: seq<Token>
    var spaces: seq<nat>
    var hasTag: bool
    var nonSpace: bool
    /** All tokens so far, before stripping: those of the finished lines, and those of the current one. */
    ghost var done: seq<Token>
    ghost var current: seq<Token>

    /** What the variables hold in terms of the tokens so far. */
    ghost predicate Tracks()
      reads this
    {
      && Complete(done) && Small(done + current)
      && tokens == Strip(done) + current
      && spaces == Positions(current, |Strip(done)|)
      && (hasTag <==> exists i :: 0 <= i < |current| && current[i].kind != Literal)
      && (nonSpace <==> exists i :: 0 <= i < |current| && Ink(current[i]))
    }

    ghost predicate Valid()
      reads this
    {
      Tracks() && NoBreak(current)
    }

    ghost function Seen(): seq<Token>
      reads this
    {
      done + current
    }

    constructor ()
      ensures Valid() && Seen() == []
    {
      tokens, spaces, hasTag, nonSpace, done, current := [], [], false, false, [], [];
      new;
      StripShort([]);
    }

    /** The loop of stripSpace. */
    method SpliceAll()
      requires Increasing(spaces, |tokens|)
      modifies this`tokens, this`spaces
      ensures tokens == Splices(old(tokens), old(spaces)) && spaces == []
    {
      while |spaces| > 0
        invariant Increasing(spaces, |tokens|)
        invariant Splices(tokens, spaces) == Splices(old(tokens), old(spaces))
      {
        var k := spaces[|spaces| - 1];
        spaces := spaces[..|spaces| - 1];
        tokens := tokens[..k] + tokens[k + 1..];
      }
    }

    /** At the end of a line: its white space goes if it has a tag and nothing else. */
    method StripSpace()
      requires Tracks() && Line(current)
      modifies this
      ensures Valid() && Seen() == old(Seen()) && current == []
    {
      hide Strip, Positions, TagsOnly, Splices, Increasing, Break, Ink, AllWhite, Line, Complete, Small, NoBreak;
      LineIsDone(Strip(done));
      if hasTag && !nonSpace {
        SpliceAll();
      } else {
        spaces := [];
      }
      hasTag := false;
      nonSpace := false;
      StripAfter(done, current);
      done, current := done + current, [];
      EmptyLine(Strip(done));
    }

    /** What the line becomes, with the lists as they are. */
    lemma LineIsDone(base: seq<Token>)
      requires Tracks() && Line(current) && base == Strip(done)
      ensures hasTag && !nonSpace <==> Standalone(current)
      ensures base + Strip(current) == base + CleanLine(current)
      ensures Standalone(current) ==> Increasing(spaces, |tokens|)
      ensures Standalone(current) ==> Splices(tokens, spaces) == base + TagsOnly(current)
      ensures Complete(done + current)
    {
      hide Strip, Positions, TagsOnly, Splices, Increasing, Break, Ink, AllWhite;
      StripLine(current);
      assert base + current + [] == tokens;
      if Standalone(current) {
        SplicesLeaveTags(base, current, []);
        assert base + TagsOnly(current) + [] == base + TagsOnly(current);
      }
    }

    lemma EmptyLine(base: seq<Token>)
      ensures base + [] == base && Positions([], |base|) == [] && NoBreak([])
      ensures forall ts: seq<Token> :: ts + [] == ts
    {
    }

    /** The body of the loop over the characters of the text. */
    method Character(chr: Unit, start: nat)
      requires Valid()
      modifies this
      ensures Valid() && Seen() == old(Seen()) + [Token(Literal, [chr], start, start + 1)]
    {
      hide Strip, Positions;
      ghost var t := Token(Literal, [chr], start, start + 1);
      TracksMore(t);
      if White(chr) {
        spaces := spaces + [|tokens|];
      } else {
        nonSpace := true;
      }
      tokens := tokens + [Token(Literal, [chr], start, start + 1)];
      assert done + current + [t] == done + (current + [t]);
      current := current + [t];
      if chr == NEWLINE {
        assert current[..|current| - 1] == old(current);
        StripSpace();
      } else {
        assert t.value[0] == chr && !Break(t);
      }
    }

    /** A tag has been read. */
    method Tag(token: Token)
      requires Valid() && token.kind != Literal
      modifies this
      ensures Valid() && Seen() == old(Seen()) + [token]
    {
      hide Strip, Positions;
      TracksMore(token);
      hasTag := true;
      tokens := tokens + [token];
      if token.kind == Name || token.kind == Unescaped {
        nonSpace := true;
      }
      assert done + current + [token] == done + (current + [token]);
      current := current + [token];
    }

    lemma TracksMore(t: Token)
      requires Valid() && (t.kind == Literal ==> |t.value| == 1)
      ensures Positions(current + [t], |Strip(done)|) == spaces + if Space(t) then [|tokens|] else []
      ensures (exists i :: 0 <= i < |current + [t]| && (current + [t])[i].kind != Literal)
              <==> hasTag || t.kind != Literal
      ensures (exists i :: 0 <= i < |current + [t]| && Ink((current + [t])[i])) <==> nonSpace || Ink(t)
      ensures Small(done + (current + [t]))
      ensures Strip(done) + current + [t] == Strip(done) + (current + [t])
    {
      hide Strip, Ink, Break, AllWhite;
      var more := current + [t];
      assert more[..|current|] == current && more[|current|] == t;
      assert forall i :: 0 <= i < |current| ==> more[i] == current[i];
      if exists i :: 0 <= i < |current| && current[i].kind != Literal {
        var i :| 0 <= i < |current| && current[i].kind != Literal;
        assert more[i].kind != Literal;
      }
      if exists i :: 0 <= i < |current| && Ink(current[i]) {
        var i :| 0 <= i < |current| && Ink(current[i]);
        assert Ink(more[i]);
      }
      var all, wider := done + current, done + more;
      assert wider == all + [t];
    }

    /** After the last character: the current line is left as it is. */
    method Finish() returns (r: seq<Token>)
      requires Valid()
      ensures r == Strip(Seen())
    {
      hide Strip, Positions, Break, Ink;
      StripAfter(done, current);
      StripShort(current);
      r := tokens;
    }
  }
}
