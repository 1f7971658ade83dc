/** mustache.js: tokens, and the passes over them that `parse` ends with, squashTokens and nestTokens. */
module MustacheTokens {
  import opened Common
  import opened JavaText

  /** The token types "#", "^", "/", ">", "&", "name", "text", "=" and "!". */
  datatype Kind = Section | Inverted | Close | Partial | Unescaped | Name | Literal | SetTags | Comment

  datatype Token = Token(kind: Kind, value: JString, start: nat, end: nat)

  /** An element of the nested tree: a token, with its fifth item if it is a section. */
  datatype Node = Leaf(token: Token) | Branch(token: Token, children: seq<Node>)

  datatype NestError = Unopened(name: JString) | Unclosed(name: JString)

  predicate Opens(t: Token) {
    t.kind == Section || t.kind == Inverted
  }

  // ---- nestTokens -------------------------------------------------------------------------------------------------

  /** The open sections, and what has been collected on the top level and in each of them. */
  datatype Nesting = Nesting(open: seq<Token>, built: seq<seq<Node>>) | Failed(error: NestError)

  predicate Shaped(s: Nesting) {
    s.Nesting? ==> |s.built| == |s.open| + 1
  }

  const EMPTY := Nesting([], [[]])

  function Collect(s: Nesting, node: Node): (r: Nesting)
    requires s.Nesting? && Shaped(s)
    ensures r.Nesting? && Shaped(r)
  {
    var top := |s.built| - 1;
    s.(built := s.built[top := s.built[top] + [node]])
  }

  function Step(s: Nesting, t: Token): (r: Nesting)
    requires Shaped(s)
    ensures Shaped(r)
  {
    if s.Failed? then s
    else if Opens(t) then Nesting(s.open + [t], s.built + [[]])
    else if t.kind != Close then Collect(s, Leaf(t))
    else if s.open == [] then Failed(Unopened(t.value))
    else
      var n := |s.open|;
      var section := s.open[n - 1];
      if section.value != t.value then Failed(Unclosed(section.value))
      else Collect(Nesting(s.open[..n - 1], s.built[..n]), Branch(section, s.built[n]))
  }

  function Scan(s: Nesting, ts: seq<Token>): (r: Nesting)
    requires Shaped(s)
    ensures Shaped(r)
  {
    if ts == [] then s else Step(Scan(s, ts[..|ts| - 1]), ts[|ts| - 1])
  }

  /** What nestTokens returns or throws. */
  function Nest(ts: seq<Token>): Result<seq<Node>, NestError> {
    match Scan(EMPTY, ts)
    case Failed(e) => Err(e)
    case Nesting(open, built) => if open == [] then Ok(built[0]) else Err(Unclosed(open[|open| - 1].value))
  }

  /** The switch in the loop of nestTokens. */
  method Place(sections: seq<Token>, collectors: seq<seq<Node>>, token: Token)
    returns (error: Option<NestError>, sections': seq<Token>, collectors': seq<seq<Node>>)
    requires |collectors| == |sections| + 1
    ensures Step(Nesting(sections, collectors), token)
         == match error case None => Nesting(sections', collectors') case Some(e) => Failed(e)
  {
    error, sections', collectors' := None, sections, collectors;
    var top := |sections|;
    match token.kind {
      case Section | Inverted =>
        sections' := sections + [token];
        collectors' := collectors + [[]];
      case Close =>
        if |sections| == 0 {
          error := Some(Unopened(token.value));
          return;
        }
        var section := sections[top - 1];
        if section.value != token.value {
          error := Some(Unclosed(section.value));
          return;
        }
        sections' := sections[..top - 1];
        collectors' := collectors[..top][top - 1 := collectors[top - 1] + [Branch(section, collectors[top])]];
      case _ =>
        collectors' := collectors[top := collectors[top] + [Leaf(token)]];
    }
  }

  method NestTokens(tokens: seq<Token>) returns (r: Result<seq<Node>, NestError>)
    ensures r == Nest(tokens)
  {
    hide Step;
    var collectors: seq<seq<Node>> := [[]];
    var sections: seq<Token> := [];
    for i := 0 to |tokens|
      invariant Scan(EMPTY, tokens[..i]) == Nesting(sections, collectors)
    {
      assert tokens[..i + 1][..i] == tokens[..i];
      ScanFails(EMPTY, tokens, i + 1);
      var error;
      error, sections, collectors := Place(sections, collectors, tokens[i]);
      if error.Some? {
        return Err(error.value);
      }
    }
    assert tokens[..|tokens|] == tokens;
    if |sections| > 0 {
      return Err(Unclosed(sections[|sections| - 1].value));
    }
    return Ok(collectors[0]);
  }

  lemma {:induction false} ScanConcat(s: Nesting, a: seq<Token>, b: seq<Token>)
    requires Shaped(s)
    ensures Scan(s, a + b) == Scan(Scan(s, a), b)
    decreases |b|
  {
    hide Step;
    if b == [] {
      assert a + b == a;
    } else {
      assert (a + b)[..|a + b| - 1] == a + b[..|b| - 1];
      ScanConcat(s, a, b[..|b| - 1]);
    }
  }

  /** A failure is final. */
  lemma {:induction false} ScanFails(s: Nesting, ts: seq<Token>, i: nat)
    requires Shaped(s) && i <= |ts|
    ensures Scan(s, ts[..i]).Failed? ==> Scan(s, ts) == Scan(s, ts[..i])
    decreases |ts|
  {
    if i == |ts| {
      assert ts[..i] == ts;
    } else {
      assert ts[..|ts| - 1][..i] == ts[..i];
      ScanFails(s, ts[..|ts| - 1], i);
    }
  }

  // ---- what a tree stands for ---------------------------------------------------------------------------------------

  /** The tokens of the text a tree comes from: behind the children of a section stands a close tag of its name. */
  function Emit(nodes: seq<Node>): seq<Token> {
    if nodes == [] then [] else Emit(nodes[..|nodes| - 1]) + EmitNode(nodes[|nodes| - 1])
  }

  function EmitNode(node: Node): seq<Token> {
    match node
    case Leaf(t) => [t]
    case Branch(t, children) => [t] + Emit(children) + [Closing(t.value)]
  }

  /** A close tag, without the positions that the tree does not keep. */
  function Closing(name: JString): Token {
    Token(Close, name, 0, 0)
  }

  function Unplaced(t: Token): Token {
    if t.kind == Close then Closing(t.value) else t
  }

  function Bare(ts: seq<Token>): (r: seq<Token>)
    ensures |r| == |ts| && forall i :: 0 <= i < |ts| ==> r[i] == Unplaced(ts[i])
  {
    seq(|ts|, i requires 0 <= i < |ts| => Unplaced(ts[i]))
  }

  predicate Proper(nodes: seq<Node>) {
    forall i :: 0 <= i < |nodes| ==> ProperNode(nodes[i])
  }

  predicate ProperNode(node: Node) {
    match node
    case Leaf(t) => !Opens(t) && t.kind != Close
    case Branch(t, children) => Opens(t) && forall i :: 0 <= i < |children| ==> ProperNode(children[i])
  }

  /** The tokens read so far when the sections `open` are open. */
  function EmitOpen(open: seq<Token>, built: seq<seq<Node>>): seq<Token>
    requires |built| == |open| + 1
  {
    if open == [] then Emit(built[0])
    else var n := |open|; EmitOpen(open[..n - 1], built[..n]) + [open[n - 1]] + Emit(built[n])
  }

  predicate ProperOpen(open: seq<Token>, built: seq<seq<Node>>) {
    && |built| == |open| + 1
    && (forall i :: 0 <= i < |open| ==> Opens(open[i]))
    && (forall i :: 0 <= i < |built| ==> Proper(built[i]))
  }

  lemma EmitNil()
    ensures Emit([]) == []
  {
  }

  lemma EmitSnoc(nodes: seq<Node>, node: Node)
    ensures Emit(nodes + [node]) == Emit(nodes) + EmitNode(node)
  {
    assert (nodes + [node])[..|nodes|] == nodes;
  }

  /** Collecting a node appends its tokens to what has been read. */
  lemma EmitCollect(s: Nesting, node: Node)
    requires s.Nesting? && ProperOpen(s.open, s.built) && ProperNode(node)
    ensures var r := Collect(s, node);
            ProperOpen(r.open, r.built) && EmitOpen(r.open, r.built) == EmitOpen(s.open, s.built) + EmitNode(node)
  {
    hide Emit, EmitNode, ProperNode;
    var n := |s.open|;
    var r := Collect(s, node);
    EmitSnoc(s.built[n], node);
    assert r.built[..n] == s.built[..n];
    if n > 0 {
      assert EmitOpen(r.open, r.built) == EmitOpen(s.open[..n - 1], s.built[..n]) + [s.open[n - 1]]
             + (Emit(s.built[n]) + EmitNode(node));
    }
  }

  lemma StepSound(s: Nesting, t: Token)
    requires s.Nesting? && ProperOpen(s.open, s.built) && Step(s, t).Nesting?
    ensures var r := Step(s, t);
            ProperOpen(r.open, r.built) && EmitOpen(r.open, r.built) == EmitOpen(s.open, s.built) + [Unplaced(t)]
  {
    hide Emit, Collect, EmitOpen, ProperOpen, EmitNode, ProperNode;
    if Opens(t) {
      OpenSound(s, t);
    } else if t.kind != Close {
      LeafIsProper(t);
      EmitCollect(s, Leaf(t));
    } else {
      CloseSound(s, t);
    }
  }

  lemma LeafIsProper(t: Token)
    requires !Opens(t) && t.kind != Close
    ensures ProperNode(Leaf(t)) && EmitNode(Leaf(t)) == [Unplaced(t)]
  {
  }

  lemma OpenSound(s: Nesting, t: Token)
    requires s.Nesting? && ProperOpen(s.open, s.built) && Opens(t)
    ensures ProperOpen(s.open + [t], s.built + [[]])
    ensures EmitOpen(s.open + [t], s.built + [[]]) == EmitOpen(s.open, s.built) + [Unplaced(t)]
  {
    hide Emit, ProperNode;
    var n := |s.open|;
    assert (s.open + [t])[..n] == s.open && (s.built + [[]])[..n + 1] == s.built;
    EmitNil();
    assert EmitOpen(s.open, s.built) + [t] + [] == EmitOpen(s.open, s.built) + [t];
  }

  lemma CloseSound(s: Nesting, t: Token)
    requires s.Nesting? && ProperOpen(s.open, s.built) && t.kind == Close
    requires s.open != [] && s.open[|s.open| - 1].value == t.value
    ensures var n := |s.open|;
            var r := Collect(Nesting(s.open[..n - 1], s.built[..n]), Branch(s.open[n - 1], s.built[n]));
            ProperOpen(r.open, r.built) && EmitOpen(r.open, r.built) == EmitOpen(s.open, s.built) + [Unplaced(t)]
  {
    hide Emit, Collect;
    var n := |s.open|;
    var below, node := Nesting(s.open[..n - 1], s.built[..n]), Branch(s.open[n - 1], s.built[n]);
    EmitCollect(below, node);
    assert EmitOpen(below.open, below.built) + EmitNode(node) == EmitOpen(s.open, s.built) + [Unplaced(t)];
  }

  /** Whatever has been read is what the open sections and the collected nodes stand for. */
  lemma {:induction false} ScanSound(ts: seq<Token>)
    requires Scan(EMPTY, ts).Nesting?
    ensures var s := Scan(EMPTY, ts); ProperOpen(s.open, s.built) && Bare(ts) == EmitOpen(s.open, s.built)
  {
    hide Step, EmitOpen;
    if ts == [] {
      EmptyIsSound();
    } else {
      var init := ts[..|ts| - 1];
      ScanFails(EMPTY, ts, |init|);
      ScanSound(init);
      StepSound(Scan(EMPTY, init), ts[|init|]);
      assert Bare(ts) == Bare(init) + [Unplaced(ts[|init|])];
    }
  }

  lemma EmptyIsSound()
    ensures ProperOpen(EMPTY.open, EMPTY.built) && EmitOpen(EMPTY.open, EMPTY.built) == []
  {
  }

  function CollectAll(s: Nesting, nodes: seq<Node>): (r: Nesting)
    requires s.Nesting? && Shaped(s)
    ensures r.Nesting? && Shaped(r)
  {
    var top := |s.built| - 1;
    s.(built := s.built[top := s.built[top] + nodes])
  }

  /** Reading the tokens of a list of nodes collects these nodes. */
  lemma {:induction false} ScanEmit(s: Nesting, nodes: seq<Node>)
    requires s.Nesting? && Shaped(s) && Proper(nodes)
    ensures Scan(s, Emit(nodes)) == CollectAll(s, nodes)
    decreases nodes, 1
  {
    hide Step;
    var top := |s.built| - 1;
    if nodes == [] {
      assert s.built[top] + nodes == s.built[top];
    } else {
      var init, node := nodes[..|nodes| - 1], nodes[|nodes| - 1];
      assert nodes == init + [node];
      ScanEmit(s, init);
      ScanConcat(s, Emit(init), EmitNode(node));
      ScanEmitNode(CollectAll(s, init), node);
      assert s.built[top] + nodes == s.built[top] + init + [node];
    }
  }

  lemma {:induction false} ScanEmitNode(s: Nesting, node: Node)
    requires s.Nesting? && Shaped(s) && ProperNode(node)
    ensures Scan(s, EmitNode(node)) == Collect(s, node)
    decreases node, 0
  {
    hide Emit;
    match node
    case Leaf(t) => ScanOne(s, t);
    case Branch(t, children) =>
      var a, b, c := [t], Emit(children), [Closing(t.value)];
      var s1 := Nesting(s.open + [t], s.built + [[]]);
      ScanOne(s, t);
      ScanEmit(s1, children);
      ScanConcat(s, a, b);
      ScanConcat(s, a + b, c);
      var s2 := CollectAll(s1, children);
      assert s2 == Nesting(s.open + [t], s.built + [children]) by { assert [] + children == children; }
      ScanOne(s2, Closing(t.value));
      assert s2.open[..|s.open|] == s.open && s2.built[..|s.built|] == s.built;
  }

  lemma ScanOne(s: Nesting, t: Token)
    requires Shaped(s)
    ensures Scan(s, [t]) == Step(s, t)
  {
    hide Step;
    assert [t][..0] == [];
    assert Scan(s, []) == s;
  }

  lemma {:induction false} ScanEmitOpen(open: seq<Token>, built: seq<seq<Node>>)
    requires ProperOpen(open, built)
    ensures Scan(EMPTY, EmitOpen(open, built)) == Nesting(open, built)
    decreases |open|
  {
    hide Emit, Step, Proper, CollectAll;
    var n := |open|;
    if n == 0 {
      ScanEmit(EMPTY, built[0]);
      CollectIntoEmpty([], [], built[0]);
      assert EMPTY.built == [] + [[]] && built == [] + [built[0]] && open == [];
    } else {
      ScanEmitOpen(open[..n - 1], built[..n]);
      ScanNextOpen(EmitOpen(open[..n - 1], built[..n]), open[..n - 1], built[..n], open[n - 1], built[n]);
      assert open == open[..n - 1] + [open[n - 1]] && built == built[..n] + [built[n]];
    }
  }

  lemma CollectIntoEmpty(open: seq<Token>, built: seq<seq<Node>>, nodes: seq<Node>)
    requires |built| == |open|
    ensures CollectAll(Nesting(open, built + [[]]), nodes) == Nesting(open, built + [nodes])
  {
    assert [] + nodes == nodes;
  }

  lemma ScanNextOpen(lower: seq<Token>, open: seq<Token>, built: seq<seq<Node>>, t: Token, nodes: seq<Node>)
    requires |built| == |open| + 1 && Scan(EMPTY, lower) == Nesting(open, built) && Opens(t) && Proper(nodes)
    ensures Scan(EMPTY, lower + [t] + Emit(nodes)) == Nesting(open + [t], built + [nodes])
  {
    hide Scan, Emit, CollectAll, Proper;
    ScanConcat(EMPTY, lower, [t]);
    ScanOne(Scan(EMPTY, lower), t);
    ScanConcat(EMPTY, lower + [t], Emit(nodes));
    ScanEmit(Scan(EMPTY, lower + [t]), nodes);
    CollectIntoEmpty(open + [t], built, nodes);
  }

  /** The positions of close tags do not matter. */
  lemma {:induction false} ScanBare(s: Nesting, ts: seq<Token>)
    requires Shaped(s)
    ensures Scan(s, Bare(ts)) == Scan(s, ts)
  {
    if ts != [] {
      var init := ts[..|ts| - 1];
      ScanBare(s, init);
      assert Bare(ts)[..|init|] == Bare(init);
    }
  }

  /** The state after reading `ts` is exactly the one whose sections and nodes stand for `ts`. */
  lemma {:induction false} ScanIff(ts: seq<Token>, open: seq<Token>, built: seq<seq<Node>>)
    requires |built| == |open| + 1
    ensures Scan(EMPTY, ts) == Nesting(open, built) <==> ProperOpen(open, built) && EmitOpen(open, built) == Bare(ts)
  {
    hide Scan, EmitOpen, Bare, ProperOpen;
    if Scan(EMPTY, ts) == Nesting(open, built) {
      ScanSound(ts);
    }
    if ProperOpen(open, built) && EmitOpen(open, built) == Bare(ts) {
      ScanEmitOpen(open, built);
      ScanBare(EMPTY, ts);
    }
  }

  /**
   * nestTokens returns a tree exactly if the tree stands for the tokens; so it undoes flattening, and is undone by
   * it.
   */
  lemma NestIffEmit(ts: seq<Token>, tree: seq<Node>)
    ensures Nest(ts) == Ok(tree) <==> Proper(tree) && Emit(tree) == Bare(ts)
  {
    hide Scan, Emit, Bare;
    ScanIff(ts, [], [tree]);
    if Nest(ts) == Ok(tree) {
      assert Scan(EMPTY, ts).built == [tree];
    }
    assert Proper(tree) <==> ProperOpen([], [tree]) by {
      assert [tree][0] == tree;
    }
  }

  // ---- what it throws -----------------------------------------------------------------------------------------------

  /** Position `i` holds a close tag while no section is open. */
  ghost predicate UnopenedAt(ts: seq<Token>, i: int, name: JString) {
    0 <= i < |ts| && ts[i].kind == Close && ts[i].value == name && Balanced(ts[..i])
  }

  ghost predicate Balanced(ts: seq<Token>) {
    exists tree :: Proper(tree) && Emit(tree) == Bare(ts)
  }

  /** The text before position `i` leaves sections open, the innermost one called `name`. */
  ghost predicate LeavesOpen(ts: seq<Token>, name: JString) {
    exists open: seq<Token>, built: seq<seq<Node>> ::
      |built| == |open| + 1 && ProperOpen(open, built) && EmitOpen(open, built) == Bare(ts)
                          && open != [] && open[|open| - 1].value == name
  }

  /** Behind the first `i` tokens section `name` is the innermost open one, and another name is closed, or all ends. */
  ghost predicate UnclosedAt(ts: seq<Token>, i: int, name: JString) {
    0 <= i <= |ts| && LeavesOpen(ts[..i], name) && (i < |ts| ==> ts[i].kind == Close && ts[i].value != name)
  }

  lemma {:induction false} FirstFailure(ts: seq<Token>) returns (i: nat)
    requires Scan(EMPTY, ts).Failed?
    ensures i < |ts| && Scan(EMPTY, ts[..i]).Nesting? && Step(Scan(EMPTY, ts[..i]), ts[i]) == Scan(EMPTY, ts)
  {
    var init := ts[..|ts| - 1];
    if Scan(EMPTY, init).Failed? {
      i := FirstFailure(init);
      assert init[..i] == ts[..i];
    } else {
      i := |init|;
    }
  }

  lemma BalancedIff(ts: seq<Token>)
    ensures Balanced(ts) <==> Nest(ts).Ok?
  {
    hide Nest, Bare, Emit, Proper;
    if Balanced(ts) {
      var tree :| Proper(tree) && Emit(tree) == Bare(ts);
      NestIffEmit(ts, tree);
    }
    if Nest(ts).Ok? {
      NestIffEmit(ts, Nest(ts).value);
    }
  }

  lemma LeavesOpenIff(ts: seq<Token>, name: JString)
    ensures LeavesOpen(ts, name) <==>
              var s := Scan(EMPTY, ts); s.Nesting? && s.open != [] && s.open[|s.open| - 1].value == name
  {
    hide Scan, Bare, EmitOpen, ProperOpen;
    if LeavesOpen(ts, name) {
      var open: seq<Token>, built: seq<seq<Node>> :|
        |built| == |open| + 1 && ProperOpen(open, built) && EmitOpen(open, built) == Bare(ts)
                         && open != [] && open[|open| - 1].value == name;
      ScanIff(ts, open, built);
    }
    var s := Scan(EMPTY, ts);
    if s.Nesting? {
      ScanIff(ts, s.open, s.built);
    }
  }

  /** "Unopened section" is thrown exactly where a close tag comes while nothing is open. */
  lemma UnopenedIff(ts: seq<Token>, name: JString)
    ensures Nest(ts) == Err(Unopened(name)) <==> exists i :: UnopenedAt(ts, i, name)
  {
    hide Scan, Balanced;
    if Nest(ts) == Err(Unopened(name)) {
      var i := FirstFailure(ts);
      BalancedIff(ts[..i]);
      assert UnopenedAt(ts, i, name);
    }
    if i :| UnopenedAt(ts, i, name) {
      BalancedIff(ts[..i]);
      FailsAt(ts, i);
    }
  }

  lemma {:induction false} FailsAt(ts: seq<Token>, i: nat)
    requires i < |ts|
    ensures Step(Scan(EMPTY, ts[..i]), ts[i]).Failed? ==> Scan(EMPTY, ts) == Step(Scan(EMPTY, ts[..i]), ts[i])
  {
    hide Step;
    assert ts[..i + 1][..i] == ts[..i];
    ScanFails(EMPTY, ts, i + 1);
  }

  /** "Unclosed section" names the innermost open section when another name is closed, or when the text ends. */
  lemma UnclosedIff(ts: seq<Token>, name: JString)
    ensures Nest(ts) == Err(Unclosed(name)) <==> exists i :: UnclosedAt(ts, i, name)
  {
    hide Scan, LeavesOpen;
    assert ts[..|ts|] == ts;
    if Nest(ts) == Err(Unclosed(name)) {
      if Scan(EMPTY, ts).Failed? {
        var i := FirstFailure(ts);
        LeavesOpenIff(ts[..i], name);
        assert UnclosedAt(ts, i, name);
      } else {
        LeavesOpenIff(ts, name);
        assert UnclosedAt(ts, |ts|, name);
      }
    }
    if i :| UnclosedAt(ts, i, name) {
      LeavesOpenIff(ts[..i], name);
      if i < |ts| {
        FailsAt(ts, i);
      }
    }
  }
}
