/**
 * mustache.js: what a template means. `Interpret` reads the template as a stream of characters and tags; `RenderAll`
 * walks the tree that squashTokens and nestTokens make of it. Both give the same text.
 */
module MustacheRender {
  import opened Common
  import opened JavaText
  import opened MustacheTokens

  // ---- squashTokens -----------------------------------------------------------------------------------------------

  function Squash(ts: seq<Token>): (r: seq<Token>)
    ensures ts != [] ==> r != []
  {
    if ts == [] then [] else
      var done, t := Squash(ts[..|ts| - 1]), ts[|ts| - 1];
      var last := |done| - 1;
      if done != [] && done[last].kind == Literal && t.kind == Literal
      then done[last := done[last].(value := done[last].value + t.value, end := t.end)]
      else done + [t]
  }

  method SquashTokens(tokens: seq<Token>) returns (squashedTokens: seq<Token>)
    ensures squashedTokens == Squash(tokens)
  {
    var lastToken: Option<Token> := None;
    squashedTokens := [];
    for i := 0 to |tokens|
      invariant squashedTokens == Squash(tokens[..i])
      invariant lastToken.Some? <==> squashedTokens != []
      invariant lastToken.Some? ==> lastToken.value == squashedTokens[|squashedTokens| - 1]
    {
      assert tokens[..i + 1][..i] == tokens[..i];
      var token := tokens[i];
      if lastToken.Some? && lastToken.value.kind == Literal && token.kind == Literal {
        lastToken := Some(lastToken.value.(value := lastToken.value.value + token.value, end := token.end));
        squashedTokens := squashedTokens[|squashedTokens| - 1 := lastToken.value];
      } else {
        lastToken := Some(token);
        squashedTokens := squashedTokens + [token];
      }
    }
    assert tokens[..|tokens|] == tokens;
  }

  /** A template as a reader sees it: characters and tags. */
  datatype Piece = Char(c: Unit) | Tag(kind: Kind, value: JString)

  function Chars(s: JString): (r: seq<Piece>)
    ensures |r| == |s| && forall i :: 0 <= i < |s| ==> r[i] == Char(s[i])
  {
    seq(|s|, i requires 0 <= i < |s| => Char(s[i]))
  }

  function PiecesOf(t: Token): seq<Piece> {
    if t.kind == Literal then Chars(t.value) else [Tag(t.kind, t.value)]
  }

  function Pieces(ts: seq<Token>): seq<Piece> {
    if ts == [] then [] else Pieces(ts[..|ts| - 1]) + PiecesOf(ts[|ts| - 1])
  }

  lemma PiecesSnoc(ts: seq<Token>, t: Token)
    ensures Pieces(ts + [t]) == Pieces(ts) + PiecesOf(t)
  {
    assert (ts + [t])[..|ts|] == ts;
  }

  lemma {:induction false} PiecesConcat(a: seq<Token>, b: seq<Token>)
    ensures Pieces(a + b) == Pieces(a) + Pieces(b)
    decreases |b|
  {
    hide PiecesOf;
    if b == [] {
      assert a + b == a;
    } else {
      assert (a + b)[..|a + b| - 1] == a + b[..|b| - 1];
      PiecesConcat(a, b[..|b| - 1]);
    }
  }

  /** squashTokens keeps every character and every tag, in order; it leaves no two text tokens side by side. */
  lemma {:induction false} SquashKeepsPieces(ts: seq<Token>)
    ensures Pieces(Squash(ts)) == Pieces(ts)
    ensures forall i :: 0 < i < |Squash(ts)| ==> !(Squash(ts)[i - 1].kind == Literal && Squash(ts)[i].kind == Literal)
    ensures ts != [] ==> Squash(ts)[0].start == ts[0].start && Squash(ts)[|Squash(ts)| - 1].end == ts[|ts| - 1].end
  {
    hide PiecesOf, Pieces;
    if ts != [] {
      var init, t := ts[..|ts| - 1], ts[|ts| - 1];
      assert ts == init + [t];
      SquashKeepsPieces(init);
      PiecesSnoc(init, t);
      SquashedLast(Squash(init), t, Squash(ts));
    }
  }

  lemma SquashedLast(done: seq<Token>, t: Token, r: seq<Token>)
    requires r == if done != [] && done[|done| - 1].kind == Literal && t.kind == Literal
                  then var last := |done| - 1;
                       done[last := done[last].(value := done[last].value + t.value, end := t.end)]
                  else done + [t]
    ensures Pieces(r) == Pieces(done) + PiecesOf(t)
  {
    hide Pieces, PiecesOf;
    if done != [] && done[|done| - 1].kind == Literal && t.kind == Literal {
      var rest, last := done[..|done| - 1], done[|done| - 1];
      var merged := last.(value := last.value + t.value, end := t.end);
      LastReplaced(done, merged);
      PiecesSnoc(rest, last);
      PiecesSnoc(rest, merged);
      MergedPieces(last, t, merged);
      ConcatAssociates(Pieces(rest), PiecesOf(last), PiecesOf(t));
    } else {
      PiecesSnoc(done, t);
    }
  }

  lemma LastReplaced<T>(s: seq<T>, x: T)
    requires s != []
    ensures var last := |s| - 1; s == s[..last] + [s[last]] && s[last := x] == s[..last] + [x]
  {
  }

  lemma ConcatAssociates<T>(a: seq<T>, b: seq<T>, c: seq<T>)
    ensures a + (b + c) == a + b + c
  {
  }

  lemma MergedPieces(a: Token, b: Token, ab: Token)
    requires a.kind == Literal && b.kind == Literal && ab.kind == Literal && ab.value == a.value + b.value
    ensures PiecesOf(ab) == PiecesOf(a) + PiecesOf(b)
  {
  }

  // ---- values and lookup --------------------------------------------------------------------------------------------

  /** JavaScript values. An object or function is known by its identity; `Env` says what it answers. */
  datatype JsValue =
    | Undefined
    | Null
    | Boolean(b: bool)
    | Number(text: JString, zeroOrNaN: bool)
    | Str(text: JString)
    | Array(items: seq<JsValue>)
    | Object(id: nat)
    | Function(id: nat)

  /**
   * What is outside mustache.js: the properties of the values, what a function returns when called on a view, the text
   * String() makes of a value, what an empty object inherits under a name, and the text of what a function returns when
   * it is given a context as its argument, None if it throws. Functions are taken to be pure.
   */
  datatype Env = Env(
    get: (JsValue, JString) -> JsValue,
    call: (nat, JsValue) -> JsValue,
    show: JsValue -> JString,
    inherited: JString -> JsValue,
    onContext: (nat, seq<JsValue>) -> Option<JString>)

  datatype RenderError =
    | TypeError       // a property of null or undefined, or a call of what is no function
    | Thrown          // an inherited function called as a partial
    | SectionLambda   // a section whose value is a function; not part of this model

  predicate Truthy(v: JsValue) {
    match v
    case Undefined | Null => false
    case Boolean(b) => b
    case Number(_, zeroOrNaN) => !zeroOrNaN
    case Str(text) => text != []
    case Array(_) | Object(_) | Function(_) => true
  }

  predicate Nullish(v: JsValue) {
    v.Undefined? || v.Null?
  }

  const DOT: Unit := 46

  /** The parts between the dots. */
  function Split(name: JString): (parts: seq<JString>)
    ensures parts != []
  {
    if name == [] then [[]]
    else
      var parts := Split(name[..|name| - 1]);
      var c, last := name[|name| - 1], |parts| - 1;
      if c == DOT then parts + [[]] else parts[last := parts[last] + [c]]
  }

  function Walk(env: Env, v: JsValue, parts: seq<JString>): JsValue
    decreases |parts|
  {
    if Truthy(v) && parts != [] then Walk(env, env.get(v, parts[0]), parts[1..]) else v
  }

  /** The value of `name` in one view. `name.indexOf(".") > 0` */
  function InView(env: Env, view: JsValue, name: JString): Result<JsValue, RenderError> {
    if Dotted(name) then Ok(Walk(env, view, Split(name)))
    else if Nullish(view) then Err(TypeError)
    else Ok(env.get(view, name))
  }

  predicate Dotted(name: JString) {
    DOT in name && name[0] != DOT
  }

  /** The views from the innermost outwards, until one has a value. */
  function Search(env: Env, chain: seq<JsValue>, name: JString): Result<JsValue, RenderError>
    requires chain != []
    decreases |chain|
  {
    var v := InView(env, chain[0], name);
    if v.Err? || !Nullish(v.value) || |chain| == 1 then v else Search(env, chain[1..], name)
  }

  /** The value found, before a function is called. */
  function Find(env: Env, chain: seq<JsValue>, name: JString): Result<JsValue, RenderError>
    requires chain != []
  {
    if Truthy(env.inherited(name)) then Ok(env.inherited(name))
    else if name == [DOT] then Ok(chain[0])
    else Search(env, chain, name)
  }

  function Applied(env: Env, view: JsValue, v: JsValue): JsValue {
    if v.Function? then env.call(v.id, view) else v
  }

  function Lookup(env: Env, chain: seq<JsValue>, name: JString): Result<JsValue, RenderError>
    requires chain != []
  {
    match Find(env, chain, name)
    case Ok(v) => Ok(Applied(env, chain[0], v))
    case Err(e) => Err(e)
  }

  // ---- what a tag produces ------------------------------------------------------------------------------------------

  /** The stacks of views the text of a section is rendered with, in order. */
  function Views(chain: seq<JsValue>, items: seq<JsValue>): (r: seq<seq<JsValue>>)
    ensures |r| == |items| && forall i :: 0 <= i < |r| ==> r[i] == [items[i]] + chain
  {
    seq(|items|, i requires 0 <= i < |items| => [items[i]] + chain)
  }

  function Scopes(env: Env, kind: Kind, name: JString, chain: seq<JsValue>): (r: Result<seq<seq<JsValue>>, RenderError>)
    requires chain != [] && (kind == Section || kind == Inverted)
    ensures r.Ok? ==> forall i :: 0 <= i < |r.value| ==> r.value[i] != []
  {
    match Lookup(env, chain, name)
    case Err(e) => Err(e)
    case Ok(v) =>
      if kind == Inverted then Ok(if !Truthy(v) || v == Array([]) then [chain] else [])
      else match v {
        case Array(items) => Ok(Views(chain, items))
        case Object(_) => Ok([[v] + chain])
        case Function(_) => Err(SectionLambda)
        case _ => Ok(if Truthy(v) then [chain] else [])
      }
  }

  function Entity(c: Unit): (r: JString) {
    if c == 38 then Text("&amp;")
    else if c == 60 then Text("&lt;")
    else if c == 62 then Text("&gt;")
    else if c == 34 then Text("&quot;")
    else if c == 39 then Text("&#39;")
    else if c == 47 then Text("&#x2F;")
    else [c]
  }

  function EscapeHtml(s: JString): JString {
    if s == [] then [] else EscapeHtml(s[..|s| - 1]) + Entity(s[|s| - 1])
  }

  /** `_name`: a function that a lookup returns is called once more. */
  function NameText(env: Env, name: JString, chain: seq<JsValue>): Result<JString, RenderError>
    requires chain != []
  {
    match Lookup(env, chain, name)
    case Err(e) => Err(e)
    case Ok(v) =>
      var w := Applied(env, chain[0], v);
      Ok(if Nullish(w) then [] else env.show(w))
  }

  /** `_partial` where no partials are registered: what an empty object inherits under the name is called. */
  function PartialText(env: Env, name: JString, chain: seq<JsValue>): Result<JString, RenderError> {
    var fn := env.inherited(name);
    if !Truthy(fn) then Ok([])
    else if !fn.Function? then Err(TypeError)
    else match env.onContext(fn.id, chain)
      case Some(text) => Ok(text)
      case None => Err(Thrown)
  }

  /** A tag that is not a section. No partials are registered. */
  function TagText(env: Env, kind: Kind, value: JString, chain: seq<JsValue>): Result<JString, RenderError>
    requires chain != []
  {
    match kind
    case Unescaped => NameText(env, value, chain)
    case Name =>
      (match NameText(env, value, chain)
       case Ok(s) => Ok(EscapeHtml(s))
       case Err(e) => Err(e))
    case Partial => PartialText(env, value, chain)
    case _ => Ok([])
  }

  /** One piece of output after another; the first error wins. */
  function Join(a: Result<JString, RenderError>, b: Result<JString, RenderError>): Result<JString, RenderError> {
    if a.Err? then a else if b.Err? then b else Ok(a.value + b.value)
  }

  // ---- the direct reading -------------------------------------------------------------------------------------------

  /** How far the text of a section reaches: up to the close tag that is one too many. */
  function Extent(ps: seq<Piece>, depth: nat): (n: nat)
    ensures n <= |ps|
    decreases |ps|
  {
    if ps == [] then 0
    else if ps[0].Tag? && (ps[0].kind == Section || ps[0].kind == Inverted) then 1 + Extent(ps[1..], depth + 1)
    else if ps[0].Tag? && ps[0].kind == Close then if depth == 0 then 0 else 1 + Extent(ps[1..], depth - 1)
    else 1 + Extent(ps[1..], depth)
  }

  /** A section renders the text up to its close tag once for each scope; everything else is rendered as it comes. */
  function Interpret(env: Env, ps: seq<Piece>, chain: seq<JsValue>): Result<JString, RenderError>
    requires chain != []
    decreases |ps|, 0, 0
  {
    if ps == [] then Ok([])
    else if ps[0].Char? then Join(Ok([ps[0].c]), Interpret(env, ps[1..], chain))
    else if ps[0].kind == Section || ps[0].kind == Inverted then
      var n := Extent(ps[1..], 0);
      var body, rest := ps[1..][..n], ps[1..][n..];
      Join(InterpretBody(env, ps[0].kind, ps[0].value, body, chain),
          Interpret(env, if rest == [] then [] else rest[1..], chain))
    else Join(TagText(env, ps[0].kind, ps[0].value, chain), Interpret(env, ps[1..], chain))
  }

  function InterpretBody(env: Env, kind: Kind, name: JString, body: seq<Piece>, chain: seq<JsValue>)
    : Result<JString, RenderError>
    requires chain != [] && (kind == Section || kind == Inverted)
    decreases |body|, 2, 0
  {
    match Scopes(env, kind, name, chain)
    case Err(e) => Err(e)
    case Ok(scopes) => InterpretEach(env, body, scopes)
  }

  function InterpretEach(env: Env, body: seq<Piece>, scopes: seq<seq<JsValue>>): Result<JString, RenderError>
    requires forall i :: 0 <= i < |scopes| ==> scopes[i] != []
    decreases |body|, 1, |scopes|
  {
    if scopes == [] then Ok([])
    else Join(InterpretEach(env, body, scopes[..|scopes| - 1]), Interpret(env, body, scopes[|scopes| - 1]))
  }

  // ---- the compiled form --------------------------------------------------------------------------------------------

  /** What the function that compileTokens makes returns. */
  function RenderAll(env: Env, nodes: seq<Node>, chain: seq<JsValue>): Result<JString, RenderError>
    requires chain != []
    decreases nodes, 1, 0
  {
    if nodes == [] then Ok([])
    else Join(RenderAll(env, nodes[..|nodes| - 1], chain), RenderNode(env, nodes[|nodes| - 1], chain))
  }

  function RenderNode(env: Env, node: Node, chain: seq<JsValue>): Result<JString, RenderError>
    requires chain != []
    decreases node, 0, 0
  {
    match node
    case Leaf(t) => if t.kind == Literal then Ok(t.value) else TagText(env, t.kind, t.value, chain)
    case Branch(t, children) =>
      if Opens(t) then RenderSection(env, t.kind, t.value, children, chain) else Ok([])
  }

  function RenderSection(env: Env, kind: Kind, name: JString, nodes: seq<Node>, chain: seq<JsValue>)
    : Result<JString, RenderError>
    requires chain != [] && (kind == Section || kind == Inverted)
    decreases nodes, 3, 0
  {
    match Scopes(env, kind, name, chain)
    case Err(e) => Err(e)
    case Ok(scopes) => RenderEach(env, nodes, scopes)
  }

  function RenderEach(env: Env, nodes: seq<Node>, scopes: seq<seq<JsValue>>): Result<JString, RenderError>
    requires forall i :: 0 <= i < |scopes| ==> scopes[i] != []
    decreases nodes, 2, |scopes|
  {
    if scopes == [] then Ok([])
    else Join(RenderEach(env, nodes, scopes[..|scopes| - 1]), RenderAll(env, nodes, scopes[|scopes| - 1]))
  }

  // ---- both agree ---------------------------------------------------------------------------------------------------

  lemma JoinAssociates(a: Result<JString, RenderError>, b: Result<JString, RenderError>,
      c: Result<JString, RenderError>)
    ensures Join(Join(a, b), c) == Join(a, Join(b, c))
    ensures Join(Ok([]), b) == b && Join(b, Ok([])) == b
  {
    if a.Ok? && b.Ok? && c.Ok? {
      assert a.value + b.value + c.value == a.value + (b.value + c.value);
    }
    if b.Ok? {
      assert [] + b.value == b.value && b.value + [] == b.value;
    }
  }

  /** Text and other pieces that neither open nor close a section do not end one. */
  lemma {:induction false} ExtentOverPlain(ps: seq<Piece>, rest: seq<Piece>, depth: nat)
    requires forall i :: 0 <= i < |ps| ==> ps[i].Tag? ==> ps[i].kind !in {Section, Inverted, Close}
    ensures Extent(ps + rest, depth) == |ps| + Extent(rest, depth)
  {
    if ps == [] {
      assert ps + rest == rest;
    } else {
      assert (ps + rest)[1..] == ps[1..] + rest;
      ExtentOverPlain(ps[1..], rest, depth);
    }
  }

  /** A nested section does not end the one around it. */
  lemma {:induction false} ExtentOverNodes(nodes: seq<Node>, rest: seq<Piece>, depth: nat)
    requires Proper(nodes)
    ensures Extent(Pieces(Emit(nodes)) + rest, depth) == |Pieces(Emit(nodes))| + Extent(rest, depth)
    decreases nodes, 1
  {
    hide Extent, EmitNode, PiecesOf, ProperNode;
    if nodes == [] {
      assert Pieces(Emit(nodes)) + rest == rest;
    } else {
      var init, node := nodes[..|nodes| - 1], nodes[|nodes| - 1];
      PiecesConcat(Emit(init), EmitNode(node));
      var a, b := Pieces(Emit(init)), Pieces(EmitNode(node));
      assert a + b + rest == a + (b + rest);
      ExtentOverNodes(init, b + rest, depth);
      ExtentOverNode(node, rest, depth);
    }
  }

  lemma {:induction false} ExtentOverNode(node: Node, rest: seq<Piece>, depth: nat)
    requires ProperNode(node)
    ensures Extent(Pieces(EmitNode(node)) + rest, depth) == |Pieces(EmitNode(node))| + Extent(rest, depth)
    decreases node, 0
  {
    hide Emit, Extent, Pieces;
    match node
    case Leaf(t) =>
      PiecesOfOne(t);
      ExtentOverPlain(PiecesOf(t), rest, depth);
    case Branch(t, children) =>
      var body := Pieces(Emit(children));
      BranchPieces(t, children);
      ExtentOverNodes(children, [Tag(Close, t.value)] + rest, depth + 1);
      ExtentAt(t, body, rest, depth);
  }

  lemma PiecesOfOne(t: Token)
    ensures Pieces([t]) == PiecesOf(t)
  {
    assert [t][..0] == [] && Pieces([]) == [];
    assert [] + PiecesOf(t) == PiecesOf(t);
  }

  lemma {:induction false} BranchPieces(t: Token, children: seq<Node>)
    requires Opens(t)
    ensures Pieces(EmitNode(Branch(t, children))) ==
            [Tag(t.kind, t.value)] + Pieces(Emit(children)) + [Tag(Close, t.value)]
  {
    hide Emit, Pieces;
    var a, c := [t], [Closing(t.value)];
    PiecesConcat(a + Emit(children), c);
    PiecesConcat(a, Emit(children));
    PiecesOfOne(t);
    PiecesOfOne(Closing(t.value));
  }

  lemma ExtentAt(t: Token, body: seq<Piece>, rest: seq<Piece>, depth: nat)
    requires Opens(t)
    requires Extent(body + ([Tag(Close, t.value)] + rest), depth + 1) ==
             |body| + Extent([Tag(Close, t.value)] + rest, depth + 1)
    ensures Extent([Tag(t.kind, t.value)] + body + [Tag(Close, t.value)] + rest, depth) ==
            |body| + 2 + Extent(rest, depth)
  {
    var all := [Tag(t.kind, t.value)] + body + [Tag(Close, t.value)] + rest;
    assert all[1..] == body + ([Tag(Close, t.value)] + rest);
    assert ([Tag(Close, t.value)] + rest)[1..] == rest;
  }

  /** Characters are copied. */
  lemma {:induction false} InterpretChars(env: Env, s: JString, rest: seq<Piece>, chain: seq<JsValue>)
    requires chain != []
    ensures Interpret(env, Chars(s) + rest, chain) == Join(Ok(s), Interpret(env, rest, chain))
  {
    if s == [] {
      assert Chars(s) + rest == rest;
      JoinAssociates(Ok([]), Interpret(env, rest, chain), Ok([]));
    } else {
      assert (Chars(s) + rest)[1..] == Chars(s[1..]) + rest;
      InterpretChars(env, s[1..], rest, chain);
      JoinAssociates(Ok([s[0]]), Ok(s[1..]), Interpret(env, rest, chain));
      assert [s[0]] + s[1..] == s;
    }
  }

  /**
   * The direct reading of the tokens of a tree, followed by anything, is the tree's rendering followed by the rest's.
   */
  lemma {:induction false} InterpretNodes(env: Env, nodes: seq<Node>, rest: seq<Piece>, chain: seq<JsValue>)
    requires Proper(nodes) && chain != []
    ensures Interpret(env, Pieces(Emit(nodes)) + rest, chain) ==
            Join(RenderAll(env, nodes, chain), Interpret(env, rest, chain))
    decreases nodes, 1, 0
  {
    hide Interpret, RenderNode, EmitNode, Join, PiecesOf, ProperNode;
    var last := Interpret(env, rest, chain);
    if nodes == [] {
      assert Pieces(Emit(nodes)) + rest == rest;
      JoinAssociates(Ok([]), last, last);
    } else {
      var init, node := nodes[..|nodes| - 1], nodes[|nodes| - 1];
      var a, b := Pieces(Emit(init)), Pieces(EmitNode(node));
      PiecesConcat(Emit(init), EmitNode(node));
      assert a + b + rest == a + (b + rest);
      InterpretNodes(env, init, b + rest, chain);
      InterpretNode(env, node, rest, chain);
      JoinAssociates(RenderAll(env, init, chain), RenderNode(env, node, chain), last);
    }
  }

  lemma {:induction false} InterpretNode(env: Env, node: Node, rest: seq<Piece>, chain: seq<JsValue>)
    requires ProperNode(node) && chain != []
    ensures Interpret(env, Pieces(EmitNode(node)) + rest, chain) ==
            Join(RenderNode(env, node, chain), Interpret(env, rest, chain))
    decreases node, 0, 0
  {
    hide Interpret, Emit, Pieces, Join, Scopes, TagText;
    match node
    case Leaf(t) =>
      PiecesOfOne(t);
      if t.kind == Literal {
        InterpretChars(env, t.value, rest, chain);
      } else {
        InterpretTag(env, t, rest, chain);
      }
    case Branch(t, children) =>
      var body := Pieces(Emit(children));
      BranchPieces(t, children);
      ExtentOverNodes(children, [Tag(Close, t.value)] + rest, 0);
      InterpretSection(env, t, body, rest, chain);
      var scopes := Scopes(env, t.kind, t.value, chain);
      if scopes.Ok? {
        InterpretScopes(env, children, scopes.value);
      }
  }

  lemma InterpretTag(env: Env, t: Token, rest: seq<Piece>, chain: seq<JsValue>)
    requires chain != [] && !Opens(t) && t.kind != Literal
    ensures Interpret(env, PiecesOf(t) + rest, chain)
         == Join(TagText(env, t.kind, t.value, chain), Interpret(env, rest, chain))
  {
    hide TagText, Join;
    assert (PiecesOf(t) + rest)[1..] == rest;
  }

  lemma InterpretSection(env: Env, t: Token, body: seq<Piece>, rest: seq<Piece>, chain: seq<JsValue>)
    requires chain != [] && Opens(t)
    requires Extent(body + ([Tag(Close, t.value)] + rest), 0) == |body| + Extent([Tag(Close, t.value)] + rest, 0)
    ensures Interpret(env, [Tag(t.kind, t.value)] + body + [Tag(Close, t.value)] + rest, chain)
         == Join(InterpretBody(env, t.kind, t.value, body, chain), Interpret(env, rest, chain))
  {
    hide InterpretBody, Join;
    var close := [Tag(Close, t.value)];
    var all := [Tag(t.kind, t.value)] + body + close + rest;
    assert all[1..] == body + (close + rest);
    assert Extent(close + rest, 0) == 0;
    assert all[1..][..|body|] == body && all[1..][|body|..] == close + rest;
    assert (close + rest)[1..] == rest;
  }

  lemma {:induction false} InterpretScopes(env: Env, nodes: seq<Node>, scopes: seq<seq<JsValue>>)
    requires Proper(nodes) && forall i :: 0 <= i < |scopes| ==> scopes[i] != []
    ensures InterpretEach(env, Pieces(Emit(nodes)), scopes) == RenderEach(env, nodes, scopes)
    decreases nodes, 2, |scopes|
  {
    hide Interpret, RenderAll, Emit, Pieces, Join, Proper;
    if scopes != [] {
      var init, chain := scopes[..|scopes| - 1], scopes[|scopes| - 1];
      InterpretScopes(env, nodes, init);
      InterpretNodes(env, nodes, [], chain);
      InterpretNothing(env, chain);
      assert Pieces(Emit(nodes)) + [] == Pieces(Emit(nodes));
      JoinAssociates(Ok([]), RenderAll(env, nodes, chain), Ok([]));
    }
  }

  lemma InterpretNothing(env: Env, chain: seq<JsValue>)
    requires chain != []
    ensures Interpret(env, [], chain) == Ok([])
  {
  }

  /** The positions of close tags are no part of the text. */
  lemma {:induction false} PiecesOfBare(ts: seq<Token>)
    ensures Pieces(Bare(ts)) == Pieces(ts)
  {
    if ts != [] {
      var init := ts[..|ts| - 1];
      PiecesOfBare(init);
      assert Bare(ts)[..|init|] == Bare(init);
    }
  }

  /**
   * The passes keep the meaning: what the tree of the squashed tokens renders is what a direct reading of the
   * characters and tags before squashing gives, on every stack of views, errors included.
   */
  lemma {:induction false} CompilationKeepsMeaning(env: Env, ts: seq<Token>, tree: seq<Node>, chain: seq<JsValue>)
    requires Nest(Squash(ts)) == Ok(tree) && chain != []
    ensures RenderAll(env, tree, chain) == Interpret(env, Pieces(ts), chain)
  {
    hide Interpret, RenderAll, Emit, Pieces, Nest, Squash, Bare, Proper, Join;
    NestIffEmit(Squash(ts), tree);
    PiecesOfBare(Squash(ts));
    SquashKeepsPieces(ts);
    InterpretNodes(env, tree, [], chain);
    InterpretNothing(env, chain);
    assert Pieces(ts) + [] == Pieces(ts);
    JoinAssociates(Ok([]), RenderAll(env, tree, chain), Ok([]));
  }

  // ---- escaping and splitting, undone -------------------------------------------------------------------------------

  /** The characters that escapeHtml replaces. */
  const ENTITIES: seq<Unit> := [38, 60, 62, 34, 39, 47]

  /** The first replaced character, from position `i` of the list on, whose entity the text begins with. */
  function EntityAt(s: JString, i: nat): (c: Option<Unit>)
    requires i <= |ENTITIES|
    ensures c.Some? ==> StartsWith(s, Entity(c.value)) && |Entity(c.value)| > 0
    decreases |ENTITIES| - i
  {
    if i == |ENTITIES| then None
    else if StartsWith(s, Entity(ENTITIES[i])) then Some(ENTITIES[i])
    else EntityAt(s, i + 1)
  }

  /** Reads the six entities back. */
  function UnescapeHtml(s: JString): JString
    decreases |s|
  {
    if s == [] then []
    else match EntityAt(s, 0) {
      case Some(c) => [c] + UnescapeHtml(s[|Entity(c)|..])
      case None => [s[0]] + UnescapeHtml(s[1..])
    }
  }

  function EscapeFront(s: JString): JString {
    if s == [] then [] else Entity(s[0]) + EscapeFront(s[1..])
  }

  lemma {:induction false} EscapeFromFront(s: JString, t: JString)
    ensures EscapeHtml(s) + EscapeFront(t) == EscapeHtml(s + t)
    decreases |t|
  {
    hide Entity;
    if t == [] {
      assert s + t == s;
    } else {
      var st := s + [t[0]];
      assert st[..|s|] == s && st + t[1..] == s + t;
      EscapeFromFront(st, t[1..]);
    }
  }

  /** An entity tells which character it stands for, whatever follows it. */
  lemma EntityIsRead(c: Unit, rest: JString)
    ensures EntityAt(Entity(c) + rest, 0) == if c in ENTITIES then Some(c) else None
  {
    var s := Entity(c) + rest;
    assert s[0] == Entity(c)[0] && (|Entity(c)| > 1 ==> s[1] == Entity(c)[1])
           && (|Entity(c)| > 2 ==> s[2] == Entity(c)[2]);
    forall d | d in ENTITIES ensures StartsWith(s, Entity(d)) <==> d == c {
      if d == c {
        assert s[..|Entity(d)|] == Entity(d);
      } else {
        NoOtherEntity(c, d, s);
      }
    }
    EntityAtOnly(s, c, 0);
  }

  lemma NoOtherEntity(c: Unit, d: Unit, s: JString)
    requires d in ENTITIES && c != d && |s| > 0 && s[0] == Entity(c)[0]
    requires |Entity(c)| > 1 ==> |s| > 2 && s[1] == Entity(c)[1] && s[2] == Entity(c)[2]
    requires |Entity(c)| > 3 ==> |s| > 3 && s[3] == Entity(c)[3]
    ensures !StartsWith(s, Entity(d))
  {
  }

  lemma {:induction false} EntityAtOnly(s: JString, c: Unit, i: nat)
    requires i <= |ENTITIES| && forall d :: d in ENTITIES ==> (StartsWith(s, Entity(d)) <==> d == c)
    ensures EntityAt(s, i) == if c in ENTITIES[i..] then Some(c) else None
    decreases |ENTITIES| - i
  {
    if i < |ENTITIES| {
      EntityAtOnly(s, c, i + 1);
    }
  }

  lemma {:induction false} UnescapeFront(s: JString)
    ensures UnescapeHtml(EscapeFront(s)) == s
  {
    hide Entity, EntityAt;
    if s != [] {
      var rest := EscapeFront(s[1..]);
      EntityIsRead(s[0], rest);
      EntityLength(s[0]);
      assert (Entity(s[0]) + rest)[|Entity(s[0])|..] == rest;
      UnescapeFront(s[1..]);
    }
  }

  lemma EntityLength(c: Unit)
    ensures |Entity(c)| > 0 && (c !in ENTITIES ==> Entity(c) == [c])
    ensures forall d :: d in {60, 62, 34, 39, 47} ==> d !in Entity(c)
  {
  }

  lemma {:induction false} EscapedIsPlain(s: JString)
    ensures forall d :: d in {60, 62, 34, 39, 47} ==> d !in EscapeHtml(s)
  {
    hide Entity;
    if s != [] {
      EscapedIsPlain(s[..|s| - 1]);
      EntityLength(s[|s| - 1]);
    }
  }

  /** escapeHtml loses nothing, and leaves none of the characters < > " ' and / behind. */
  lemma EscapeIsUndone(s: JString)
    ensures UnescapeHtml(EscapeHtml(s)) == s
    ensures forall c :: c in {60, 62, 34, 39, 47} ==> c !in EscapeHtml(s)
  {
    hide Entity, UnescapeHtml;
    EscapeFromFront([], s);
    assert [] + s == s && EscapeHtml([]) + EscapeFront(s) == EscapeFront(s);
    UnescapeFront(s);
    EscapedIsPlain(s);
  }

  function JoinDots(parts: seq<JString>): JString
    requires parts != []
  {
    if |parts| == 1 then parts[0] else JoinDots(parts[..|parts| - 1]) + [DOT] + parts[|parts| - 1]
  }

  lemma JoinDotsStep(parts: seq<JString>, part: JString)
    requires parts != []
    ensures JoinDots(parts + [part]) == JoinDots(parts) + [DOT] + part
  {
    assert (parts + [part])[..|parts|] == parts;
  }

  lemma JoinDotsGrows(parts: seq<JString>, c: Unit)
    requires parts != []
    ensures var last := |parts| - 1; JoinDots(parts[last := parts[last] + [c]]) == JoinDots(parts) + [c]
  {
    var last := |parts| - 1;
    assert parts[last := parts[last] + [c]][..last] == parts[..last];
  }

  /** Splitting a dotted name: the parts have no dots, and joined by dots they are the name. */
  lemma {:induction false} SplitIsUndone(name: JString)
    ensures JoinDots(Split(name)) == name && forall part :: part in Split(name) ==> DOT !in part
  {
    if name != [] {
      var init, c := name[..|name| - 1], name[|name| - 1];
      SplitIsUndone(init);
      assert name == init + [c];
      JoinDotsStep(Split(init), []);
      JoinDotsGrows(Split(init), c);
      hide JoinDots;
    }
  }
}
