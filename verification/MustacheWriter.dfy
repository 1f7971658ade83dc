/** mustache.js: Writer.compile and Writer.render, with the cache of compiled templates. */
module MustacheWriter {
  import opened Common
  import opened JavaText
  import opened MustacheTokens
  import opened MustacheRender
  import opened MustacheScanner
  import opened MustacheLines
  import opened MustacheContext
  import opened MustacheParse
  import opened MustacheMeaning

  /** A call of `compile`. */
  datatype Request = Request(template: JString, tags: seq<JString>)

  /** The default of `exports.tags`. */
  const DEFAULT_TAGS: seq<JString> := [Text("{{"), Text("}}")]

  /** What `compile` returns: a tree to render, or what an empty object inherits under the template's text. */
  datatype Compiled = Tree(nodes: seq<Node>) | Inherited

  /** `compile` on the cache: the key is the template alone. `inherits` tells which names every object answers to. */
  function CompileOn(inherits: JString -> bool, cache: map<JString, seq<Node>>, r: Request)
    : Result<Compiled, ParseError>
  {
    if r.template in cache then Ok(Tree(cache[r.template]))
    else if inherits(r.template) then Ok(Inherited)
    else match Parse(r.template, r.tags) {
      case Ok(tree) => Ok(Tree(tree))
      case Err(e) => Err(e)
    }
  }

  function CacheAfter(inherits: JString -> bool, cache: map<JString, seq<Node>>, r: Request): map<JString, seq<Node>> {
    match CompileOn(inherits, cache, r)
    case Ok(Tree(nodes)) => cache[r.template := nodes]
    case _ => cache
  }

  /** The cache after a series of calls on a new writer. */
  function CacheOf(inherits: JString -> bool, requests: seq<Request>): map<JString, seq<Node>> {
    if requests == [] then map[]
    else CacheAfter(inherits, CacheOf(inherits, requests[..|requests| - 1]), requests[|requests| - 1])
  }

  /** The tags of the first call that could parse the template. */
  function FirstTags(requests: seq<Request>, template: JString): Option<seq<JString>> {
    if requests == [] then None
    else
      var earlier, r := FirstTags(requests[..|requests| - 1], template), requests[|requests| - 1];
      if earlier.Some? then earlier
      else if r.template == template && Parse(template, r.tags).Ok? then Some(r.tags)
      else None
  }

  /**
   * The cache holds, for each template, the tree the first successful call made of it; inherited names never get in.
   */
  lemma {:induction false} CacheHoldsFirst(inherits: JString -> bool, requests: seq<Request>, template: JString)
    ensures var cache, first := CacheOf(inherits, requests), FirstTags(requests, template);
            && (template in cache <==> first.Some? && !inherits(template))
            && (template in cache ==> Parse(template, first.value) == Ok(cache[template]))
  {
    hide Parse;
    if requests != [] {
      CacheHoldsFirst(inherits, requests[..|requests| - 1], template);
    }
  }

  /** What the call asks for: the template's own tree under its own tags. */
  function Wanted(r: Request): Result<Compiled, ParseError> {
    match Parse(r.template, r.tags)
    case Ok(tree) => Ok(Tree(tree))
    case Err(e) => Err(e)
  }

  /**
   * Whatever was compiled before, `compile` gives what the call asks for if and only if the template is no name that
   * every object inherits, and the first tags the template could be parsed with lead to the same result.
   */
  lemma {:induction false} CompileIsRightIff(inherits: JString -> bool, requests: seq<Request>, r: Request)
    ensures CompileOn(inherits, CacheOf(inherits, requests), r) == Wanted(r)
       <==> (!inherits(r.template)
             && var first := FirstTags(requests, r.template);
                first.Some? ==> Parse(r.template, first.value) == Parse(r.template, r.tags))
  {
    hide Parse;
    CacheHoldsFirst(inherits, requests, r.template);
  }

  lemma {:induction false} FirstTagsWereGiven(requests: seq<Request>, template: JString)
    ensures var first := FirstTags(requests, template);
            first.Some? ==> exists i :: 0 <= i < |requests| && requests[i] == Request(template, first.value)
  {
    hide Parse;
    if requests != [] {
      var init := requests[..|requests| - 1];
      FirstTagsWereGiven(init, template);
      var first := FirstTags(init, template);
      if first.Some? {
        var i :| 0 <= i < |init| && init[i] == Request(template, first.value);
        assert requests[i] == Request(template, first.value);
      } else {
        assert requests[|requests| - 1] == Request(requests[|requests| - 1].template, requests[|requests| - 1].tags);
      }
    }
  }

  /** With one pair of tags for all calls, as `render` uses it, the cache never shows. */
  lemma OneTagsNeverShows(inherits: JString -> bool, requests: seq<Request>, r: Request)
    requires !inherits(r.template) && forall i :: 0 <= i < |requests| ==> requests[i].tags == r.tags
    ensures CompileOn(inherits, CacheOf(inherits, requests), r) == Wanted(r)
  {
    hide Parse;
    FirstTagsWereGiven(requests, r.template);
    CompileIsRightIff(inherits, requests, r);
  }

  const BRACES: JString := Text("{{}}")
  const ANGLE_TAGS: seq<JString> := [Text("<%"), Text("%>")]

  /** The key omits the tags: a template compiled with other tags first keeps what those made of it. */
  lemma TagsAreForgotten(inherits: JString -> bool)
    requires !inherits(BRACES)
    ensures CompileOn(inherits, CacheOf(inherits, [Request(BRACES, ANGLE_TAGS)]), Request(BRACES, DEFAULT_TAGS))
         != Wanted(Request(BRACES, DEFAULT_TAGS))
  {
    hide Parse, Text;
    var requests := [Request(BRACES, ANGLE_TAGS)];
    TagsMatter();
    assert requests[..0] == [] && FirstTags([], BRACES) == None;
    CompileIsRightIff(inherits, requests, Request(BRACES, DEFAULT_TAGS));
  }

  const NOTHING: Env := Env((_, _) => Undefined, (_, _) => Undefined, _ => [], _ => Undefined, (_, _) => None)

  /** With angle tags the braces are text; with the default tags they are a tag, and looking it up fails on no view. */
  lemma TagsMatter()
    ensures Parse(BRACES, ANGLE_TAGS).Ok? && Parse(BRACES, DEFAULT_TAGS) != Parse(BRACES, ANGLE_TAGS)
  {
    hide Parse, RenderAll, Raw, Strip, Interpret, Pieces, StartsWith, Text;
    var angle, default := Tags(ANGLE_TAGS[0], ANGLE_TAGS[1]), Tags(DEFAULT_TAGS[0], DEFAULT_TAGS[1]);
    NoAngles();
    assert ANGLE_TAGS == [angle.open, angle.close] && DEFAULT_TAGS == [default.open, default.close];
    PlainTextIsKept(NOTHING, BRACES, angle, [Undefined]);
    var r := Parse(BRACES, DEFAULT_TAGS);
    if r.Ok? {
      ParseKeepsMeaning(NOTHING, BRACES, default, r.value, [Undefined]);
      BracesAreTag();
      OneTagFails(Token(Name, [], 0, 4));
    }
  }

  lemma NoAngles()
    ensures ANGLE_TAGS[0] != [] && forall q :: 0 <= q < |BRACES| ==> !StartsWith(BRACES[q..], ANGLE_TAGS[0])
  {
    forall q | 0 <= q < |BRACES| ensures !StartsWith(BRACES[q..], ANGLE_TAGS[0]) {
      assert BRACES[q] != ANGLE_TAGS[0][0];
    }
  }

  lemma BracesAreTag()
    ensures Raw(BRACES, 0, Tags(DEFAULT_TAGS[0], DEFAULT_TAGS[1])) == Ok([Token(Name, [], 0, 4)])
  {
    hide HereAt, UntilAt, ReadTag, Text;
    var tags := Tags(DEFAULT_TAGS[0], DEFAULT_TAGS[1]);
    BracesScan();
    BracesRead(tags);
    assert Characters(BRACES, 0, 0) + [Token(Name, [], 0, 4)] == [Token(Name, [], 0, 4)];
    assert OneRound(BRACES, 0, tags) == Go([Token(Name, [], 0, 4)], 4, tags);
    assert Raw(BRACES, 4, tags) == Ok([]);
    assert [Token(Name, [], 0, 4)] + [] == [Token(Name, [], 0, 4)];
  }

  lemma BracesRead(tags: Tags)
    requires tags == Tags(DEFAULT_TAGS[0], DEFAULT_TAGS[1])
    ensures |BRACES| == 4 && ReadTag(BRACES, 2, tags) == Ok(TagRead(Name, [], 4))
  {
    hide HereAt, UntilAt, Text;
    BracesScan();
    var none: Option<Unit> := None;
    assert ValueEnd(none, tags) == Closing(tags.close) && Behind(none, BRACES, 2, tags) == 2;
    assert BRACES[2..2] == [];
  }

  lemma BracesScan()
    ensures var open, close := DEFAULT_TAGS[0], DEFAULT_TAGS[1];
            && UntilAt(Opening(open), BRACES, 0) == 0 && HereAt(Opening(open), BRACES, 0) == 2
            && HereAt(Sigil, BRACES, 2) == 0 && HereAt(Blank, BRACES, 2) == 0
            && UntilAt(Closing(close), BRACES, 2) == 0 && HereAt(Closing(close), BRACES, 2) == 2
  {
    var open, close := DEFAULT_TAGS[0], DEFAULT_TAGS[1];
    var rest := BRACES[2..];
    assert BRACES[0..] == BRACES && BRACES[..2] == open;
    assert rest[0] !in SIGILS;
    assert rest[..2] == close && rest[0..] == rest && rest[0] == 125 && !White(rest[0]);
    assert Blanks(rest) == 0 && Backtrack(rest, close, 0) == Some(0);
  }

  lemma OneTagFails(t: Token)
    requires t.kind == Name && t.value == []
    ensures Interpret(NOTHING, Pieces(Strip([t])), [Undefined]).Err?
  {
    StripShort([t]);
    PiecesOfOne(t);
    assert PiecesOf(t) == [Tag(Name, [])];
    assert Search(NOTHING, [Undefined], []) == Err(TypeError);
  }

  // ---- the object ---------------------------------------------------------------------------------------------------

  datatype Outcome =
    | Output(text: JString)
    | ParseFailed(reason: ParseError)
    | RenderFailed(cause: RenderError)
    | CalledInherited   // an inherited function is called with the view instead

  /** What `render` should return: the template parsed with the default tags, rendered on the view. */
  function Rendered(env: Env, template: JString, view: JsValue): Outcome {
    match Parse(template, DEFAULT_TAGS)
    case Err(e) => ParseFailed(e)
    case Ok(tree) =>
      match RenderAll(env, tree, [view])
      case Ok(text) => Output(text)
      case Err(e) => RenderFailed(e)
  }

  class Writer {
    var cache: map<JString, Renderer>
    ghost var renderers: set<Renderer>

    ghost predicate Valid()
      reads this, renderers
    {
      Sound(renderers) && forall t :: t in cache ==> cache[t] in renderers
    }

    ghost function Trees(): map<JString, seq<Node>>
      reads this
    {
      map t | t in cache :: cache[t].tokens
    }

    constructor ()
      ensures Valid() && renderers == {} && Trees() == map[]
    {
      cache := map[];
      renderers := {};
    }

    /** None stands for the inherited function. */
    method Compile(inherits: JString -> bool, template: JString, tags: seq<JString>)
      returns (r: Result<Option<Renderer>, ParseError>)
      requires Valid()
      modifies this
      ensures Valid() && fresh(renderers - old(renderers)) && old(renderers) <= renderers
      ensures Trees() == CacheAfter(inherits, old(Trees()), Request(template, tags))
      ensures match CompileOn(inherits, old(Trees()), Request(template, tags))
              case Ok(Tree(nodes)) =>
                r.Ok? && r.value.Some? && r.value.value in renderers && r.value.value.tokens == nodes
              case Ok(Inherited) => r == Ok(None)
              case Err(e) => r == Err(e)
    {
      hide Parse;
      if template in cache {
        return Ok(Some(cache[template]));
      }
      if inherits(template) {
        return Ok(None);
      }
      var tokens := ParseTemplate(template, tags);
      if tokens.Err? {
        return Err(tokens.error);
      }
      var fn := new Renderer(tokens.value);
      renderers := renderers + {fn};
      cache := cache[template := fn];
      return Ok(Some(fn));
    }

    /** `render` without partials, on a writer that has only ever used the default tags. */
    method Render(env: Env, inherits: JString -> bool, template: JString, view: JsValue) returns (r: Outcome)
      requires Valid() && forall t :: t in Trees() ==> !inherits(t) && Parse(t, DEFAULT_TAGS) == Ok(Trees()[t])
      modifies this, renderers
      ensures Valid() && fresh(renderers - old(renderers)) && old(renderers) <= renderers
      ensures forall t :: t in Trees() ==> !inherits(t) && Parse(t, DEFAULT_TAGS) == Ok(Trees()[t])
      ensures r == if inherits(template) then CalledInherited else Rendered(env, template, view)
    {
      hide Parse, RenderAll, Sound;
      var fn := Compile(inherits, template, DEFAULT_TAGS);
      if fn.Err? {
        return ParseFailed(fn.error);
      }
      if fn.value.None? {
        return CalledInherited;
      }
      var context := new Context(view, null);
      ghost var trees := Trees();
      ghost var more;
      var text;
      text, more := fn.value.value.Call(env, context, renderers);
      renderers := more;
      assert Trees() == trees;
      assert context.chain == [view];
      return if text.Ok? then Output(text.value) else RenderFailed(text.error);
    }
  }
}
