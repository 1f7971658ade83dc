/**
 * mustache.js: the objects behind a rendering: contexts with their lookup caches, and compiled sections with their memo
 * tables.
 */
module MustacheContext {
  import opened Common
  import opened JavaText
  import opened MustacheTokens
  import opened MustacheRender

  class Context {
    const view: JsValue
    const parent: Context?
    /** The views from this one outwards. */
    const chain: seq<JsValue>
    var cache: map<JString, JsValue>

    constructor (view: JsValue, parent: Context?)
      requires parent != null ==> parent.Linked()
      ensures this.view == view && this.parent == parent && cache == map[]
      ensures Linked() && chain == [view] + if parent == null then [] else parent.chain
    {
      this.view := view;
      this.parent := parent;
      chain := [view] + if parent == null then [] else parent.chain;
      cache := map[];
      new;
      assert parent != null ==> chain[1..] == parent.chain;
    }

    ghost predicate Linked()
      decreases |chain|
    {
      && chain != [] && chain[0] == view
      && (parent == null ==> |chain| == 1)
      && (parent != null ==> |chain| > 1 && parent.chain == chain[1..] && parent.Linked())
    }

    /** Whatever the cache holds is what a search would find. */
    ghost predicate Coherent(env: Env)
      reads this
    {
      Linked() && forall n :: n in cache ==> !Truthy(env.inherited(n)) && Find(env, chain, n) == Ok(cache[n])
    }

    lemma CoherentIsLinked(env: Env)
      requires Coherent(env)
      ensures Linked() && chain != []
    {
    }

    /** `lookup`: the cache changes nothing but the effort. */
    method Lookup(env: Env, name: JString) returns (r: Result<JsValue, RenderError>)
      requires Coherent(env)
      modifies this`cache
      ensures Coherent(env) && r == MustacheRender.Lookup(env, chain, name)
    {
      hide Search, Truthy, Walk;
      var value := if name in cache then cache[name] else env.inherited(name);
      if !Truthy(value) {
        if name == [DOT] {
          value := view;
        } else {
          var found := SearchUp(env, name);
          if found.Err? {
            return found;
          }
          value := found.value;
        }
        cache := cache[name := value];
      }
      return Ok(if value.Function? then env.call(value.id, view) else value);
    }

    /** The loop over the parents. */
    method SearchUp(env: Env, name: JString) returns (r: Result<JsValue, RenderError>)
      requires Linked()
      ensures r == Search(env, chain, name)
    {
      hide Walk, Split;
      var context: Context? := this;
      var value := Undefined;
      while context != null
        invariant context != null ==> context.Linked() && Search(env, context.chain, name) == Search(env, chain, name)
        invariant context == null ==> Search(env, chain, name) == Ok(value)
        decreases if context == null then 0 else |context.chain|
      {
        if Dotted(name) {
          value := WalkIn(env, context.view, Split(name));
        } else {
          if Nullish(context.view) {
            return Err(TypeError);
          }
          value := env.get(context.view, name);
        }
        if !Nullish(value) {
          break;
        }
        context := context.parent;
      }
      return Ok(value);
    }

    /** The inner loop, through the parts of a dotted name. */
    static method WalkIn(env: Env, view: JsValue, names: seq<JString>) returns (value: JsValue)
      ensures value == Walk(env, view, names)
    {
      hide Truthy;
      value := view;
      var i := 0;
      while Truthy(value) && i < |names|
        invariant i <= |names| && Walk(env, value, names[i..]) == Walk(env, view, names)
      {
        assert names[i..][1..] == names[i + 1..];
        value := env.get(value, names[i]);
        i := i + 1;
      }
    }
  }

  /** What compileTokens(tokens) returns: a function with its table `subRenders`. */
  class Renderer {
    const tokens: seq<Node>
    var subRenders: map<nat, Renderer>

    constructor (tokens: seq<Node>)
      ensures this.tokens == tokens && subRenders == map[]
    {
      this.tokens := tokens;
      subRenders := map[];
    }

    /** The function for the section at position `i`, made at the first request. */
    method SubRender(i: nat, children: seq<Node>, ghost rs: set<Renderer>)
      returns (fn: Renderer, ghost more: set<Renderer>)
      requires Sound(rs) && this in rs && i < |tokens| && tokens[i].Branch? && children == tokens[i].children
      modifies this
      ensures rs <= more && fresh(more - rs) && Sound(more) && fn in more && fn.tokens == children
    {
      more := rs;
      if i !in subRenders {
        fn := new Renderer(children);
        more := rs + {fn};
        subRenders := subRenders[i := fn];
      } else {
        fn := subRenders[i];
      }
    }

    /** The compiled function, called. */
    method Call(env: Env, context: Context, ghost rs: set<Renderer>)
      returns (r: Result<JString, RenderError>, ghost more: set<Renderer>)
      requires Sound(rs) && this in rs && context.Coherent(env)
      modifies rs, context`cache
      ensures rs <= more && fresh(more - rs) && Sound(more) && context.Coherent(env)
      ensures r == RenderAll(env, tokens, context.chain)
      decreases tokens, 0, 0
    {
      hide RenderAll, RenderNode, Join, Context.Coherent, Sound;
      more := rs;
      var buffer: JString := [];
      context.CoherentIsLinked(env);
      RenderNothing(env, context.chain);
      for i := 0 to |tokens|
        invariant rs <= more && fresh(more - rs) && Sound(more) && context.Coherent(env)
        invariant RenderAll(env, tokens[..i], context.chain) == Ok(buffer)
      {
        var token := tokens[i];
        var piece: Result<JString, RenderError>;
        piece, more := CallOn(env, i, context, more);
        RenderSnoc(env, tokens, i, context.chain);
        RenderFails(env, tokens, i + 1, context.chain);
        if piece.Err? {
          return piece, more;
        }
        buffer := buffer + piece.value;
      }
      assert tokens[..|tokens|] == tokens;
      r := Ok(buffer);
    }

    /** The switch over one token. */
    method CallOn(env: Env, i: nat, context: Context, ghost rs: set<Renderer>)
      returns (r: Result<JString, RenderError>, ghost more: set<Renderer>)
      requires Sound(rs) && this in rs && context.Coherent(env) && i < |tokens|
      modifies rs, context`cache
      ensures rs <= more && fresh(more - rs) && Sound(more) && context.Coherent(env)
      ensures r == RenderNode(env, tokens[i], context.chain)
      decreases tokens[i], 2, 0
    {
      hide Sound, Context.Coherent, EscapeHtml;
      more := rs;
      var node := tokens[i];
      match node
      case Branch(token, children) =>
        var fn: Renderer;
        fn, more := SubRender(i, children, rs);
        match token.kind {
          case Section => r, more := fn.Section(env, token.value, context, more);
          case Inverted => r, more := fn.Inverted(env, token.value, context, more);
          case _ => r := Ok([]);
        }
      case Leaf(token) =>
        match token.kind {
          case Unescaped => r := NameOf(env, token.value, context);
          case Name => r := Escaped(env, token.value, context);
          case Partial => r := PartialOf(env, token.value, context);
          case Literal => r := Ok(token.value);
          case _ => r := Ok([]);
        }
    }

    /** `_section`, with this function as its callback. */
    method Section(env: Env, name: JString, context: Context, ghost rs: set<Renderer>)
      returns (r: Result<JString, RenderError>, ghost more: set<Renderer>)
      requires Sound(rs) && this in rs && context.Coherent(env)
      modifies rs, context`cache
      ensures rs <= more && fresh(more - rs) && Sound(more) && context.Coherent(env)
      ensures r == RenderSection(env, MustacheTokens.Section, name, tokens, context.chain)
      decreases tokens, 2, 0
    {
      hide Sound, RenderAll, Lookup;
      more := rs;
      var value := context.Lookup(env, name);
      if value.Err? {
        return Err(value.error), more;
      }
      var v := value.value;
      if v.Array? {
        r, more := Each(env, v.items, context, rs);
      } else if v.Object? {
        var inner := new Context(v, context);
        r, more := Call(env, inner, rs);
        EachOnce(env, tokens, inner.chain);
      } else if v.Function? {
        r := Err(SectionLambda);
      } else if Truthy(v) {
        r, more := Call(env, context, rs);
        EachOnce(env, tokens, context.chain);
      } else {
        r := Ok([]);
      }
    }

    /** The loop over the items of an array. */
    method Each(env: Env, items: seq<JsValue>, context: Context, ghost rs: set<Renderer>)
      returns (r: Result<JString, RenderError>, ghost more: set<Renderer>)
      requires Sound(rs) && this in rs && context.Coherent(env)
      modifies rs
      ensures rs <= more && fresh(more - rs) && Sound(more)
      ensures r == RenderEach(env, tokens, Views(context.chain, items))
      decreases tokens, 1, 0
    {
      hide Sound, RenderAll, Join;
      more := rs;
      var buffer: JString := [];
      ghost var scopes := Views(context.chain, items);
      for i := 0 to |items|
        invariant rs <= more && fresh(more - rs) && Sound(more)
        invariant RenderEach(env, tokens, scopes[..i]) == Ok(buffer)
      {
        var inner := new Context(items[i], context);
        var piece: Result<JString, RenderError>;
        piece, more := Call(env, inner, more);
        EachSnoc(env, tokens, scopes, i);
        EachFails(env, tokens, scopes, i + 1);
        if piece.Err? {
          return piece, more;
        }
        buffer := buffer + piece.value;
      }
      assert scopes[..|items|] == scopes;
      r := Ok(buffer);
    }

    /** `_inverted`, with this function as its callback. */
    method Inverted(env: Env, name: JString, context: Context, ghost rs: set<Renderer>)
      returns (r: Result<JString, RenderError>, ghost more: set<Renderer>)
      requires Sound(rs) && this in rs && context.Coherent(env)
      modifies rs, context`cache
      ensures rs <= more && fresh(more - rs) && Sound(more) && context.Coherent(env)
      ensures r == RenderSection(env, MustacheTokens.Inverted, name, tokens, context.chain)
      decreases tokens, 2, 0
    {
      hide Sound, RenderAll, Lookup;
      more := rs;
      var value := context.Lookup(env, name);
      if value.Err? {
        return Err(value.error), more;
      }
      var v := value.value;
      if !Truthy(v) || (v.Array? && |v.items| == 0) {
        r, more := Call(env, context, rs);
        EachOnce(env, tokens, context.chain);
      } else {
        r := Ok([]);
      }
    }

    static method NameOf(env: Env, name: JString, context: Context) returns (r: Result<JString, RenderError>)
      requires context.Coherent(env)
      modifies context`cache
      ensures context.Coherent(env) && r == NameText(env, name, context.chain)
    {
      hide Lookup;
      var value := context.Lookup(env, name);
      if value.Err? {
        return Err(value.error);
      }
      var v := value.value;
      if v.Function? {
        v := env.call(v.id, context.view);
      }
      return Ok(if Nullish(v) then [] else env.show(v));
    }

    /** `_partial`, with the table of partials empty. */
    static method PartialOf(env: Env, name: JString, context: Context) returns (r: Result<JString, RenderError>)
      requires context.Coherent(env)
      ensures r == TagText(env, Partial, name, context.chain)
    {
      var fn := env.inherited(name);
      if !Truthy(fn) {
        return Ok([]);
      }
      if !fn.Function? {
        return Err(TypeError);
      }
      var text := env.onContext(fn.id, context.chain);
      return if text.Some? then Ok(text.value) else Err(Thrown);
    }

    static method Escaped(env: Env, name: JString, context: Context) returns (r: Result<JString, RenderError>)
      requires context.Coherent(env)
      modifies context`cache
      ensures context.Coherent(env) && r == TagText(env, Kind.Name, name, context.chain)
    {
      hide Lookup;
      var text := NameOf(env, name, context);
      return if text.Ok? then Ok(EscapeHtml(text.value)) else text;
    }
  }

  /** Every entry of a memo table renders the section it stands for, and keeps to the same rules. */
  ghost predicate Sound(rs: set<Renderer>)
    reads rs
  {
    forall r, i :: r in rs && i in r.subRenders ==>
      i < |r.tokens| && r.tokens[i].Branch? && r.subRenders[i] in rs && r.subRenders[i].tokens == r.tokens[i].children
  }

  lemma RenderNothing(env: Env, chain: seq<JsValue>)
    requires chain != []
    ensures RenderAll(env, [], chain) == Ok([])
  {
  }

  lemma RenderSnoc(env: Env, nodes: seq<Node>, i: nat, chain: seq<JsValue>)
    requires chain != [] && i < |nodes|
    ensures RenderAll(env, nodes[..i + 1], chain) ==
            Join(RenderAll(env, nodes[..i], chain), RenderNode(env, nodes[i], chain))
    ensures RenderAll(env, nodes[..i], chain).Ok? ==>
              RenderAll(env, nodes[..i + 1], chain) ==
              var a, b := RenderAll(env, nodes[..i], chain), RenderNode(env, nodes[i], chain);
              if b.Err? then b else Ok(a.value + b.value)
  {
    assert nodes[..i + 1][..i] == nodes[..i];
  }

  /** The first error is the result. */
  lemma {:induction false} RenderFails(env: Env, nodes: seq<Node>, i: nat, chain: seq<JsValue>)
    requires chain != [] && i <= |nodes|
    ensures RenderAll(env, nodes[..i], chain).Err? ==> RenderAll(env, nodes, chain) == RenderAll(env, nodes[..i], chain)
    decreases |nodes|
  {
    hide RenderNode;
    if i == |nodes| {
      assert nodes[..i] == nodes;
    } else {
      assert nodes[..|nodes| - 1][..i] == nodes[..i];
      RenderFails(env, nodes[..|nodes| - 1], i, chain);
    }
  }

  lemma EachSnoc(env: Env, nodes: seq<Node>, scopes: seq<seq<JsValue>>, i: nat)
    requires i < |scopes| && forall k :: 0 <= k < |scopes| ==> scopes[k] != []
    ensures RenderEach(env, nodes, scopes[..i]).Ok? ==>
              RenderEach(env, nodes, scopes[..i + 1]) ==
              var a, b := RenderEach(env, nodes, scopes[..i]), RenderAll(env, nodes, scopes[i]);
              if b.Err? then b else Ok(a.value + b.value)
  {
    hide RenderAll;
    assert scopes[..i + 1][..i] == scopes[..i];
  }

  lemma {:induction false} EachFails(env: Env, nodes: seq<Node>, scopes: seq<seq<JsValue>>, i: nat)
    requires i <= |scopes| && forall k :: 0 <= k < |scopes| ==> scopes[k] != []
    ensures RenderEach(env, nodes, scopes[..i]).Err? ==>
            RenderEach(env, nodes, scopes) == RenderEach(env, nodes, scopes[..i])
    decreases |scopes|
  {
    hide RenderAll;
    if i == |scopes| {
      assert scopes[..i] == scopes;
    } else {
      assert scopes[..|scopes| - 1][..i] == scopes[..i];
      EachFails(env, nodes, scopes[..|scopes| - 1], i);
    }
  }

  lemma EachOnce(env: Env, nodes: seq<Node>, chain: seq<JsValue>)
    requires chain != []
    ensures RenderEach(env, nodes, [chain]) == RenderAll(env, nodes, chain)
    ensures RenderEach(env, nodes, []) == Ok([])
  {
    hide RenderAll;
    var none: seq<seq<JsValue>> := [];
    assert [chain][..0] == none;
    JoinAssociates(Ok([]), RenderAll(env, nodes, chain), Ok([]));
  }
}
