/** What a header table means: a sequence of fields in insertion order, looked up by name without regard to case. */
module HeaderFields {
  import opened Common
  import opened JavaText
  import opened HeaderNames

  datatype Field = Field(name: JString, value: JString)

  type Fields = seq<Field>

  /** The name and value checks of HttpCodecUtil, which is not part of this model. A null value never passes. */
  datatype Validator = Validator(nameOk: JString -> bool, valueOk: JString -> bool)
  {
    predicate Accepts(value: Option<JString>) {
      value.Some? && valueOk(value.value)
    }
  }

  datatype Outcome = Done | Rejected

  /** The fields whose name is not `name`, in order. */
  function Without(fs: Fields, name: JString): Fields {
    if fs == [] then []
    else if SameName(name, fs[0].name) then Without(fs[1..], name)
    else [fs[0]] + Without(fs[1..], name)
  }

  /** The values recorded under `name`, oldest first. */
  function ValuesOf(fs: Fields, name: JString): seq<JString> {
    if fs == [] then []
    else if SameName(name, fs[0].name) then [fs[0].value] + ValuesOf(fs[1..], name)
    else ValuesOf(fs[1..], name)
  }

  /** The value of the newest field called `name`. */
  function LatestOf(fs: Fields, name: JString): Option<JString> {
    var vs := ValuesOf(fs, name);
    if vs == [] then None else Some(vs[|vs| - 1])
  }

  /** Appends the values up to the first null; stops with an error at the first value that is refused. */
  function AppendAll(v: Validator, fs: Fields, name: JString, values: seq<Option<JString>>): (Fields, Outcome)
    decreases |values|
  {
    if values == [] || values[0].None? then (fs, Done)
    else if !v.Accepts(values[0]) then (fs, Rejected)
    else AppendAll(v, fs + [Field(name, values[0].value)], name, values[1..])
  }

  datatype Op =
    | Add(name: JString, value: Option<JString>)
    | Set(name: JString, value: Option<JString>)
    | SetMany(name: JString, values: seq<Option<JString>>)
    | Remove(name: JString)
    | Clear

  /** The fields and the outcome after one operation. */
  function Apply(v: Validator, fs: Fields, op: Op): (Fields, Outcome) {
    match op
    case Add(n, x) =>
      if v.nameOk(n) && v.Accepts(x) then (fs + [Field(n, x.value)], Done) else (fs, Rejected)
    case Set(n, x) =>
      if v.nameOk(n) && v.Accepts(x) then (Without(fs, n) + [Field(n, x.value)], Done) else (fs, Rejected)
    case SetMany(n, xs) =>
      if v.nameOk(n) then AppendAll(v, Without(fs, n), n, xs) else (fs, Rejected)
    case Remove(n) => (Without(fs, n), Done)
    case Clear => ([], Done)
  }

  function Run(v: Validator, fs: Fields, ops: seq<Op>): Fields
    decreases |ops|
  {
    if ops == [] then fs else Run(v, Apply(v, fs, ops[0]).0, ops[1..])
  }

  lemma {:induction false} ValuesOfConcat(a: Fields, b: Fields, name: JString)
    ensures ValuesOf(a + b, name) == ValuesOf(a, name) + ValuesOf(b, name)
  {
    if a == [] {
      assert a + b == b;
    } else {
      assert (a + b)[1..] == a[1..] + b;
      ValuesOfConcat(a[1..], b, name);
    }
  }

  lemma {:induction false} WithoutConcat(a: Fields, b: Fields, name: JString)
    ensures Without(a + b, name) == Without(a, name) + Without(b, name)
  {
    if a == [] {
      assert a + b == b;
    } else {
      assert (a + b)[1..] == a[1..] + b;
      WithoutConcat(a[1..], b, name);
    }
  }

  /** Removing a name empties that name and leaves every other name as it was. */
  lemma {:induction false} ValuesAfterRemove(fs: Fields, name: JString, other: JString)
    ensures ValuesOf(Without(fs, name), other) == if SameName(name, other) then [] else ValuesOf(fs, other)
  {
    if fs != [] {
      ValuesAfterRemove(fs[1..], name, other);
      SameNameIsEquivalence(name, fs[0].name, other);
      SameNameIsEquivalence(name, other, fs[0].name);
      SameNameIsEquivalence(other, fs[0].name, name);
      if !SameName(name, fs[0].name) {
        assert ([fs[0]] + Without(fs[1..], name))[1..] == Without(fs[1..], name);
      }
    }
  }

  /** The values a SetMany call stores: those before the first null or refused value. */
  function Stored(v: Validator, values: seq<Option<JString>>): seq<JString> {
    if values == [] || !v.Accepts(values[0]) then [] else [values[0].value] + Stored(v, values[1..])
  }

  lemma {:induction false} ValuesAfterAppendAll(v: Validator, fs: Fields, name: JString,
                                                values: seq<Option<JString>>, other: JString)
    ensures ValuesOf(AppendAll(v, fs, name, values).0, other)
         == ValuesOf(fs, other) + if SameName(name, other) then Stored(v, values) else []
    decreases |values|
  {
    if values != [] && v.Accepts(values[0]) {
      var f := Field(name, values[0].value);
      ValuesAfterAppendAll(v, fs + [f], name, values[1..], other);
      ValuesOfConcat(fs, [f], other);
      SameNameIsEquivalence(name, other, name);
      SameNameIsEquivalence(other, name, other);
      assert [f][1..] == [];
    }
  }

  /** How each operation changes what any name, the operation's own or another, maps to. */
  function ValuesAfter(v: Validator, before: seq<JString>, op: Op, other: JString): seq<JString> {
    match op
    case Add(n, x) =>
      if v.nameOk(n) && v.Accepts(x) && SameName(n, other) then before + [x.value] else before
    case Set(n, x) =>
      if v.nameOk(n) && v.Accepts(x) && SameName(n, other) then [x.value] else before
    case SetMany(n, xs) =>
      if v.nameOk(n) && SameName(n, other) then Stored(v, xs) else before
    case Remove(n) => if SameName(n, other) then [] else before
    case Clear => []
  }

  /** A table is a multimap: an operation reaches exactly the names equal to its own up to case. */
  lemma {:induction false} OperationsArePerName(v: Validator, fs: Fields, op: Op, other: JString)
    ensures ValuesOf(Apply(v, fs, op).0, other) == ValuesAfter(v, ValuesOf(fs, other), op, other)
  {
    match op
    case Add(n, x) =>
      ValuesAfterAppendAll(v, fs, n, [x], other);
      if v.nameOk(n) && v.Accepts(x) {
        assert AppendAll(v, fs, n, [x]).0 == fs + [Field(n, x.value)];
        assert Stored(v, [x]) == [x.value];
      }
    case Set(n, x) =>
      ValuesAfterRemove(fs, n, other);
      ValuesAfterAppendAll(v, Without(fs, n), n, [x], other);
      if v.nameOk(n) && v.Accepts(x) {
        assert AppendAll(v, Without(fs, n), n, [x]).0 == Without(fs, n) + [Field(n, x.value)];
        assert Stored(v, [x]) == [x.value];
      }
    case SetMany(n, xs) =>
      ValuesAfterRemove(fs, n, other);
      ValuesAfterAppendAll(v, Without(fs, n), n, xs, other);
    case Remove(n) =>
      ValuesAfterRemove(fs, n, other);
    case Clear =>
  }

  function RunValues(v: Validator, before: seq<JString>, ops: seq<Op>, name: JString): seq<JString>
    decreases |ops|
  {
    if ops == [] then before else RunValues(v, ValuesAfter(v, before, ops[0], name), ops[1..], name)
  }

  /** Over a whole run, the values of one name depend only on that name's own history. */
  lemma {:induction false} RunIsPerName(v: Validator, fs: Fields, ops: seq<Op>, name: JString)
    ensures ValuesOf(Run(v, fs, ops), name) == RunValues(v, ValuesOf(fs, name), ops, name)
    decreases |ops|
  {
    if ops != [] {
      OperationsArePerName(v, fs, ops[0], name);
      RunIsPerName(v, Apply(v, fs, ops[0]).0, ops[1..], name);
    }
  }

  /** Lookup by two spellings of one name gives the same values. */
  lemma {:induction false} LookupIgnoresCase(fs: Fields, a: JString, b: JString)
    requires SameName(a, b)
    ensures ValuesOf(fs, a) == ValuesOf(fs, b)
    ensures Without(fs, a) == Without(fs, b)
  {
    if fs != [] {
      LookupIgnoresCase(fs[1..], a, b);
      SameNameIsEquivalence(a, b, fs[0].name);
      SameNameIsEquivalence(b, a, fs[0].name);
    }
  }

  /** A value is found again under exactly those names that agree with its own but for the case of ASCII letters. */
  lemma FoundUnder(fs: Fields, name: JString, value: JString, other: JString)
    ensures ValuesOf(fs + [Field(name, value)], other)
         == ValuesOf(fs, other) + if SameLetters(name, other) then [value] else []
    ensures SameLetters(name, other) ==> LatestOf(fs + [Field(name, value)], other) == Some(value)
    ensures !SameLetters(name, other) ==> LatestOf(fs + [Field(name, value)], other) == LatestOf(fs, other)
  {
    hide SameName, SameLetters;
    SameNameIff(name, other);
    SameNameIsEquivalence(name, other, name);
    SameNameIsEquivalence(other, name, other);
    ValuesOfConcat(fs, [Field(name, value)], other);
    assert [Field(name, value)][1..] == [];
  }

  /** An accepted set leaves one value under every spelling of the name and no other name changed; a refused one nothing. */
  lemma SetReplaces(v: Validator, fs: Fields, name: JString, value: Option<JString>, other: JString)
    ensures var r := Apply(v, fs, Set(name, value));
            if v.nameOk(name) && value.Some? && v.valueOk(value.value) then
              && r.1 == Done
              && ValuesOf(r.0, other) == if SameLetters(name, other) then [value.value] else ValuesOf(fs, other)
            else r == (fs, Rejected)
  {
    hide SameName, SameLetters, ValuesOf;
    SameNameIff(name, other);
    OperationsArePerName(v, fs, Set(name, value), other);
  }

  /** An accepted add appends one field, spelt as it was given; a refused one changes nothing. */
  lemma AddAppends(v: Validator, fs: Fields, name: JString, value: Option<JString>, other: JString)
    ensures var r := Apply(v, fs, Add(name, value));
            if v.nameOk(name) && value.Some? && v.valueOk(value.value) then
              && r == (fs + [Field(name, value.value)], Done)
              && ValuesOf(r.0, other) == ValuesOf(fs, other) + if SameLetters(name, other) then [value.value] else []
            else r == (fs, Rejected)
  {
    hide SameLetters, ValuesOf;
    if value.Some? {
      FoundUnder(fs, name, value.value, other);
    }
  }

  lemma RemoveEmpties(v: Validator, fs: Fields, name: JString, other: JString)
    ensures Apply(v, fs, Remove(name)).1 == Done
    ensures ValuesOf(Apply(v, fs, Remove(name)).0, other)
         == if SameLetters(name, other) then [] else ValuesOf(fs, other)
  {
    hide SameName, SameLetters, ValuesOf;
    SameNameIff(name, other);
    ValuesAfterRemove(fs, name, other);
  }

  lemma {:induction false} StoredAre(v: Validator, fs: Fields, name: JString, values: seq<Option<JString>>, k: nat)
    requires k <= |values| && forall i :: 0 <= i < k ==> values[i].Some? && v.valueOk(values[i].value)
    requires k < |values| ==> values[k].None? || !v.valueOk(values[k].value)
    ensures |Stored(v, values)| == k && forall i :: 0 <= i < k ==> Stored(v, values)[i] == values[i].value
    ensures AppendAll(v, fs, name, values).1 == Rejected <==> k < |values| && values[k].Some?
    decreases k
  {
    if k > 0 {
      StoredAre(v, fs + [Field(name, values[0].value)], name, values[1..], k - 1);
    }
  }

  /**
   * setHeader with several values: of a name that is refused nothing changes; otherwise the name has the values in
   * front of the first that is null or refused, however many there are, and the outcome tells whether one was refused.
   */
  lemma SetManyStores(v: Validator, fs: Fields, name: JString, values: seq<Option<JString>>, k: nat, other: JString)
    requires k <= |values| && forall i :: 0 <= i < k ==> values[i].Some? && v.valueOk(values[i].value)
    requires k < |values| ==> values[k].None? || !v.valueOk(values[k].value)
    ensures var r := Apply(v, fs, SetMany(name, values));
            if !v.nameOk(name) then r == (fs, Rejected)
            else
              && (r.1 == Rejected <==> k < |values| && values[k].Some?)
              && (!SameLetters(name, other) ==> ValuesOf(r.0, other) == ValuesOf(fs, other))
              && (SameLetters(name, other) ==>
                    && |ValuesOf(r.0, other)| == k
                    && forall i :: 0 <= i < k ==> ValuesOf(r.0, other)[i] == values[i].value)
  {
    hide SameName, SameLetters, ValuesOf, AppendAll, Stored, Without;
    SameNameIff(name, other);
    OperationsArePerName(v, fs, SetMany(name, values), other);
    StoredAre(v, Without(fs, name), name, values, k);
  }

  /** The value of the oldest field called `name`: what `getHeader` is documented to give. */
  function OldestOf(fs: Fields, name: JString): Option<JString> {
    if fs == [] then None else if SameName(name, fs[0].name) then Some(fs[0].value) else OldestOf(fs[1..], name)
  }

  /** `getHeader` gives what its documentation says. */
  predicate AsDocumented(fs: Fields, name: JString) {
    LatestOf(fs, name) == OldestOf(fs, name)
  }

  lemma {:induction false} OldestIsFirst(fs: Fields, name: JString)
    ensures var vs := ValuesOf(fs, name); OldestOf(fs, name) == if vs == [] then None else Some(vs[0])
  {
    if fs != [] && !SameName(name, fs[0].name) {
      OldestIsFirst(fs[1..], name);
    }
  }

  /**
   * What a caller has to look at before an operation so that `getHeader(name)` meets its documentation after it: an
   * added value must be the name's first, or equal to it; of several values set, the first and the last stored must be
   * equal. Everything else keeps, or establishes, what the documentation says.
   */
  predicate Harmless(v: Validator, fs: Fields, op: Op, name: JString) {
    match op
    case Add(n, x) =>
      if v.nameOk(n) && v.Accepts(x) && SameName(n, name) then OldestOf(fs, name) == None || OldestOf(fs, name) == x
      else AsDocumented(fs, name)
    case Set(n, x) =>
      (v.nameOk(n) && v.Accepts(x) && SameName(n, name)) || AsDocumented(fs, name)
    case SetMany(n, xs) =>
      if v.nameOk(n) && SameName(n, name) then
        var stored := Stored(v, xs); stored == [] || stored[0] == stored[|stored| - 1]
      else AsDocumented(fs, name)
    case Remove(n) => SameName(n, name) || AsDocumented(fs, name)
    case Clear => true
  }

  /** `getHeader` is documented to give the first of several values and gives the last: it meets that exactly then. */
  lemma DocumentedIffHarmless(v: Validator, fs: Fields, op: Op, name: JString)
    ensures AsDocumented(Apply(v, fs, op).0, name) <==> Harmless(v, fs, op, name)
  {
    hide ValuesOf, OldestOf, Apply, Stored, SameName;
    OperationsArePerName(v, fs, op, name);
    OldestIsFirst(fs, name);
    OldestIsFirst(Apply(v, fs, op).0, name);
  }

  /** A table that is only ever set, removed from and cleared meets the documentation for every name. */
  lemma {:induction false} SetOnlyIsDocumented(v: Validator, ops: seq<Op>, name: JString)
    requires forall i :: 0 <= i < |ops| ==> ops[i].Set? || ops[i].Remove? || ops[i].Clear?
    ensures AsDocumented(Run(v, [], ops), name)
  {
    SetOnlyKeeps(v, [], ops, name);
  }

  lemma {:induction false} SetOnlyKeeps(v: Validator, fs: Fields, ops: seq<Op>, name: JString)
    requires AsDocumented(fs, name) && forall i :: 0 <= i < |ops| ==> ops[i].Set? || ops[i].Remove? || ops[i].Clear?
    ensures AsDocumented(Run(v, fs, ops), name)
    decreases |ops|
  {
    hide AsDocumented, Apply, SameName;
    if ops != [] {
      DocumentedIffHarmless(v, fs, ops[0], name);
      SetOnlyKeeps(v, Apply(v, fs, ops[0]).0, ops[1..], name);
    }
  }

  lemma LatestIsNotFirst(name: JString, old': JString, new': JString)
    requires old' != new'
    ensures LatestOf([Field(name, old'), Field(name, new')], name) != Some(old')
    ensures ValuesOf([Field(name, old'), Field(name, new')], name) == [old', new']
  {
    var fs := [Field(name, old'), Field(name, new')];
    assert fs[1..] == [Field(name, new')];
    assert ValuesOf(fs[1..], name) == [new'];
  }
}
