/**
 * jQuery.Callbacks as a state machine. Between two steps either no callback of the list is running, or the one at
 * `firingIndex` is: it may call back into the list as often as it likes before it returns.
 */
module CallbackMachine {
  import opened Common

  /** A JavaScript value: a primitive or object known by identity only, undefined, or an array made from arguments. */
  datatype Value = Ref(id: nat) | Undefined | Array(items: seq<Value>)

  /** Functions: those of the user, and the three kinds a Deferred puts into its own lists. */
  datatype Fn = User(id: nat) | SetState(resolved: bool) | DisableOther | LockProgress

  /** One occurrence of a function in a list; `tag` tells occurrences of the same function apart. */
  datatype Entry = Entry(fn: Fn, tag: nat)

  datatype Call = Call(context: Value, args: seq<Value>)

  datatype Invocation = Invocation(entry: Entry, call: Call)

  datatype Flags = Flags(once: bool, memory: bool, unique: bool, stopOnFalse: bool)

  /** The variable `memory`: undefined, the value true, or the last context and arguments. */
  datatype Memory = Unset | Halted | Last(call: Call)

  /** An argument of `add`: a function, an array inspected recursively, or anything else, which is skipped. */
  datatype Arg = One(fn: Fn) | Many(args: seq<Arg>) | Other

  datatype Machine = Machine(
    flags: Flags,
    list: Option<seq<Entry>>,
    stack: Option<seq<Call>>,
    memory: Memory,
    fired: bool,
    firing: bool,
    firingStart: nat,
    firingLength: int,
    firingIndex: int,
    call: Call,
    // What has happened, for the statements about runs:
    added: seq<Entry>,       // every occurrence ever put into the list
    log: seq<Invocation>,    // every callback invocation
    mark: nat,               // where the current firing begins in the log
    due: seq<Entry>,         // what the current firing has to run, in order
    requested: seq<Call>,    // the fires asked for that were not refused
    started: seq<Call>)      // the fires among them that have begun

  function Created(flags: Flags): Machine {
    Machine(flags, Some([]), Some([]), Unset, false, false, 0, 0, 0, Call(Undefined, []), [], [], 0, [], [], [])
  }

  function EntriesOf(log: seq<Invocation>): (es: seq<Entry>)
    ensures |es| == |log|
    ensures forall i :: 0 <= i < |log| ==> es[i] == log[i].entry
  {
    seq(|log|, i requires 0 <= i < |log| => log[i].entry)
  }

  /** What the current firing has run so far, the callback now running included. */
  function Ran(m: Machine): seq<Entry> {
    if m.mark <= |m.log| then EntriesOf(m.log[m.mark..]) else []
  }

  predicate Distinct(es: seq<Entry>) {
    forall i, j :: 0 <= i < j < |es| ==> es[i] != es[j]
  }

  /** No function occurs twice. */
  predicate NoRepeats(es: seq<Entry>) {
    forall i, j :: 0 <= i < j < |es| ==> es[i].fn != es[j].fn
  }

  predicate Has(es: seq<Entry>, fn: Fn) {
    exists i :: 0 <= i < |es| && es[i].fn == fn
  }

  function Without(es: seq<Entry>, e: Entry): seq<Entry> {
    if es == [] then [] else if es[0] == e then Without(es[1..], e) else [es[0]] + Without(es[1..], e)
  }

  // ---- fire -----------------------------------------------------------------------------------------------------

  /** `fire` up to its loop. */
  function Begin(m: Machine, call: Call): Machine
    requires m.list.Some? && m.firingStart <= |m.list.value|
  {
    m.(memory := if m.flags.memory then Last(call) else Halted, fired := true, firing := true,
       firingIndex := m.firingStart, firingStart := 0, firingLength := |m.list.value|, call := call,
       mark := |m.log|, due := m.list.value[m.firingStart..])
  }

  /** The loop test: calls the next callback, or leaves the loop. */
  function Loop(m: Machine): Machine
    requires m.firingStart == 0
    requires m.stack.Some? ==> m.list.Some?
    requires m.list.Some? ==> 0 <= m.firingIndex <= m.firingLength == |m.list.value|
    decreases if m.stack.Some? then |m.stack.value| else 0, 1
  {
    if m.list.Some? && m.firingIndex < m.firingLength
    then m.(log := m.log + [Invocation(m.list.value[m.firingIndex], m.call)])
    else Finish(m)
  }

  /** `fire` behind its loop. */
  function Finish(m: Machine): Machine
    requires m.firingStart == 0
    requires m.stack.Some? ==> m.list.Some?
    decreases if m.stack.Some? then |m.stack.value| else 0, 0
  {
    var m := m.(firing := false);
    if m.list.None? then m
    else if !m.flags.once then
      if m.stack.Some? && m.stack.value != [] then
        var next := m.stack.value[0];
        Loop(Begin(m.(stack := Some(m.stack.value[1..]), started := m.started + [next]), next))
      else m
    else if m.memory == Halted then Disable(m)
    else m.(list := Some([]))
  }

  function Disable(m: Machine): Machine {
    m.(list := None, stack := None, memory := Unset)
  }

  // ---- the steps ------------------------------------------------------------------------------------------------

  /** The running callback returns; `isFalse` says whether it returned the value false. */
  function Return(m: Machine, isFalse: bool): Machine
    requires Inv(m) && m.firing
  {
    if isFalse && m.flags.stopOnFalse then Finish(m.(memory := Halted))
    else Loop(m.(firingIndex := m.firingIndex + 1))
  }

  function FireWith(m: Machine, call: Call): Machine
    requires Inv(m)
  {
    if m.stack.None? then m
    else if m.firing then
      if m.flags.once then m
      else m.(stack := Some(m.stack.value + [call]), requested := m.requested + [call])
    else if m.flags.once && m.memory != Unset then m
    else Loop(Begin(m.(requested := m.requested + [call], started := m.started + [call]), call))
  }

  /** The functions among the arguments of `add`, nested arrays included, in order. */
  function Flatten(args: seq<Arg>): seq<Fn>
    decreases args
  {
    if args == [] then []
    else
      (match args[0]
       case One(fn) => [fn]
       case Many(inner) => Flatten(inner)
       case Other => []) + Flatten(args[1..])
  }

  /** Appends the functions one by one; in unique mode those already in the list are skipped. */
  function Push(m: Machine, fns: seq<Fn>): Machine
    requires m.list.Some?
    decreases |fns|
  {
    if fns == [] then m
    else if m.flags.unique && Has(m.list.value, fns[0]) then Push(m, fns[1..])
    else Push(PushOne(m, fns[0]), fns[1..])
  }

  function PushOne(m: Machine, fn: Fn): Machine
    requires m.list.Some?
  {
    var e := Entry(fn, |m.added|);
    m.(list := Some(m.list.value + [e]), added := m.added + [e], due := if m.firing then m.due + [e] else m.due)
  }

  function Add(m: Machine, args: seq<Arg>): Machine
    requires Inv(m)
  {
    if m.list.None? then m
    else
      var length := |m.list.value|;
      var m' := Push(m, Flatten(args));
      PushGrows(m, Flatten(args));
      if m'.firing then m'.(firingLength := |m'.list.value|)
      else if m'.memory.Last? then Loop(Begin(m'.(firingStart := length), m'.memory.call))
      else m'
  }

  /** Takes position `i` out of the list, with the adjustments `remove` makes while firing. */
  function Splice(m: Machine, i: nat): Machine
    requires m.list.Some? && i < |m.list.value|
  {
    var e := m.list.value[i];
    var below := m.firing && i <= m.firingLength;
    m.(firingLength := if below then m.firingLength - 1 else m.firingLength,
       firingIndex := if below && i <= m.firingIndex then m.firingIndex - 1 else m.firingIndex,
       list := Some(m.list.value[..i] + m.list.value[i + 1..]),
       due := if m.firing && e !in Ran(m) then Without(m.due, e) else m.due)
  }

  /** The inner loop of `remove` from position `i` on. */
  function RemoveFrom(m: Machine, fn: Fn, i: nat): Machine
    requires m.list.Some? && i <= |m.list.value|
    decreases |m.list.value| - i
  {
    if i == |m.list.value| then m
    else if m.list.value[i].fn == fn then
      if m.flags.unique then Splice(m, i) else RemoveFrom(Splice(m, i), fn, i)
    else RemoveFrom(m, fn, i + 1)
  }

  function Remove(m: Machine, fns: seq<Fn>): Machine
    decreases |fns|
  {
    if m.list.None? || fns == [] then m else Remove(RemoveFrom(m, fns[0], 0), fns[1..])
  }

  function Lock(m: Machine): Machine {
    if m.memory.Last? then m.(stack := None) else Disable(m)
  }

  datatype Step =
    | DoAdd(args: seq<Arg>)
    | DoRemove(fns: seq<Fn>)
    | DoFire(call: Call)
    | DoReturn(isFalse: bool)
    | DoLock
    | DoDisable

  function After(m: Machine, s: Step): Machine
    requires Inv(m)
  {
    match s
    case DoAdd(args) => Add(m, args)
    case DoRemove(fns) => Remove(m, fns)
    case DoFire(call) => FireWith(m, call)
    case DoReturn(isFalse) => if m.firing then Return(m, isFalse) else m
    case DoLock => Lock(m)
    case DoDisable => Disable(m)
  }

  // ---- the invariant --------------------------------------------------------------------------------------------

  /** Every occurrence carries its own position in `added`; hence no two are equal. */
  predicate Tagged(m: Machine) {
    && (forall i :: 0 <= i < |m.added| ==> m.added[i].tag == i)
    && (m.list.Some? ==> Distinct(m.list.value) && forall e :: e in m.list.value ==> e in m.added)
    && (m.list.Some? && m.flags.unique ==> NoRepeats(m.list.value))
  }

  /** The current firing: its length is the list's, and what it still has to run is the rest of the list. */
  predicate InFiring(m: Machine) {
    m.list.Some? ==>
      && m.firingLength == |m.list.value| && -1 <= m.firingIndex < |m.list.value|
      && m.due == Ran(m) + m.list.value[m.firingIndex + 1..]
      && Distinct(m.due) && forall e :: e in m.due ==> e in m.added
  }

  /** Fires are accepted and begun in order. */
  predicate Queued(m: Machine) {
    && (m.stack.Some? ==> m.list.Some?)
    && (m.stack.Some? && !m.flags.once ==> m.requested == m.started + m.stack.value)
    && (m.stack.Some? && (m.flags.once || !m.firing) ==> m.stack.value == [])
    && (m.stack.None? ==> m.started <= m.requested)
    && (m.flags.once ==> m.requested == m.started && |m.started| <= 1)
    && (m.flags.once && m.stack.Some? && m.memory == Unset ==> m.started == [])
  }

  /** Only occurrences that were added are called; a firing has called someone. */
  predicate Logged(m: Machine) {
    && m.mark <= |m.log| && (forall i :: 0 <= i < |m.log| ==> m.log[i].entry in m.added)
    && (m.firing ==> m.mark < |m.log|)
  }

  predicate Inv(m: Machine) {
    && m.firingStart == 0
    && Logged(m) && Tagged(m) && Queued(m) && (m.firing ==> InFiring(m))
  }

  lemma {:induction false} PushGrows(m: Machine, fns: seq<Fn>)
    requires m.list.Some?
    ensures Push(m, fns).list.Some? && m.list.value <= Push(m, fns).list.value
    ensures Push(m, fns).firing == m.firing && Push(m, fns).stack == m.stack && Push(m, fns).memory == m.memory
    decreases |fns|
  {
    if fns != [] {
      if m.flags.unique && Has(m.list.value, fns[0]) {
        PushGrows(m, fns[1..]);
      } else {
        PushGrows(PushOne(m, fns[0]), fns[1..]);
      }
    }
  }
}
