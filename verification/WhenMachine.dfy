/**
 * jQuery.when with two or more arguments. Each promise among the arguments calls at most one of `resolveFunc(i)` and
 * `deferred.reject`, at most once, from the moment the loop has registered it (a promise that has settled before does
 * so at once); the user may meanwhile add callbacks to the promise that `when` returns.
 */
module WhenMachine {
  import opened CallbackMachine
  import opened DeferredMachine
  import opened DeferredProofs

  datatype Input = Plain(value: Value) | Promise(value: Value)

  /** What a promise argument has done so far. */
  datatype Fate = Open | Fulfilled(values: seq<Value>) | Broken

  datatype When = When(
    inputs: seq<Input>,
    args: seq<Value>,       // the array `args`
    pValues: seq<Value>,
    count: int,
    next: nat,              // the loop variable
    ended: bool,            // the loop and the test behind it are done
    fate: seq<Fate>,
    master: Deferred)

  /** The context `when` resolves with: its own Deferred; and the one it notifies with: the promise. */
  const SELF := Ref(0)
  const PROMISE := Ref(1)

  datatype WStep =
    | Register
    | EndLoop
    | Fulfil(i: nat, values: seq<Value>)
    | Break(i: nat, call: Call)
    | Tell(i: nat, values: seq<Value>)
    | ByUser(step: DStep)

  function Values(inputs: seq<Input>): seq<Value> {
    seq(|inputs|, i requires 0 <= i < |inputs| => inputs[i].value)
  }

  function Begun(inputs: seq<Input>): When
    requires |inputs| > 1
  {
    When(inputs, Values(inputs), seq(|inputs|, _ => Undefined), |inputs|, 0, false, seq(|inputs|, _ => Fate.Open),
         New())
  }

  /** `arguments.length > 1 ? slice(arguments) : value` */
  function Pack(values: seq<Value>): Value {
    if |values| > 1 then Array(values) else if |values| == 1 then values[0] else Undefined
  }

  function ResolveMaster(w: When): When
    requires DInv(w.master)
  {
    w.(master := Fired(w.master, DoneList, Call(SELF, w.args)))
  }

  /**
   * Which steps can happen: the loop goes through the arguments once; a registered promise settles once; the user gets
   * at the methods that settle or notify only as the context of a done callback, after the resolve.
   */
  predicate Possible(w: When, s: WStep) {
    match s
    case Register => w.next < |w.inputs|
    case EndLoop => w.next == |w.inputs| && !w.ended
    case Fulfil(i, _) => i < w.next && i < |w.inputs| && i < |w.fate| && w.inputs[i].Promise? && w.fate[i].Open?
    case Break(i, _) => i < w.next && i < |w.inputs| && i < |w.fate| && w.inputs[i].Promise? && w.fate[i].Open?
    case Tell(i, _) => i < w.next && i < |w.inputs| && w.inputs[i].Promise?
    case ByUser(step) => UserStep(step) && (Settles(step) || step.Notify? ==> w.master.state != Pending)
  }

  function WAfter(w: When, s: WStep): When
    requires Shape(w) && Possible(w, s)
  {
    match s
    case Register =>
      w.(next := w.next + 1, count := if w.inputs[w.next].Promise? then w.count else w.count - 1)
    case EndLoop =>
      if w.count == 0 then ResolveMaster(w.(ended := true)) else w.(ended := true)
    case Fulfil(i, values) =>
      var w' := w.(args := w.args[i := Pack(values)], fate := w.fate[i := Fulfilled(values)], count := w.count - 1);
      if w'.count == 0 then ResolveMaster(w') else w'
    case Break(i, call) =>
      w.(fate := w.fate[i := Broken], master := Fired(w.master, FailList, call))
    case Tell(i, values) =>
      var p := w.pValues[i := Pack(values)];
      w.(pValues := p, master := Fired(w.master, ProgressList, Call(PROMISE, p)))
    case ByUser(step) =>
      w.(master := DAfter(w.master, step))
  }

  predicate Shape(w: When) {
    && |w.args| == |w.pValues| == |w.fate| == |w.inputs| && w.next <= |w.inputs| && DInv(w.master)
  }

  /** Argument `i` has its final value. */
  predicate Delivered(w: When, i: nat)
    requires Shape(w) && i < |w.inputs|
  {
    i < w.next && (w.inputs[i].Plain? || w.fate[i].Fulfilled?)
  }

  /** How many of the first `n` arguments are not delivered. */
  function Outstanding(w: When, n: nat): (c: nat)
    requires Shape(w) && n <= |w.inputs|
    ensures c == 0 <==> forall i :: 0 <= i < n ==> Delivered(w, i)
  {
    if n == 0 then 0 else Outstanding(w, n - 1) + if Delivered(w, n - 1) then 0 else 1
  }

  /** What the i-th argument of the resolve must be. */
  function Expected(w: When, i: nat): Value
    requires Shape(w) && i < |w.inputs|
  {
    if w.fate[i].Fulfilled? then Pack(w.fate[i].values) else w.inputs[i].value
  }

  predicate SomeBroken(w: When) {
    exists i :: 0 <= i < |w.fate| && w.fate[i].Broken?
  }

  predicate WInv(w: When) {
    && Shape(w)
    && (forall i :: 0 <= i < |w.inputs| ==> w.args[i] == Expected(w, i))
    && (forall i :: 0 <= i < |w.inputs| && (i >= w.next || w.inputs[i].Plain?) ==> w.fate[i].Open?)
    && w.count == Outstanding(w, |w.inputs|)
    && (w.master.state == Rejected <==> SomeBroken(w))
    && (w.master.state == Resolved ==> w.count == 0 && Outcome(w.master).1 == [Call(SELF, w.args)])
    && (w.ended ==> w.next == |w.inputs|)
    && (w.ended && w.count == 0 ==> w.master.state == Resolved)
  }
}
