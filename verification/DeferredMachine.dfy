/**
 * jQuery.Deferred as a state machine over its three callback lists. User code runs on top, or as a callback of the list
 * last in `active`; it may resolve, reject, notify and add callbacks before that callback returns. The functions a
 * Deferred puts into its own lists run to completion without user code in between.
 */
module DeferredMachine {
  import opened Common
  import opened CallbackMachine
  import opened CallbackProofs

  datatype Phase = Pending | Resolved | Rejected

  datatype Which = DoneList | FailList | ProgressList

  datatype Deferred = Deferred(done: Machine, fail: Machine, progress: Machine, state: Phase, active: seq<Which>)

  const SETTLING := Flags(true, true, false, false)
  const REPEATING := Flags(false, true, false, false)

  function Get(d: Deferred, w: Which): Machine {
    match w
    case DoneList => d.done
    case FailList => d.fail
    case ProgressList => d.progress
  }

  function Put(d: Deferred, w: Which, m: Machine): Deferred {
    match w
    case DoneList => d.(done := m)
    case FailList => d.(fail := m)
    case ProgressList => d.(progress := m)
  }

  function Opposite(w: Which): Which {
    match w
    case DoneList => FailList
    case FailList => DoneList
    case ProgressList => ProgressList
  }

  function PhaseOf(w: Which): Phase {
    match w
    case DoneList => Resolved
    case FailList => Rejected
    case ProgressList => Pending
  }

  /** The callbacks a new Deferred adds to its done list, or to its fail list. */
  function OwnCallbacks(w: Which): seq<Arg> {
    [One(SetState(w == DoneList)), One(DisableOther), One(LockProgress)]
  }

  function FreshList(w: Which): Machine {
    Push(Created(SETTLING), Flatten(OwnCallbacks(w)))
  }

  function New(): Deferred {
    Deferred(FreshList(DoneList), FreshList(FailList), Created(REPEATING), Pending, [])
  }

  /** What one of the Deferred's own callbacks in list `w` does. */
  function Effect(d: Deferred, w: Which, fn: Fn): Deferred {
    match fn
    case SetState(resolved) => d.(state := if resolved then Resolved else Rejected)
    case DisableOther => Put(d, Opposite(w), Disable(Get(d, Opposite(w))))
    case LockProgress => d.(progress := Lock(d.progress))
    case User(_) => d
  }

  /** The callback list `w` has called last. */
  function Running(m: Machine): Fn
    requires m.log != []
  {
    m.log[|m.log| - 1].entry.fn
  }

  /** How far the loop of a list is from its end. */
  function Left(m: Machine): nat {
    if m.list.Some? && |m.list.value| > m.firingIndex then |m.list.value| - m.firingIndex else 0
  }

  /**
   * Continues behind the loop condition of list `w`: if it called one of the Deferred's own callbacks, that runs and
   * returns at once; if it called user code, that code is now on top.
   */
  function Drive(d: Deferred, w: Which): Deferred
    requires w != ProgressList && Inv(Get(d, w)) && Get(d, w).flags == SETTLING
    decreases Left(Get(d, w)) + if Get(d, w).firing then 1 else 0
  {
    var m := Get(d, w);
    if !m.firing then d
    else if Running(m).User? then d.(active := d.active + [w])
    else
      ReturnKeepsInv(m, false);
      ReturnShortens(m);
      Drive(Put(Effect(d, w, Running(m)), w, Return(m, false)), w)
  }

  /** Returning to the loop of a list that fires once calls the next callback or empties the list. */
  lemma ReturnOnce(m: Machine)
    requires Inv(m) && m.firing && m.list.Some? && m.flags == SETTLING
    ensures m.firingIndex + 1 < |m.list.value| ==>
              Return(m, false) == m.(firingIndex := m.firingIndex + 1,
                                     log := m.log + [Invocation(m.list.value[m.firingIndex + 1], m.call)])
    ensures m.firingIndex + 1 == |m.list.value| ==>
              Return(m, false) ==
                if m.memory == Halted then Disable(m.(firing := false, firingIndex := m.firingIndex + 1))
                                  else m.(firing := false, firingIndex := m.firingIndex + 1, list := Some([]))
  {
    var n := m.(firingIndex := m.firingIndex + 1);
    assert Return(m, false) == Loop(n);
    if n.firingIndex == |n.list.value| {
      assert Loop(n) == Finish(n);
    }
  }

  lemma ReturnShortens(m: Machine)
    requires Inv(m) && m.firing && m.flags == SETTLING
    ensures Return(m, false).flags == m.flags
    ensures Left(Return(m, false)) <= Left(m)
    ensures Left(Return(m, false)) < Left(m) || !Return(m, false).firing
  {
    if m.list.Some? {
      ReturnOnce(m);
    } else {
      var n := m.(firingIndex := m.firingIndex + 1);
      assert Return(m, false) == Loop(n) && Loop(n) == Finish(n);
    }
  }

  // ---- the steps ------------------------------------------------------------------------------------------------

  datatype DStep =
    | Resolve(call: Call)
    | Reject(call: Call)
    | Notify(call: Call)
    | Done(args: seq<Arg>)
    | Fail(args: seq<Arg>)
    | Progress(args: seq<Arg>)
    | CallbackReturns(isFalse: bool)

  /** A list has been through its loop condition without user code having run. */
  function Settle(d: Deferred, w: Which): Deferred
    requires Inv(Get(d, w)) && (w != ProgressList ==> Get(d, w).flags == SETTLING)
  {
    if w != ProgressList then Drive(d, w)
    else if d.progress.firing then d.(active := d.active + [w])
    else d
  }

  /** `fireWith` of a list, and `add`; a list that is firing already just keeps going afterwards. */
  function Fired(d: Deferred, w: Which, call: Call): Deferred
    requires Legal(d)
  {
    var m := Get(d, w);
    FireWithKeepsInv(m, call);
    AfterStaysOpen(m, DoFire(call));
    if m.firing then Put(d, w, FireWith(m, call)) else Settle(Put(d, w, FireWith(m, call)), w)
  }

  function Added(d: Deferred, w: Which, args: seq<Arg>): Deferred
    requires Legal(d)
  {
    var m := Get(d, w);
    AddKeepsInv(m, args);
    AfterStaysOpen(m, DoAdd(args));
    if m.firing then Put(d, w, Add(m, args)) else Settle(Put(d, w, Add(m, args)), w)
  }

  function Returned(d: Deferred, isFalse: bool): Deferred
    requires Legal(d)
  {
    if d.active == [] then d
    else
      var w := d.active[|d.active| - 1];
      var m := Get(d, w);
      ReturnKeepsInv(m, isFalse);
      AfterStaysOpen(m, DoReturn(isFalse));
      Settle(Put(d.(active := d.active[..|d.active| - 1]), w, Return(m, isFalse)), w)
  }

  function DAfter(d: Deferred, s: DStep): Deferred
    requires Legal(d)
  {
    match s
    case Resolve(call) => Fired(d, DoneList, call)
    case Reject(call) => Fired(d, FailList, call)
    case Notify(call) => Fired(d, ProgressList, call)
    case Done(args) => Added(d, DoneList, args)
    case Fail(args) => Added(d, FailList, args)
    case Progress(args) => Added(d, ProgressList, args)
    case CallbackReturns(isFalse) => Returned(d, isFalse)
  }

  /** The lists are in order, and the loops that wait for user code are those of the firing lists. */
  predicate Legal(d: Deferred) {
    && Inv(d.done) && Inv(d.fail) && Inv(d.progress)
    && d.done.flags == SETTLING && d.fail.flags == SETTLING && d.progress.flags == REPEATING
    && (forall w :: w in d.active <==> Get(d, w).firing)
    && (forall i, j :: 0 <= i < j < |d.active| ==> d.active[i] != d.active[j])
  }
}
