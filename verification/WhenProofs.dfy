/**
 * What every run of jQuery.when keeps: it settles once, with every value in its own position or with the first
 * reason.
 */
module WhenProofs {
  import opened CallbackMachine
  import opened DeferredMachine
  import opened DeferredProofs
  import opened WhenMachine

  // ---- counting ---------------------------------------------------------------------------------------------------

  /** Where two states deliver the same arguments, they have the same number outstanding. */
  lemma {:induction false} SameOutstanding(w: When, v: When, n: nat)
    requires Shape(w) && Shape(v) && |w.inputs| == |v.inputs| && n <= |w.inputs|
    requires forall i :: 0 <= i < n ==> Delivered(w, i) == Delivered(v, i)
    ensures Outstanding(w, n) == Outstanding(v, n)
  {
    hide Delivered, Shape;
    if n > 0 {
      SameOutstanding(w, v, n - 1);
    }
  }

  /** Delivering one more argument lowers the count by one. */
  lemma {:induction false} OneDelivered(w: When, v: When, k: nat, n: nat)
    requires Shape(w) && Shape(v) && |w.inputs| == |v.inputs| && k < n <= |w.inputs|
    requires forall i :: 0 <= i < n && i != k ==> Delivered(w, i) == Delivered(v, i)
    requires !Delivered(w, k) && Delivered(v, k)
    ensures Outstanding(v, n) == Outstanding(w, n) - 1
  {
    hide Delivered, Shape;
    if k == n - 1 {
      SameOutstanding(w, v, n - 1);
    } else {
      OneDelivered(w, v, k, n - 1);
    }
  }

  lemma {:induction false} NoneDelivered(w: When, n: nat)
    requires Shape(w) && n <= |w.inputs| && w.next == 0
    ensures Outstanding(w, n) == n
  {
    hide Shape;
    if n > 0 {
      NoneDelivered(w, n - 1);
    }
  }

  // ---- the master ---------------------------------------------------------------------------------------------------

  lemma BegunKeeps(inputs: seq<Input>)
    requires |inputs| > 1
    ensures WInv(Begun(inputs))
  {
    hide DInv, New, Outstanding;
    NewIsWaiting();
    NewIsPending();
    NoneDelivered(Begun(inputs), |inputs|);
  }

  lemma NewIsPending()
    ensures New().state == Pending
  {
  }

  /** Settling the Deferred: what it does to a pending one, and that it does nothing to any other. */
  lemma SettleMaster(d: Deferred, w: Which, call: Call)
    requires DInv(d) && w != ProgressList
    ensures DInv(Fired(d, w, call))
    ensures d.state == Pending ==> Outcome(Fired(d, w, call)) == (PhaseOf(w), [call])
    ensures d.state != Pending ==> Fired(d, w, call) == d
  {
    hide Legal, UsersOnly, Waiting, Over, Fired;
    WaitingOrOver(d);
    if d.state == Pending {
      FireSettles(d, w, call);
      OverOutcome(Fired(d, w, call), w);
    } else {
      LaterFireIgnored(d, w, call);
    }
  }

  /** The loop registers the next argument. */
  lemma RegisterKeeps(w: When)
    requires WInv(w) && Possible(w, Register)
    ensures WInv(WAfter(w, Register))
  {
    hide DInv, Outcome, Outstanding;
    var v := WAfter(w, Register);
    if w.inputs[w.next].Plain? {
      OneDelivered(w, v, w.next, |w.inputs|);
    } else {
      SameOutstanding(w, v, |w.inputs|);
    }
  }

  lemma Unbroken(w: When)
    requires WInv(w) && w.count == 0
    ensures !SomeBroken(w)
  {
    hide DInv, Outcome;
    NoneBroken(w);
  }

  lemma NoneBroken(w: When)
    requires Shape(w) && forall i :: 0 <= i < |w.inputs| ==> Delivered(w, i)
    requires forall i :: 0 <= i < |w.inputs| && (i >= w.next || w.inputs[i].Plain?) ==> w.fate[i].Open?
    ensures !SomeBroken(w)
  {
    hide DInv;
    forall i | 0 <= i < |w.fate| ensures !w.fate[i].Broken? {
      assert Delivered(w, i);
    }
  }

  lemma ResolveKeeps(w: When)
    requires Shape(w) && w.count == 0 && !SomeBroken(w)
    requires w.master.state == Pending || (w.master.state == Resolved && Outcome(w.master).1 == [Call(SELF, w.args)])
    ensures var m := ResolveMaster(w).master;
            DInv(m) && m.state == Resolved && Outcome(m).1 == [Call(SELF, w.args)]
  {
    hide DInv, Outcome, Fired;
    SettleMaster(w.master, DoneList, Call(SELF, w.args));
    StateIsOutcome(ResolveMaster(w).master);
  }

  lemma StateIsOutcome(d: Deferred)
    ensures Outcome(d).0 == d.state
  {
  }

  lemma EndLoopKeeps(w: When)
    requires WInv(w) && Possible(w, EndLoop)
    ensures WInv(WAfter(w, EndLoop))
  {
    hide DInv, Outcome, Outstanding, Fired;
    var v := WAfter(w, EndLoop);
    if w.count == 0 {
      Unbroken(w);
      ResolveKeeps(w.(ended := true));
    }
    SameOutstanding(w, v, |w.inputs|);
  }

  lemma FulfilKeeps(w: When, i: nat, values: seq<Value>)
    requires WInv(w) && Possible(w, Fulfil(i, values))
    ensures WInv(WAfter(w, Fulfil(i, values)))
  {
    hide DInv, Outcome, Outstanding, Fired, Pack;
    var w' := w.(args := w.args[i := Pack(values)], fate := w.fate[i := Fulfilled(values)], count := w.count - 1);
    OneDelivered(w, w', i, |w.inputs|);
    HasOutstanding(w, i);
    assert SomeBroken(w') <==> SomeBroken(w) by {
      assert forall k :: 0 <= k < |w.fate| ==> (w.fate[k].Broken? <==> w'.fate[k].Broken?);
    }
    var v := WAfter(w, Fulfil(i, values));
    if w'.count == 0 {
      AllDelivered(w');
      ResolveKeeps(w');
    }
    SameOutstanding(w', v, |w.inputs|);
  }

  lemma HasOutstanding(w: When, i: nat)
    requires WInv(w) && i < |w.inputs| && !Delivered(w, i)
    ensures w.count > 0
  {
    hide DInv, Outcome;
  }

  lemma AllDelivered(w: When)
    requires Shape(w) && Outstanding(w, |w.inputs|) == 0
    requires forall i :: 0 <= i < |w.inputs| && (i >= w.next || w.inputs[i].Plain?) ==> w.fate[i].Open?
    ensures !SomeBroken(w)
  {
    hide DInv;
    NoneBroken(w);
  }

  lemma BreakKeeps(w: When, i: nat, call: Call)
    requires WInv(w) && Possible(w, Break(i, call))
    ensures WInv(WAfter(w, Break(i, call)))
    ensures w.master.state == Pending ==> Outcome(WAfter(w, Break(i, call)).master) == (Rejected, [call])
  {
    hide DInv, Outcome, Outstanding, Fired;
    var v := WAfter(w, Break(i, call));
    HasOutstanding(w, i);
    SettleMaster(w.master, FailList, call);
    StateIsOutcome(v.master);
    assert v.fate[i].Broken?;
    SameOutstanding(w, v, |w.inputs|);
  }

  lemma TellKeeps(w: When, i: nat, values: seq<Value>)
    requires WInv(w) && Possible(w, Tell(i, values))
    ensures WInv(WAfter(w, Tell(i, values)))
  {
    hide DInv, Outcome, Outstanding, Fired, Pack;
    var v := WAfter(w, Tell(i, values));
    NotifyKeeps(w.master, Call(PROMISE, v.pValues));
    StateIsOutcome(w.master);
    StateIsOutcome(v.master);
    SameOutstanding(w, v, |w.inputs|);
  }

  lemma ByUserKeeps(w: When, s: DStep)
    requires WInv(w) && Possible(w, ByUser(s))
    ensures WInv(WAfter(w, ByUser(s)))
  {
    hide DInv, Outcome, Outstanding, DAfter, UserStep;
    var v := WAfter(w, ByUser(s));
    DAfterKeeps(w.master, s);
    if w.master.state == Pending {
      OthersKeepPending(w.master, s);
    }
    StateIsOutcome(w.master);
    StateIsOutcome(v.master);
    SameOutstanding(w, v, |w.inputs|);
  }

  /** Every step keeps the invariant, and none changes an outcome that has been reached. */
  lemma WAfterKeeps(w: When, s: WStep)
    requires WInv(w) && Possible(w, s)
    ensures WInv(WAfter(w, s))
    ensures w.master.state != Pending ==> Outcome(WAfter(w, s).master) == Outcome(w.master)
    ensures WAfter(w, s).inputs == w.inputs
  {
    hide WInv, DInv, Outcome, Possible, UserStep;
    InvShape(w);
    if w.master.state != Pending {
      MasterKeepsOutcome(w, s);
    }
    match s
    case Register => RegisterKeeps(w);
    case EndLoop => EndLoopKeeps(w);
    case Fulfil(i, values) => FulfilKeeps(w, i, values);
    case Break(i, call) => BreakKeeps(w, i, call);
    case Tell(i, values) => TellKeeps(w, i, values);
    case ByUser(step) => ByUserKeeps(w, step);
  }

  lemma InvShape(w: When)
    requires WInv(w)
    ensures Shape(w)
  {
  }

  lemma MasterKeepsOutcome(w: When, s: WStep)
    requires Shape(w) && Possible(w, s) && w.master.state != Pending
    ensures Outcome(WAfter(w, s).master) == Outcome(w.master)
  {
    hide DInv, Outcome, Fired, DAfter, UserStep, Pack;
    var d := w.master;
    match s
    case Register =>
    case EndLoop => SettleMaster(d, DoneList, Call(SELF, w.args));
    case Fulfil(i, values) => SettleMaster(d, DoneList, Call(SELF, w.args[i := Pack(values)]));
    case Break(i, call) => SettleMaster(d, FailList, call);
    case Tell(i, values) => NotifyKeeps(d, Call(PROMISE, w.pValues[i := Pack(values)]));
    case ByUser(step) => DAfterKeeps(d, step);
  }

  // ---- runs ---------------------------------------------------------------------------------------------------------

  /**
   * Any run: the loop, the promises in whatever order and at whatever time, and the user. What cannot happen does
   * not.
   */
  function WRun(inputs: seq<Input>, steps: seq<WStep>): (w: When)
    requires |inputs| > 1
    ensures Shape(w) && WInv(w) && w.inputs == inputs
  {
    if steps == [] then BegunKeeps(inputs); Begun(inputs)
    else
      var before, s := WRun(inputs, steps[..|steps| - 1]), steps[|steps| - 1];
      if Possible(before, s) then WAfterKeeps(before, s); WAfter(before, s) else before
  }

  /** The outcome of `when` is reached at most once. */
  lemma {:induction false} WhenSettlesOnce(inputs: seq<Input>, steps: seq<WStep>, more: seq<WStep>)
    requires |inputs| > 1 && WRun(inputs, steps).master.state != Pending
    ensures Outcome(WRun(inputs, steps + more).master) == Outcome(WRun(inputs, steps).master)
    decreases |more|
  {
    hide WInv, DInv, WAfter, Possible, Outcome;
    if more == [] {
      assert steps + more == steps;
    } else {
      var init, s := more[..|more| - 1], more[|more| - 1];
      assert (steps + more)[..|steps + more| - 1] == steps + init;
      WhenSettlesOnce(inputs, steps, init);
      var before := WRun(inputs, steps + init);
      StateIsOutcome(before.master);
      StateIsOutcome(WRun(inputs, steps).master);
      if Possible(before, s) {
        WAfterKeeps(before, s);
      }
    }
  }

  function AllExpected(w: When): (args: seq<Value>)
    requires Shape(w)
    ensures |args| == |w.inputs| && forall i :: 0 <= i < |args| ==> args[i] == Expected(w, i)
  {
    seq(|w.inputs|, i requires 0 <= i < |w.inputs| => Expected(w, i))
  }

  predicate AllFulfilled(w: When) {
    |w.fate| == |w.inputs| && forall i :: 0 <= i < |w.inputs| && w.inputs[i].Promise? ==> w.fate[i].Fulfilled?
  }

  lemma FulfilledIsDelivered(w: When)
    requires Shape(w) && w.next == |w.inputs|
    ensures AllFulfilled(w) <==> forall i :: 0 <= i < |w.inputs| ==> Delivered(w, i)
  {
    hide DInv;
    if AllFulfilled(w) {
      assert forall i :: 0 <= i < |w.inputs| ==> Delivered(w, i);
    } else {
      var i :| 0 <= i < |w.inputs| && w.inputs[i].Promise? && !w.fate[i].Fulfilled?;
      assert !Delivered(w, i);
    }
  }

  /**
   * Once `when` has returned, it is resolved exactly if every promise among its arguments has been; then the i-th value
   * is what the i-th promise was resolved with, or the i-th argument itself, whatever the order in which they came.
   */
  lemma ResolvedIffAllFulfilled(inputs: seq<Input>, steps: seq<WStep>)
    requires |inputs| > 1 && WRun(inputs, steps).ended
    ensures var w := WRun(inputs, steps);
            && (w.master.state == Resolved <==> AllFulfilled(w))
            && (AllFulfilled(w) ==> Outcome(w.master).1 == [Call(SELF, AllExpected(w))])
  {
    hide WRun, DInv, Outcome, Outstanding, Expected;
    var w := WRun(inputs, steps);
    FulfilledIsDelivered(w);
    assert w.args == AllExpected(w);
  }

  /**
   * It is rejected exactly if some promise has been; so it stays pending exactly while none has and some is still
   * open.
   */
  lemma RejectedIffSomeBroken(inputs: seq<Input>, steps: seq<WStep>)
    requires |inputs| > 1
    ensures WRun(inputs, steps).master.state == Rejected <==> SomeBroken(WRun(inputs, steps))
  {
    hide WRun, DInv, Outcome, Outstanding, Expected;
    assert WInv(WRun(inputs, steps));
  }

  /**
   * The first promise to be rejected decides: its context and arguments are those of the rejection, whatever follows.
   */
  lemma FirstBreakDecides(inputs: seq<Input>, before: seq<WStep>, i: nat, call: Call, after: seq<WStep>)
    requires |inputs| > 1 && Possible(WRun(inputs, before), Break(i, call)) && !SomeBroken(WRun(inputs, before))
    ensures Outcome(WRun(inputs, before + [Break(i, call)] + after).master) == (Rejected, [call])
  {
    hide WInv, DInv, WAfter, Possible, Outcome, SomeBroken;
    var w, s := WRun(inputs, before), Break(i, call);
    assert (before + [s])[..|before + [s]| - 1] == before;
    PendingBeforeBreak(w, i, call);
    BreakKeeps(w, i, call);
    StateIsOutcome(WRun(inputs, before + [s]).master);
    WhenSettlesOnce(inputs, before + [s], after);
  }

  lemma PendingBeforeBreak(w: When, i: nat, call: Call)
    requires WInv(w) && Possible(w, Break(i, call)) && !SomeBroken(w)
    ensures w.master.state == Pending
  {
    hide DInv, Outcome;
    HasOutstanding(w, i);
  }
}
