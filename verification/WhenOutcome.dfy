/** What jQuery.when delivers, told by what the promises were resolved, rejected or notified with. */
module WhenOutcome {
  import opened CallbackMachine
  import opened CallbackFires
  import opened CallbackTurns
  import opened DeferredMachine
  import opened DeferredProofs
  import opened DeferredProgress
  import opened WhenMachine
  import opened WhenProofs

  /** What one position of the result is, for the values a promise came with: all of them if there are several. */
  predicate Carries(v: Value, values: seq<Value>) {
    && (|values| > 1 ==> v == Array(values))
    && (|values| == 1 ==> v == values[0])
    && (values == [] ==> v == Undefined)
  }

  lemma FateStays(w: When, s: WStep, i: nat)
    requires WInv(w) && Possible(w, s) && i < |w.fate| && !w.fate[i].Open?
    ensures |WAfter(w, s).fate| == |w.fate| && WAfter(w, s).fate[i] == w.fate[i]
  {
    hide DInv, Outcome, Outstanding, Expected, Fired, DAfter, UserStep;
  }

  lemma {:induction false} FateIsKept(inputs: seq<Input>, steps: seq<WStep>, more: seq<WStep>, i: nat)
    requires |inputs| > 1 && i < |WRun(inputs, steps).fate| && !WRun(inputs, steps).fate[i].Open?
    ensures |WRun(inputs, steps + more).fate| == |WRun(inputs, steps).fate|
    ensures WRun(inputs, steps + more).fate[i] == WRun(inputs, steps).fate[i]
    decreases |more|
  {
    hide WInv, DInv, WAfter, Possible;
    if more == [] {
      assert steps + more == steps;
    } else {
      var init, s := more[..|more| - 1], more[|more| - 1];
      assert (steps + more)[..|steps + more| - 1] == steps + init;
      FateIsKept(inputs, steps, init, i);
      if Possible(WRun(inputs, steps + init), s) {
        FateStays(WRun(inputs, steps + init), s, i);
      }
    }
  }

  lemma FulfilSetsFate(w: When, i: nat, values: seq<Value>)
    requires WInv(w) && Possible(w, Fulfil(i, values))
    ensures var r := WAfter(w, Fulfil(i, values)); i < |r.fate| && r.fate[i] == Fulfilled(values)
  {
    hide DInv, Outcome, Outstanding, Expected, Fired;
  }

  lemma BreakSetsFate(w: When, i: nat, call: Call)
    requires WInv(w) && Possible(w, Break(i, call))
    ensures var r := WAfter(w, Break(i, call)); i < |r.fate| && r.fate[i] == Broken
  {
    hide DInv, Outcome, Outstanding, Expected, Fired;
  }

  lemma ExpectedCarries(w: When, i: nat)
    requires Shape(w) && i < |w.inputs|
    ensures w.fate[i].Fulfilled? ==> Carries(Expected(w, i), w.fate[i].values)
    ensures w.fate[i].Open? ==> Expected(w, i) == w.inputs[i].value
  {
    hide DInv;
  }

  lemma OneArgument(w: When, i: nat)
    requires Shape(w) && i < |w.inputs|
    ensures AllExpected(w)[i] == Expected(w, i)
  {
  }

  /**
   * However the steps were ordered: once `when` has resolved, position i of the arguments is what promise i was
   * resolved with, one value as it is, several as an array, none as undefined.
   */
  lemma DeliversWhatCame(inputs: seq<Input>, before: seq<WStep>, i: nat, values: seq<Value>, after: seq<WStep>)
    requires |inputs| > 1 && Possible(WRun(inputs, before), Fulfil(i, values))
    requires var w := WRun(inputs, before + [Fulfil(i, values)] + after); w.ended && w.master.state == Resolved
    ensures var o := Outcome(WRun(inputs, before + [Fulfil(i, values)] + after).master);
            && |o.1| == 1 && |o.1[0].args| == |inputs| && i < |inputs| && Carries(o.1[0].args[i], values)
  {
    hide WInv, DInv, WAfter, Possible, Outcome, Expected, Carries;
    var s := Fulfil(i, values);
    var all := before + [s] + after;
    assert (before + [s])[..|before|] == before;
    FulfilSetsFate(WRun(inputs, before), i, values);
    FateIsKept(inputs, before + [s], after, i);
    ResolvedIffAllFulfilled(inputs, all);
    OneArgument(WRun(inputs, all), i);
    ExpectedCarries(WRun(inputs, all), i);
  }

  /** An argument that is no promise is delivered as it is. */
  lemma DeliversPlainValues(inputs: seq<Input>, steps: seq<WStep>, i: nat)
    requires |inputs| > 1 && i < |inputs| && inputs[i].Plain?
    requires WRun(inputs, steps).ended && WRun(inputs, steps).master.state == Resolved
    ensures var o := Outcome(WRun(inputs, steps).master);
            |o.1| == 1 && |o.1[0].args| == |inputs| && o.1[0].args[i] == inputs[i].value
  {
    hide WRun, DInv, Outcome, Expected;
    ResolvedIffAllFulfilled(inputs, steps);
    OneArgument(WRun(inputs, steps), i);
    PlainStaysOpen(WRun(inputs, steps), i);
    ExpectedCarries(WRun(inputs, steps), i);
  }

  lemma PlainStaysOpen(w: When, i: nat)
    requires WInv(w) && i < |w.inputs| && w.inputs[i].Plain?
    ensures w.fate[i].Open?
  {
    hide DInv, Outcome, Expected, Outstanding;
  }

  /** A promise that was rejected stays so: `when` does not resolve any more. */
  lemma BrokenIsRejected(inputs: seq<Input>, before: seq<WStep>, i: nat, call: Call, after: seq<WStep>)
    requires |inputs| > 1 && Possible(WRun(inputs, before), Break(i, call))
    ensures WRun(inputs, before + [Break(i, call)] + after).master.state == Rejected
  {
    hide WInv, DInv, WAfter, Possible, Outcome;
    var s := Break(i, call);
    var all := before + [s] + after;
    assert (before + [s])[..|before|] == before;
    BreakSetsFate(WRun(inputs, before), i, call);
    FateIsKept(inputs, before + [s], after, i);
    RejectedIffSomeBroken(inputs, all);
  }

  // ---- notifications ------------------------------------------------------------------------------------------------

  /** The values promise i has notified with last, if any. */
  function LastTold(inputs: seq<Input>, steps: seq<WStep>, i: nat): seq<seq<Value>>
    requires |inputs| > 1
  {
    if steps == [] then []
    else
      var init, s := steps[..|steps| - 1], steps[|steps| - 1];
      if s.Tell? && s.i == i && Possible(WRun(inputs, init), s) then [s.values] else LastTold(inputs, init, i)
  }

  lemma StepTells(w: When, s: WStep, i: nat)
    requires WInv(w) && Possible(w, s) && i < |w.inputs|
    ensures var r := WAfter(w, s);
            && |r.pValues| == |w.pValues|
            && if s.Tell? && s.i == i then Carries(r.pValues[i], s.values) else r.pValues[i] == w.pValues[i]
  {
    hide DInv, Outcome, Outstanding, Expected, Fired, DAfter, UserStep;
  }

  /** The array that `when` notifies with has in position i what promise i has notified with last, or undefined. */
  lemma {:induction false} TellsWhatCame(inputs: seq<Input>, steps: seq<WStep>, i: nat)
    requires |inputs| > 1 && i < |inputs|
    ensures var w, told := WRun(inputs, steps), LastTold(inputs, steps, i);
            && |w.pValues| == |inputs|
            && if told == [] then w.pValues[i] == Undefined else Carries(w.pValues[i], told[0])
  {
    hide WInv, DInv, WAfter, Possible, Carries;
    if steps != [] {
      var init, s := steps[..|steps| - 1], steps[|steps| - 1];
      TellsWhatCame(inputs, init, i);
      if Possible(WRun(inputs, init), s) {
        StepTells(WRun(inputs, init), s, i);
      }
    }
  }

  /**
   * While `when` is pending, a notification of one of the promises is passed on: the progress list of its Deferred is
   * asked to fire with that array, as the promise.
   */
  lemma NotificationPassesOn(w: When, i: nat, values: seq<Value>)
    requires WInv(w) && Possible(w, Tell(i, values)) && w.master.state == Pending
    ensures var r := WAfter(w, Tell(i, values));
            r.master.progress.requested == w.master.progress.requested + [Call(PROMISE, r.pValues)]
  {
    hide Outcome, Outstanding, Expected;
    var r := WAfter(w, Tell(i, values));
    PendingNotify(w.master, Call(PROMISE, r.pValues));
  }

  lemma PendingNotify(d: Deferred, call: Call)
    requires DInv(d) && d.state == Pending
    ensures Fired(d, ProgressList, call).progress.requested == d.progress.requested + [call]
  {
    StepOfProgress(d, Notify(call));
    OneStep(d.progress);
    OpenWhilePending(d);
    StepAsksFor(d.progress, DoFire(call));
    hide DInv, Stepped, After, Fired, FireWith;
  }
}
