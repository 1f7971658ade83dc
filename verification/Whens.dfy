/** jQuery.when with two or more arguments: the variables its closures share, and those closures. */
module Whens {
  import opened CallbackMachine
  import opened Callbacks
  import opened DeferredMachine
  import opened DeferredProofs
  import opened Deferreds
  import opened WhenMachine
  import opened WhenProofs

  class WhenCall {
    const inputs: seq<Input>
    const deferred: DeferredObject
    var args: seq<Value>
    var pValues: seq<Value>
    var count: int
    var i: nat
    /** Whether the code behind the loop has run, and what the promises have done. */
    ghost var ended: bool
    ghost var fate: seq<Fate>

    ghost predicate Valid()
      reads this, deferred, deferred.doneList, deferred.failList, deferred.progressList
    {
      deferred.Shape() && WInv(View())
    }

    ghost function View(): When
      reads this, deferred, deferred.doneList, deferred.failList, deferred.progressList
    {
      When(inputs, args, pValues, count, i, ended, fate, deferred.View())
    }

    constructor (inputs: seq<Input>)
      requires |inputs| > 1
      ensures Valid() && View() == Begun(inputs) && this.inputs == inputs
      ensures fresh(deferred) && fresh(deferred.doneList) && fresh(deferred.failList) && fresh(deferred.progressList)
    {
      hide Values, Begun, New, WInv, DeferredObject.Shape, DeferredObject.View, Callbacks.View, Callbacks.Valid;
      this.inputs := inputs;
      args := Values(inputs);
      pValues := seq(|inputs|, _ => Undefined);
      count := |inputs|;
      i := 0;
      deferred := new DeferredObject();
      ended := false;
      fate := seq(|inputs|, _ => Fate.Open);
      new;
      BegunKeeps(inputs);
      IsBegun(inputs, View());
      ValidFrom();
    }

    lemma ValidFrom()
      requires deferred.Shape() && WInv(View())
      ensures Valid()
    {
    }

    /** One round of the loop; a promise that has settled before calls back right behind it. */
    method Visit()
      requires Valid() && i < |inputs|
      modifies this
      ensures Valid() && View() == WAfter(old(View()), Register)
    {
      hide DInv, DeferredObject.Shape, Outstanding, Outcome;
      RegisterKeeps(View());
      if inputs[i].Plain? {
        count := count - 1;
      }
      i := i + 1;
    }

    /** The test behind the loop. */
    method Finish()
      requires Valid() && i == |inputs| && !ended
      modifies this, deferred, deferred.doneList, deferred.failList, deferred.progressList
      ensures Valid() && View() == WAfter(old(View()), EndLoop)
    {
      hide Legal, UsersOnly, Waiting, Over, DeferredObject.Shape, Outstanding, Outcome, Fired;
      EndLoopKeeps(View());
      ended := true;
      if count == 0 {
        deferred.FireList(DoneList, Call(SELF, args));
      }
    }

    /** The function `resolveFunc(k)` makes. */
    method Resolved(k: nat, values: seq<Value>)
      requires Valid() && Possible(View(), Fulfil(k, values))
      modifies this, deferred, deferred.doneList, deferred.failList, deferred.progressList
      ensures Valid() && View() == WAfter(old(View()), Fulfil(k, values))
    {
      hide Legal, UsersOnly, Waiting, Over, DeferredObject.Shape, Outstanding, Outcome, Fired;
      FulfilKeeps(View(), k, values);
      fate := fate[k := Fulfilled(values)];
      args := args[k := if |values| > 1 then Array(values) else if |values| == 1 then values[0] else Undefined];
      count := count - 1;
      if count == 0 {
        deferred.FireList(DoneList, Call(SELF, args));
      }
    }

    /** `deferred.reject`, called by promise `k`. */
    method Rejected(k: nat, call: Call)
      requires Valid() && Possible(View(), Break(k, call))
      modifies this, deferred, deferred.doneList, deferred.failList, deferred.progressList
      ensures Valid() && View() == WAfter(old(View()), Break(k, call))
    {
      hide Legal, UsersOnly, Waiting, Over, DeferredObject.Shape, Outstanding, Outcome, Fired;
      BreakKeeps(View(), k, call);
      fate := fate[k := Broken];
      deferred.FireList(FailList, call);
    }

    /** The function `progressFunc(k)` makes. */
    method Progressed(k: nat, values: seq<Value>)
      requires Valid() && Possible(View(), Tell(k, values))
      modifies this, deferred, deferred.doneList, deferred.failList, deferred.progressList
      ensures Valid() && View() == WAfter(old(View()), Tell(k, values))
    {
      hide Legal, UsersOnly, Waiting, Over, DeferredObject.Shape, Outstanding, Outcome, Fired;
      TellKeeps(View(), k, values);
      pValues := pValues[k := if |values| > 1 then Array(values) else if |values| == 1 then values[0] else Undefined];
      deferred.FireList(ProgressList, Call(PROMISE, pValues));
    }
  }

  lemma IsBegun(inputs: seq<Input>, w: When)
    requires |inputs| > 1
    requires w == When(inputs, Values(inputs), seq(|inputs|, _ => Undefined), |inputs|, 0, false,
                       seq(|inputs|, _ => Fate.Open), New())
    ensures w == Begun(inputs)
  {
    hide New;
  }
}
