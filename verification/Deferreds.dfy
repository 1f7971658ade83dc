/** jQuery.Deferred: three callback lists and the variable `state`. */
module Deferreds {
  import opened CallbackMachine
  import opened CallbackProofs
  import opened Callbacks
  import opened DeferredMachine
  import opened DeferredProofs

  class DeferredObject {
    const doneList: Callbacks
    const failList: Callbacks
    const progressList: Callbacks
    var state: Phase
    /** The lists whose callbacks are on the call stack, innermost last. */
    ghost var active: seq<Which>

    ghost predicate Shape()
      reads this, doneList, failList, progressList
    {
      && doneList != failList && doneList != progressList && failList != progressList
      && doneList.Valid() && failList.Valid() && progressList.Valid()
    }

    ghost function View(): Deferred
      reads this, doneList, failList, progressList
    {
      Deferred(doneList.View(), failList.View(), progressList.View(), state, active)
    }

    function ListOf(w: Which): Callbacks {
      match w
      case DoneList => doneList
      case FailList => failList
      case ProgressList => progressList
    }

    constructor ()
      ensures Shape() && View() == New()
      ensures fresh(doneList) && fresh(failList) && fresh(progressList)
    {
      doneList := new Callbacks(SETTLING);
      failList := new Callbacks(SETTLING);
      progressList := new Callbacks(REPEATING);
      state, active := Pending, [];
      new;
      FreshAdd(DoneList);
      FreshAdd(FailList);
      doneList.Add(OwnCallbacks(DoneList));
      failList.Add(OwnCallbacks(FailList));
    }

    /** Carries out one of the Deferred's own callbacks. */
    method CallOwn(w: Which, fn: Fn)
      requires Shape() && w != ProgressList && !fn.User?
      modifies this`state, doneList, failList, progressList
      ensures Shape() && View() == Effect(old(View()), w, fn)
    {
      match fn
      case SetState(resolved) => state := if resolved then Resolved else Rejected;
      case DisableOther => if w == DoneList { failList.Disable(); } else { doneList.Disable(); }
      case LockProgress => progressList.Lock();
    }

    /** Runs the own callbacks a list has come to; stops when the list has called user code or is through. */
    method RunOwn(w: Which)
      requires Shape() && w != ProgressList && Inv(ListOf(w).View()) && ListOf(w).flags == SETTLING
      modifies this, doneList, failList, progressList
      ensures Shape() && View() == Drive(old(View()), w)
      decreases Left(ListOf(w).View()) + if ListOf(w).firing then 1 else 0
    {
      hide Inv, Effect, Return, Left;
      var list := ListOf(w);
      ghost var d := View();
      if !list.firing {
        return;
      }
      FiringHasCalled(list.View());
      var fn := list.callee.value;
      if fn.User? {
        active := active + [w];
        return;
      }
      ReturnKeepsInv(list.View(), false);
      ReturnShortens(list.View());
      EffectKeepsOwn(d, w, fn);
      CallOwn(w, fn);
      list.CallbackReturned(false);
      assert View() == Put(Effect(d, w, fn), w, Return(Get(d, w), false));
      hide Drive;
      DriveStep(d, w);
      RunOwn(w);
    }

    /** After a loop test of list `w`: runs its own callbacks, or leaves user code running. */
    method GoOn(w: Which)
      requires Shape() && Inv(ListOf(w).View()) && (w != ProgressList ==> ListOf(w).flags == SETTLING)
      modifies this, doneList, failList, progressList
      ensures Shape() && View() == Settle(old(View()), w)
    {
      hide Drive, Inv;
      if w != ProgressList {
        RunOwn(w);
      } else if progressList.firing {
        active := active + [w];
      }
    }

    method FireList(w: Which, call: Call)
      requires Shape() && Legal(View())
      modifies this, doneList, failList, progressList
      ensures Shape() && View() == Fired(old(View()), w, call)
    {
      hide Inv, FireWith, Settle;
      var list := ListOf(w);
      ghost var d := View();
      FireWithKeepsInv(list.View(), call);
      AfterStaysOpen(list.View(), DoFire(call));
      FireIsStep(list.View(), call);
      var firing := list.firing;
      list.FireWith(call);
      assert View() == Put(d, w, FireWith(Get(d, w), call));
      if !firing {
        GoOn(w);
      }
    }

    method AddTo(w: Which, args: seq<Arg>)
      requires Shape() && Legal(View())
      modifies this, doneList, failList, progressList
      ensures Shape() && View() == Added(old(View()), w, args)
    {
      hide Inv, Add, Settle;
      var list := ListOf(w);
      ghost var d := View();
      AddKeepsInv(list.View(), args);
      AfterStaysOpen(list.View(), DoAdd(args));
      AddIsStep(list.View(), args);
      var firing := list.firing;
      list.Add(args);
      assert View() == Put(d, w, Add(Get(d, w), args));
      if !firing {
        GoOn(w);
      }
    }

    /** The innermost user callback returns. */
    method CallbackReturned(w: Which, isFalse: bool)
      requires Shape() && Legal(View()) && active != [] && w == active[|active| - 1]
      modifies this, doneList, failList, progressList
      ensures Shape() && View() == Returned(old(View()), isFalse)
    {
      hide Inv, Return, Settle;
      ghost var d := View();
      ghost var top, below := TopOfStack(d);
      ReturnKeepsInv(Get(d, w), isFalse);
      AfterStaysOpen(Get(d, w), DoReturn(isFalse));
      ReturnIsStep(Get(d, w), isFalse);
      var list := ListOf(w);
      active := active[..|active| - 1];
      list.CallbackReturned(isFalse);
      assert View() == Put(d.(active := below), w, Return(Get(d, w), isFalse));
      GoOn(w);
    }

    /** One call by the user; `w` says which list a callback that returns belongs to. */
    method Step(s: DStep, w: Which)
      requires Shape() && Legal(View())
      requires s.CallbackReturns? ==> var a := View().active; a != [] && w == a[|a| - 1]
      modifies this, doneList, failList, progressList
      ensures Shape() && View() == DAfter(old(View()), s)
    {
      hide DInv, Added, Fired, Returned;
      match s
      case Resolve(call) => FireList(DoneList, call);
      case Reject(call) => FireList(FailList, call);
      case Notify(call) => FireList(ProgressList, call);
      case Done(args) => AddTo(DoneList, args);
      case Fail(args) => AddTo(FailList, args);
      case Progress(args) => AddTo(ProgressList, args);
      case CallbackReturns(isFalse) => CallbackReturned(w, isFalse);
    }

    /** A whole run: `w` says which list the callback that returns next belongs to. */
    method Perform(steps: seq<DStep>, tops: seq<Which>)
      requires Shape() && UserSteps(steps) && View() == New()
      requires |tops| == |steps|
      requires forall i :: 0 <= i < |steps| && steps[i].CallbackReturns? ==>
                 var a := RunUpTo(steps, i).active; a != [] && tops[i] == a[|a| - 1]
      modifies this, doneList, failList, progressList
      ensures Shape() && View() == DRun(steps)
    {
      hide *;
      var i := 0;
      RunUpToEnds(steps);
      while i < |steps|
        invariant 0 <= i <= |steps| && Shape() && View() == RunUpTo(steps, i)
      {
        RunUpToStep(steps, i);
        Step(steps[i], tops[i]);
        i := i + 1;
      }
    }
  }

  function RunUpTo(steps: seq<DStep>, i: nat): Deferred
    requires i <= |steps| && UserSteps(steps)
  {
    assert forall j :: 0 <= j < i ==> steps[..i][j] == steps[j];
    DRun(steps[..i])
  }

  lemma RunUpToStep(steps: seq<DStep>, i: nat)
    requires i < |steps| && UserSteps(steps)
    ensures Legal(RunUpTo(steps, i)) && RunUpTo(steps, i + 1) == DAfter(RunUpTo(steps, i), steps[i])
  {
    hide DRun, Legal, DAfter, UserStep;
    assert steps[..i + 1] == steps[..i] + [steps[i]];
    DRunSnoc(steps[..i], steps[i]);
  }

  lemma RunUpToEnds(steps: seq<DStep>)
    requires UserSteps(steps)
    ensures RunUpTo(steps, 0) == New() && RunUpTo(steps, |steps|) == DRun(steps)
  {
    assert steps[..|steps|] == steps;
  }

  lemma AddIsStep(m: Machine, args: seq<Arg>)
    requires Inv(m)
    ensures After(m, DoAdd(args)) == Add(m, args)
  {
  }

  lemma ReturnIsStep(m: Machine, isFalse: bool)
    requires Inv(m) && m.firing
    ensures After(m, DoReturn(isFalse)) == Return(m, isFalse)
  {
  }

  lemma EffectKeepsOwn(d: Deferred, w: Which, fn: Fn)
    requires w != ProgressList
    ensures Get(Effect(d, w, fn), w) == Get(d, w)
  {
  }

  lemma DriveStep(d: Deferred, w: Which)
    requires w != ProgressList && Inv(Get(d, w)) && Get(d, w).flags == SETTLING
    requires Get(d, w).firing && !Running(Get(d, w)).User?
    ensures Inv(Return(Get(d, w), false)) && Return(Get(d, w), false).flags == SETTLING
    ensures Drive(d, w) == Drive(Put(Effect(d, w, Running(Get(d, w))), w, Return(Get(d, w), false)), w)
  {
    ReturnKeepsInv(Get(d, w), false);
    ReturnShortens(Get(d, w));
  }

  lemma FreshAdd(w: Which)
    ensures Inv(Created(SETTLING)) && Add(Created(SETTLING), OwnCallbacks(w)) == FreshList(w)
  {
    var c := Created(SETTLING);
    PushGrows(c, Flatten(OwnCallbacks(w)));
  }
}
