/** The progress list of a Deferred: until the Deferred settles it is a callback list of its own. */
module DeferredProgress {
  import opened Common
  import opened CallbackMachine
  import opened CallbackProofs
  import opened CallbackTurns
  import opened CallbackFires
  import opened CallbackMemory
  import opened DeferredMachine
  import opened DeferredProofs

  /** What a step of the Deferred is for its progress list. */
  function ProgressStep(d: Deferred, s: DStep): seq<Step> {
    match s
    case Notify(call) => [DoFire(call)]
    case Progress(args) => [DoAdd(args)]
    case Resolve(_) | Reject(_) => if d.state == Pending then [DoLock] else []
    case CallbackReturns(isFalse) =>
      if d.active != [] && d.active[|d.active| - 1] == ProgressList then [DoReturn(isFalse)] else []
    case Done(_) | Fail(_) => []
  }

  /** The own callbacks of a list lock the progress list once, unless they have done so already. */
  lemma {:induction false} DriveLocks(d: Deferred, w: Which)
    requires w != ProgressList && Stage(d, w)
    ensures Drive(d, w).progress == if Completed(Get(d, w)) < 3 then Lock(d.progress) else d.progress
    decreases Left(Get(d, w)) + if Get(d, w).firing then 1 else 0
  {
    var m := Get(d, w);
    if !m.firing || Running(m).User? {
      StageEnds(d, w);
      EnoughCompleted(d, w);
      hide Stage;
    } else {
      StageAdvances(d, w);
      ReturnShortens(m);
      var n := NextStage(d, w);
      assert Drive(d, w) == Drive(n, w);
      OneCompleted(d, w);
      hide Stage, DInv, Over, Drive, Return;
      DriveLocks(n, w);
    }
  }

  lemma EnoughCompleted(d: Deferred, w: Which)
    requires w != ProgressList && Stage(d, w) && (!Get(d, w).firing || Running(Get(d, w)).User?)
    ensures Completed(Get(d, w)) >= 3
  {
    hide Inv, Settled, Untouched, Running, UsersOnly;
    var m := Get(d, w);
    CountOwn(m, w);
    if !m.firing {
      AllCalled(m);
    } else {
      RunningByCount(m, w);
    }
  }

  lemma OneCompleted(d: Deferred, w: Which)
    requires w != ProgressList && Stage(d, w) && Get(d, w).firing && !Running(Get(d, w)).User?
    ensures var n := NextStage(d, w); var k := Completed(Get(d, w));
            && Completed(Get(n, w)) == k + 1 && k <= 2
            && n.progress == if k == 2 then Lock(d.progress) else d.progress
  {
    hide Inv, Settled, Mine, Return, Untouched, Open, Running;
    var m := Get(d, w);
    RunningByCount(m, w);
    SettledReturn(m);
  }

  lemma SettlingLocks(d: Deferred, w: Which, call: Call)
    requires DInv(d) && Waiting(d) && w != ProgressList
    ensures Fired(d, w, call).progress == Lock(d.progress)
  {
    hide Inv, Settled, Mine, FireWith, UsersOnly, Open;
    var m := Get(d, w);
    FirstFire(m, w, call);
    FireWithKeepsInv(m, call);
    assert Stage(Put(d, w, FireWith(m, call)), w);
    hide Stage, DInv, Over, Drive;
    DriveLocks(Put(d, w, FireWith(m, call)), w);
  }

  lemma AddKeepsProgress(d: Deferred, w: Which, args: seq<Arg>)
    requires DInv(d) && w != ProgressList && UserArgs(args)
    ensures Added(d, w, args).progress == d.progress
  {
    WaitingOrOver(d);
    hide Inv, Mine, UserArgs, Add, Open, UsersOnly, Settled, Closed, Added;
    if Waiting(d) {
      WaitingAddKeepsProgress(d, w, args);
    } else if Over(d, w) {
      WinnerAddKeepsProgress(d, w, args);
    } else {
      AddedToLoser(d, w, args);
    }
  }

  lemma WaitingAddKeepsProgress(d: Deferred, w: Which, args: seq<Arg>)
    requires DInv(d) && Waiting(d) && w != ProgressList && UserArgs(args)
    ensures Added(d, w, args).progress == d.progress
  {
    hide Inv, Mine, UserArgs, Add, Open, UsersOnly;
    AddWaits(Get(d, w), w, args);
  }

  lemma WinnerAddKeepsProgress(d: Deferred, w: Which, args: seq<Arg>)
    requires DInv(d) && w != ProgressList && Over(d, w) && UserArgs(args)
    ensures Added(d, w, args).progress == d.progress
  {
    hide Inv, Mine, UserArgs, Add, Open, UsersOnly, Settled, Closed;
    var m := Get(d, w);
    if m.firing {
      AddJoins(m, w, args);
    } else {
      AddFires(m, w, args);
      CountOwn(m, w);
      var e := Put(d, w, Add(m, args));
      assert Stage(e, w);
      assert Completed(Get(e, w)) >= 3;
      hide Stage, DInv, Over, Drive, Completed;
      DriveLocks(e, w);
    }
  }

  lemma WinnerReturnKeepsProgress(d: Deferred, w: Which, isFalse: bool)
    requires DInv(d) && d.active != [] && d.active[|d.active| - 1] == w && w != ProgressList
    ensures Returned(d, isFalse).progress == d.progress
  {
    hide Inv, Open, UsersOnly, Closed, Mine, Settled, Untouched, Waiting, Loop, Finish, Return;
    var top, init := TopOfStack(d);
    FiringListWon(d, w);
    var m := Get(d, w);
    SettledReturn(m);
    MineSame(m, Return(m, false), w);
    ReturnIgnoresFalse(m, isFalse);
    var e := Put(d.(active := init), w, Return(m, false));
    assert Stage(e, w) && Completed(Get(e, w)) >= 3;
    hide Stage, DInv, Over, Drive;
    DriveLocks(e, w);
  }

  /** One step of the Deferred does to the progress list what its own steps do. */
  lemma StepOfProgress(d: Deferred, s: DStep)
    requires DInv(d) && UserStep(s)
    ensures Inv(d.progress) && DAfter(d, s).progress == Stepped(d.progress, ProgressStep(d, s))
  {
    WaitingOrOver(d);
    OneStep(d.progress);
    hide DInv, Waiting, Over, UserArgs, Inv, FireWith, Add, Return, Stepped, After, Fired, Added, Returned;
    match s
    case Resolve(call) => SettleStep(d, DoneList, call);
    case Reject(call) => SettleStep(d, FailList, call);
    case Notify(call) => NotifyStep(d, call);
    case Progress(args) => ProgressAddStep(d, args);
    case Done(args) => AddKeepsProgress(d, DoneList, args);
    case Fail(args) => AddKeepsProgress(d, FailList, args);
    case CallbackReturns(isFalse) => ReturnStep(d, isFalse);
  }

  lemma NotifyStep(d: Deferred, call: Call)
    requires DInv(d)
    ensures Fired(d, ProgressList, call).progress == FireWith(d.progress, call)
  {
    WaitingOrOver(d);
    hide DInv, Waiting, Over, Inv, FireWith;
    FireWithKeepsInv(d.progress, call);
    AfterStaysOpen(d.progress, DoFire(call));
  }

  lemma ProgressAddStep(d: Deferred, args: seq<Arg>)
    requires DInv(d)
    ensures Added(d, ProgressList, args).progress == Add(d.progress, args)
  {
    WaitingOrOver(d);
    hide DInv, Waiting, Over, Inv, Add;
    AddKeepsInv(d.progress, args);
    AfterStaysOpen(d.progress, DoAdd(args));
  }

  lemma SettleStep(d: Deferred, w: Which, call: Call)
    requires DInv(d) && w != ProgressList
    ensures Fired(d, w, call).progress == if d.state == Pending then Lock(d.progress) else d.progress
  {
    WaitingOrOver(d);
    hide DInv, Waiting, Over, Fired;
    if d.state == Pending {
      SettlingLocks(d, w, call);
    } else {
      LaterFireIgnored(d, w, call);
    }
  }

  lemma ReturnStep(d: Deferred, isFalse: bool)
    requires DInv(d)
    ensures d.active != [] && d.active[|d.active| - 1] == ProgressList ==>
              d.progress.firing && Returned(d, isFalse).progress == Return(d.progress, isFalse)
    ensures d.active == [] || d.active[|d.active| - 1] != ProgressList ==> Returned(d, isFalse).progress == d.progress
  {
    hide Inv, Return;
    if d.active != [] {
      var w, below := TopOfStack(d);
      if w != ProgressList {
        WinnerReturnKeepsProgress(d, w, isFalse);
      } else {
        ReturnKeepsInv(d.progress, isFalse);
        AfterStaysOpen(d.progress, DoReturn(isFalse));
      }
    }
  }

  lemma OneStep(m: Machine)
    requires Inv(m)
    ensures Stepped(m, []) == m && forall s :: Stepped(m, [s]) == After(m, s)
    ensures forall call :: After(m, DoFire(call)) == FireWith(m, call)
    ensures forall args :: After(m, DoAdd(args)) == Add(m, args)
    ensures forall isFalse :: m.firing ==> After(m, DoReturn(isFalse)) == Return(m, isFalse)
    ensures After(m, DoLock) == Lock(m)
  {
    hide Inv, Add, FireWith, Return;
    forall s ensures Stepped(m, [s]) == After(m, s) {
      AfterKeepsInv(m, s);
      assert [s][1..] == [];
    }
  }

  /** All steps of the progress list in a run of the Deferred. */
  function ProgressSteps(steps: seq<DStep>): seq<Step>
    requires UserSteps(steps)
  {
    if steps == [] then []
    else
      var init := steps[..|steps| - 1];
      ProgressSteps(init) + ProgressStep(DRun(init), steps[|steps| - 1])
  }

  /** So everything said about callback lists holds of it. */
  lemma {:induction false} ProgressIsRun(steps: seq<DStep>)
    requires UserSteps(steps)
    ensures DRun(steps).progress == Run(REPEATING, ProgressSteps(steps))
  {
    hide DInv, DAfter, UserStep, Run, ProgressStep;
    if steps == [] {
      NothingRun();
    } else {
      var init, s := steps[..|steps| - 1], steps[|steps| - 1];
      assert steps == init + [s];
      DRunSnoc(init, s);
      ProgressIsRun(init);
      StepOfProgress(DRun(init), s);
      RunGoesOn(REPEATING, ProgressSteps(init), ProgressStep(DRun(init), s));
    }
  }

  lemma NothingRun()
    ensures DRun([]).progress == Run(REPEATING, [])
  {
    hide FreshList;
  }

  // ---- every notification -------------------------------------------------------------------------------------------

  /** The notifications of a run, in order. */
  function Notified(steps: seq<DStep>): seq<Call> {
    if steps == [] then []
    else
      var s := steps[|steps| - 1];
      Notified(steps[..|steps| - 1]) + if s.Notify? then [s.call] else []
  }

  lemma FiresConcat(a: seq<Step>, b: seq<Step>)
    requires |b| <= 1
    ensures Fires(a + b) == Fires(a) + Fires(b)
  {
    if b == [] {
      assert a + b == a && Fires(a) + [] == Fires(a);
    } else {
      assert (a + b)[..|a|] == a && b[..0] == [];
    }
  }

  lemma StepIsNotification(d: Deferred, s: DStep)
    ensures var ps := ProgressStep(d, s);
            && |ps| <= 1 && (forall i :: 0 <= i < |ps| ==> !ps[i].DoRemove?)
            && (!Settles(s) ==> Fires(ps) == (if s.Notify? then [s.call] else []) && NeverClosed(ps))
  {
    var ps := ProgressStep(d, s);
    if ps != [] {
      assert ps[..0] == [];
    }
  }

  lemma {:induction false} FiresAreNotifications(steps: seq<DStep>)
    requires UserSteps(steps) && forall i :: 0 <= i < |steps| ==> !Settles(steps[i])
    ensures Fires(ProgressSteps(steps)) == Notified(steps) && NeverClosed(ProgressSteps(steps))
  {
    hide DRun, UserStep, DInv, ProgressStep, Fires;
    if steps == [] {
      NoFires();
    } else {
      var init, s := steps[..|steps| - 1], steps[|steps| - 1];
      FiresAreNotifications(init);
      StepIsNotification(DRun(init), s);
      FiresConcat(ProgressSteps(init), ProgressStep(DRun(init), s));
    }
  }

  lemma NoFires()
    ensures Fires([]) == []
  {
  }

  /**
   * The first half of what a Deferred promises about progress. As long as it has not settled, every notification is
   * heard, and every function handed to progress is added, in order; the progress callbacks are called with the
   * contexts and arguments of the notifications, in their order; when no callback is running, every notification has
   * had its turn.
   */
  lemma EachNotification(steps: seq<DStep>)
    requires UserSteps(steps) && forall i :: 0 <= i < |steps| ==> !Settles(steps[i])
    ensures var m := DRun(steps).progress;
            && (exists f: seq<nat> :: Follows(m.log, m.started, f))
            && m.started <= Notified(steps) && (!m.firing ==> m.started == Notified(steps))
            && FnsOf(m.added) == GivenIn(steps, ProgressList)
  {
    hide DRun, Run, Notified, ProgressSteps, Fires, Inv;
    ProgressIsRun(steps);
    FiresAreNotifications(steps);
    FiresInOrder(REPEATING, ProgressSteps(steps));
    NeverClosedIsOpen(ProgressSteps(steps));
    ProgressIsGiven(steps);
  }

  lemma {:induction false} ProgressIsGiven(steps: seq<DStep>)
    requires UserSteps(steps) && forall i :: 0 <= i < |steps| ==> !Settles(steps[i])
    ensures FnsOf(DRun(steps).progress.added) == GivenIn(steps, ProgressList)
  {
    hide DInv, DAfter, UserStep, Given, FreshList;
    if steps != [] {
      var init, s := steps[..|steps| - 1], steps[|steps| - 1];
      assert steps == init + [s];
      DRunSnoc(init, s);
      ProgressIsGiven(init);
      StepExtends(DRun(init), s, ProgressList);
      PendingUntilSettled(init);
      OpenWhilePending(DRun(init));
    }
  }

  lemma OpenWhilePending(d: Deferred)
    requires DInv(d) && d.state == Pending
    ensures Open(d.progress)
  {
    WaitingOrOver(d);
    hide Legal, UsersOnly, Settled, Mine, Closed, Untouched;
  }

  /**
   * The other half. A notification of a pending Deferred whose progress callbacks are not running calls the first of
   * them with its context and arguments, and makes all the others wait for their turn, in order.
   */
  lemma NotifyBegins(d: Deferred, call: Call)
    requires DInv(d) && d.state == Pending && !d.progress.firing && d.progress.list.value != []
    ensures var m, p := d.progress, DAfter(d, Notify(call)).progress;
            && p.log == m.log + [Invocation(m.list.value[0], call)]
            && Firing(p) && p.call == call
            && TurnsOf(p).ran == [m.list.value[0]] && TurnsOf(p).waiting == m.list.value[1..]
  {
    OpenWhilePending(d);
    var m := d.progress;
    StepOfProgress(d, Notify(call));
    OneStep(m);
    FiringBegins(m, call);
    FirstOfFiring(m, call);
  }

  lemma FirstOfFiring(m: Machine, call: Call)
    requires Inv(m) && !m.firing && m.stack.Some? && m.list.value != [] && !m.flags.once
    ensures FireWith(m, call).log == m.log + [Invocation(m.list.value[0], call)]
  {
  }

  lemma {:induction false} NothingRemoved(steps: seq<DStep>)
    requires UserSteps(steps)
    ensures forall i :: 0 <= i < |ProgressSteps(steps)| ==> !ProgressSteps(steps)[i].DoRemove?
  {
    hide DRun, UserStep, DInv, ProgressStep;
    if steps != [] {
      NothingRemoved(steps[..|steps| - 1]);
      StepIsNotification(DRun(steps[..|steps| - 1]), steps[|steps| - 1]);
    }
  }

  lemma {:induction false} StepsGoOn(steps: seq<DStep>, more: seq<DStep>)
    requires UserSteps(steps) && UserSteps(steps + more)
    ensures ProgressSteps(steps) <= ProgressSteps(steps + more)
    decreases |more|
  {
    hide DRun, UserStep, DInv, ProgressStep;
    if more == [] {
      assert steps + more == steps;
    } else {
      var init := more[..|more| - 1];
      assert (steps + more)[..|steps + more| - 1] == steps + init;
      StepsGoOn(steps, init);
    }
  }

  /**
   * No step of a Deferred takes a progress callback out: while the firing of a notification goes on, each callback that
   * waits keeps its turn, and when nobody waits any more all have been called with that notification, each once.
   */
  lemma EachProgressCallback(steps: seq<DStep>, more: seq<DStep>, e: Entry)
    requires UserSteps(steps) && UserSteps(steps + more) && ProgressSteps(steps) <= ProgressSteps(steps + more)
    requires Firing(DRun(steps).progress) && e in TurnsOf(DRun(steps).progress).waiting
    requires Turned(TurnsOf(DRun(steps).progress), ProgressSteps(steps + more)[|ProgressSteps(steps)|..]).Some?
    ensures var p, r := DRun(steps).progress, DRun(steps + more).progress;
            && Firing(r) && SameFiring(p, r) && Distinct(Ran(r)) && (TurnsOf(r).waiting == [] ==> e in Ran(r))
  {
    hide DRun, UserStep, DInv, ProgressSteps, Turned, Inv, Ran, TurnsOf, Run;
    var p, before, all := DRun(steps).progress, ProgressSteps(steps), ProgressSteps(steps + more);
    var rest := all[|before|..];
    assert all == before + rest;
    NothingRemoved(steps + more);
    ProgressIsRun(steps);
    ProgressIsRun(steps + more);
    RunGoesOn(REPEATING, before, rest);
    EachTurnComesOnce(p, rest, e);
    NeverCancelled(TurnsOf(p), rest, e);
  }

  lemma {:induction false} NeverCancelled(t: Turns, steps: seq<Step>, e: Entry)
    requires Turned(t, steps).Some? && forall i :: 0 <= i < |steps| ==> !steps[i].DoRemove?
    ensures !Cancelled(t, steps, e)
    decreases |steps|
  {
    hide Turn;
    if steps != [] {
      NeverCancelled(Turn(t, steps[0]).value, steps[1..], e);
    }
  }

  lemma {:induction false} NothingForgotten(steps: seq<DStep>)
    requires UserSteps(steps)
    ensures forall i :: 0 <= i < |ProgressSteps(steps)| ==> !Forgets(REPEATING, ProgressSteps(steps)[i])
  {
    hide DRun, UserStep, DInv;
    if steps != [] {
      NothingForgotten(steps[..|steps| - 1]);
    }
  }

  /**
   * A progress callback that comes late: while the Deferred is pending and none is running, it is called at once with
   * the last notification, if there has been one, and otherwise waits for the first.
   */
  lemma LateProgress(steps: seq<DStep>, fn: Fn)
    requires UserSteps(steps) && fn.User? && forall i :: 0 <= i < |steps| ==> !Settles(steps[i])
    requires !DRun(steps).progress.firing
    ensures var m, told := DRun(steps).progress, Notified(steps);
            var log := DAfter(DRun(steps), Progress([One(fn)])).progress.log;
            if told == [] then log == m.log
            else |log| == |m.log| + 1 && log[..|m.log|] == m.log
                 && log[|m.log|].entry.fn == fn && log[|m.log|].call == told[|told| - 1]
  {
    hide DRun, DAfter, Run, Notified, ProgressSteps, Fires, Inv, Add;
    var d := DRun(steps);
    ProgressIsRun(steps);
    NothingForgotten(steps);
    RemembersLast(REPEATING, ProgressSteps(steps));
    EachNotification(steps);
    PendingUntilSettled(steps);
    OpenWhilePending(d);
    FlattenOne(fn);
    StepOfProgress(d, Progress([One(fn)]));
    OneStep(d.progress);
    if Notified(steps) == [] {
      UnfiredAdd(d.progress, fn);
    } else {
      LateIsCalled(d.progress, fn, d.progress.memory.call);
    }
  }

  lemma FlattenOne(fn: Fn)
    ensures Flatten([One(fn)]) == [fn]
  {
    assert [One(fn)][1..] == [] && Flatten([One(fn)]) == [fn] + [];
  }

  lemma UnfiredAdd(m: Machine, fn: Fn)
    requires Inv(m) && !m.firing && m.memory == Unset
    ensures Add(m, [One(fn)]).log == m.log
  {
    hide Tagged, Logged, Push, Flatten;
    if m.list.Some? {
      var extra := PushAppends(m, Flatten([One(fn)]));
    }
  }
}
