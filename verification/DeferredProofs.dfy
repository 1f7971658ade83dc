/** What every run of a Deferred keeps: it settles once, and each callback of the winning side runs exactly once. */
module DeferredProofs {
  import opened Common
  import opened CallbackMachine
  import opened CallbackProofs
  import opened DeferredMachine

  /** What the running loop still has to call. */
  function Rest(m: Machine): seq<Entry> {
    if m.firing && m.list.Some? && 0 <= m.firingIndex + 1 <= |m.list.value| then m.list.value[m.firingIndex + 1..]
    else []
  }

  /** The list begins with the Deferred's own callbacks; all others are the user's. */
  predicate Mine(m: Machine, w: Which) {
    && |m.added| >= 3
    && m.added[0].fn == SetState(w == DoneList) && m.added[1].fn == DisableOther && m.added[2].fn == LockProgress
    && forall i :: 3 <= i < |m.added| ==> m.added[i].fn.User?
  }

  /** A list of a pending Deferred: everything added waits in it. */
  predicate Untouched(m: Machine) {
    && !m.firing && m.memory == Unset && m.log == [] && m.started == []
    && m.list == Some(m.added) && m.stack == Some([])
  }

  /** The list of the outcome that did not happen. */
  predicate Closed(m: Machine) {
    m.list.None? && m.stack.None? && !m.firing && m.log == []
  }

  /**
   * The list of the outcome: it was fired once; what it has called, followed by what its loop still has to call, is
   * everything ever added, in order; every call got the arguments of that one fire.
   */
  predicate Settled(m: Machine) {
    && m.list.Some? && m.stack.Some? && |m.started| == 1
    && m.memory == Last(m.started[0]) && m.call == m.started[0]
    && (forall i :: 0 <= i < |m.log| ==> m.log[i].call == m.started[0])
    && EntriesOf(m.log) + Rest(m) == m.added
    && (!m.firing ==> m.list == Some([]))
  }

  predicate UsersOnly(es: seq<Entry>) {
    forall i :: 0 <= i < |es| ==> es[i].fn.User?
  }

  /** One of the two outcomes has happened: the one of list `w`. */
  predicate Over(d: Deferred, w: Which)
    requires w != ProgressList
  {
    && d.state == PhaseOf(w)
    && Settled(Get(d, w)) && Mine(Get(d, w), w) && (Get(d, w).firing ==> |Get(d, w).log| >= 4)
    && Closed(Get(d, Opposite(w))) && d.progress.stack.None?
  }

  predicate Waiting(d: Deferred) {
    && d.state == Pending
    && Untouched(d.done) && Mine(d.done, DoneList) && Untouched(d.fail) && Mine(d.fail, FailList) && Open(d.progress)
  }

  predicate DInv(d: Deferred) {
    && Legal(d) && UsersOnly(d.progress.added)
    && (Waiting(d) || Over(d, DoneList) || Over(d, FailList))
  }

  /** How many callbacks of the list have returned. */
  function Completed(m: Machine): int {
    |m.log| - if m.firing then 1 else 0
  }

  /** The states `Drive` goes through: list `w` was fired, and some of the three own callbacks have taken effect. */
  predicate Stage(d: Deferred, w: Which)
    requires w != ProgressList
  {
    var m, k := Get(d, w), Completed(Get(d, w));
    && Inv(m) && Inv(Get(d, Opposite(w))) && Inv(d.progress)
    && d.done.flags == SETTLING && d.fail.flags == SETTLING && d.progress.flags == REPEATING
    && w !in d.active && (forall v :: v != w ==> (v in d.active <==> Get(d, v).firing))
    && (forall i, j :: 0 <= i < j < |d.active| ==> d.active[i] != d.active[j])
    && UsersOnly(d.progress.added)
    && Mine(m, w) && Settled(m)
    && d.state == (if k >= 1 then PhaseOf(w) else Pending)
    && (if k >= 2 then Closed(Get(d, Opposite(w)))
        else Untouched(Get(d, Opposite(w))) && Mine(Get(d, Opposite(w)), Opposite(w)))
    && (if k >= 3 then d.progress.stack.None? else Open(d.progress))
  }

  /** The callback that comes next moves from what is left to what was called. */
  lemma NextCalled(m: Machine, r: Machine)
    requires m.firing && m.list.Some? && 0 <= m.firingIndex + 1 < |m.list.value|
    requires r == m.(firingIndex := m.firingIndex + 1,
                     log := m.log + [Invocation(m.list.value[m.firingIndex + 1], m.call)])
    ensures EntriesOf(r.log) + Rest(r) == EntriesOf(m.log) + Rest(m)
  {
    var rest := Rest(m);
    assert EntriesOf(r.log) == EntriesOf(m.log) + [rest[0]];
    assert Rest(r) == rest[1..];
    assert EntriesOf(m.log) + [rest[0]] + rest[1..] == EntriesOf(m.log) + rest;
  }

  lemma ListIndex(m: Machine)
    requires Inv(m) && m.firing && m.list.Some?
    ensures 0 <= m.firingIndex + 1 <= |m.list.value|
  {
  }

  lemma SettledReturn(m: Machine)
    requires Inv(m) && m.flags == SETTLING && Settled(m) && m.firing
    ensures var r := Return(m, false);
            Inv(r) && r.flags == SETTLING && Settled(r) && r.added == m.added && r.started == m.started
            && Completed(r) == Completed(m) + 1
  {
    hide Return, Inv, EntriesOf;
    ReturnOnce(m);
    ReturnKeepsInv(m, false);
    ListIndex(m);
    var r := Return(m, false);
    if m.firingIndex + 1 < |m.list.value| {
      NextCalled(m, r);
      hide Rest;
    }
  }

  /** Which callback is running can be read off the number of calls. */
  lemma RunningByCount(m: Machine, w: Which)
    requires Inv(m) && Settled(m) && Mine(m, w) && m.firing
    ensures |m.log| <= |m.added| && Running(m) == m.added[|m.log| - 1].fn
    ensures Running(m).User? <==> |m.log| >= 4
    ensures |m.log| == 1 ==> Running(m) == SetState(w == DoneList)
    ensures |m.log| == 2 ==> Running(m) == DisableOther
    ensures |m.log| == 3 ==> Running(m) == LockProgress
    ensures |m.log| >= 1
  {
    hide Tagged, Queued, InFiring;
    assert (EntriesOf(m.log) + Rest(m))[|m.log| - 1] == m.added[|m.log| - 1];
  }

  function NextStage(d: Deferred, w: Which): Deferred
    requires w != ProgressList && Inv(Get(d, w)) && Get(d, w).firing
  {
    Put(Effect(d, w, Running(Get(d, w))), w, Return(Get(d, w), false))
  }

  /** Each of the three own callbacks brings the Deferred one stage further. */
  lemma StageAdvances(d: Deferred, w: Which)
    requires w != ProgressList && Stage(d, w) && Get(d, w).firing && !Running(Get(d, w)).User?
    ensures Stage(NextStage(d, w), w)
    ensures Get(NextStage(d, w), w).started == Get(d, w).started && Get(NextStage(d, w), w).added == Get(d, w).added
  {
    hide Inv, Settled, Mine, Return, Untouched, Open, Running;
    var m := Get(d, w);
    RunningByCount(m, w);
    SettledReturn(m);
    MineSame(m, Return(m, false), w);
    ClosingKeepsInv(Get(d, Opposite(w)));
    ClosingKeepsInv(d.progress);
    if |m.log| < 3 {
      UntouchedCloses(Get(d, Opposite(w)));
    }
  }

  lemma UntouchedCloses(m: Machine)
    requires Untouched(m)
    ensures Closed(Disable(m)) && !m.firing
  {
  }

  lemma ClosingKeepsInv(m: Machine)
    requires Inv(m)
    ensures Inv(Disable(m)) && Inv(Lock(m)) && Lock(m).stack.None?
    ensures Disable(m).flags == m.flags && Lock(m).flags == m.flags
  {
  }

  lemma StageEnds(d: Deferred, w: Which)
    requires w != ProgressList && Stage(d, w) && (!Get(d, w).firing || Running(Get(d, w)).User?)
    ensures DInv(Drive(d, w)) && Over(Drive(d, w), w) && Get(Drive(d, w), w) == Get(d, w)
  {
    hide Inv, Settled, Untouched, Running, UsersOnly;
    var m := Get(d, w);
    if !m.firing {
      AllCalled(m);
    } else {
      RunningByCount(m, w);
    }
  }

  /** When the list is idle, everything ever added has been called. */
  lemma AllCalled(m: Machine)
    requires Settled(m) && !m.firing
    ensures EntriesOf(m.log) == m.added && |m.log| == |m.added|
  {
    assert EntriesOf(m.log) + [] == EntriesOf(m.log);
  }

  lemma {:induction false} DriveKeeps(d: Deferred, w: Which)
    requires w != ProgressList && Stage(d, w)
    ensures DInv(Drive(d, w)) && Over(Drive(d, w), w)
    ensures Get(Drive(d, w), w).started == Get(d, w).started && Get(Drive(d, w), w).added == Get(d, w).added
    decreases Left(Get(d, w)) + if Get(d, w).firing then 1 else 0
  {
    var m := Get(d, w);
    if !m.firing || Running(m).User? {
      StageEnds(d, w);
    } else {
      StageAdvances(d, w);
      ReturnShortens(m);
      assert Drive(d, w) == Drive(NextStage(d, w), w);
      hide Stage, DInv, Over, Drive, Return;
      DriveKeeps(NextStage(d, w), w);
    }
  }

  // ---- the steps ------------------------------------------------------------------------------------------------

  /** A list that was fired, or that was closed, ignores every further fire. */
  lemma FireIgnored(m: Machine, call: Call)
    requires Inv(m) && m.flags == SETTLING && (Settled(m) || Closed(m))
    ensures FireWith(m, call) == m
  {
  }

  /** The first fire of a waiting list calls its first callback, with the arguments of the fire. */
  lemma FirstFire(m: Machine, w: Which, call: Call)
    requires Inv(m) && m.flags == SETTLING && Untouched(m) && Mine(m, w)
    ensures var r := FireWith(m, call);
            Inv(r) && r.flags == SETTLING && r.firing && Settled(r) && |r.log| == 1
            && r.added == m.added && r.started == [call] && Mine(r, w)
  {
    hide Inv, Mine, EntriesOf, Loop;
    FireWithKeepsInv(m, call);
    CountOwn(m, w);
    NoStart(m);
    var n := m.(requested := m.requested + [call], started := m.started + [call]);
    var r := FireWith(m, call);
    assert r == Loop(Begin(n, call));
    FirstCalled(m, n, call);
    MineSame(m, r, w);
  }

  lemma NoStart(m: Machine)
    requires Inv(m)
    ensures m.firingStart == 0
  {
  }

  lemma FirstCalled(m: Machine, n: Machine, call: Call)
    requires Untouched(m) && m.flags == SETTLING && m.added != [] && m.firingStart == 0
    requires n == m.(requested := m.requested + [call], started := m.started + [call])
    ensures var r := Loop(Begin(n, call));
            r.firing && Settled(r) && r.log == [Invocation(m.added[0], call)] && r.flags == SETTLING
            && r.added == m.added && r.started == [call]
  {
    hide Finish;
    var r := Loop(Begin(n, call));
    assert EntriesOf(r.log) == [m.added[0]] && Rest(r) == m.added[1..];
  }

  /** The fire that settles a waiting Deferred. */
  lemma FireSettles(d: Deferred, w: Which, call: Call)
    requires DInv(d) && Waiting(d) && w != ProgressList
    ensures DInv(Fired(d, w, call)) && Over(Fired(d, w, call), w) && Get(Fired(d, w, call), w).started == [call]
  {
    hide Inv, Settled, Mine, FireWith, UsersOnly, Open;
    var m := Get(d, w);
    FirstFire(m, w, call);
    FireWithKeepsInv(m, call);
    assert Stage(Put(d, w, FireWith(m, call)), w);
    hide Stage, DInv, Over, Drive;
    DriveKeeps(Put(d, w, FireWith(m, call)), w);
  }

  /** Every later fire does nothing. */
  lemma LaterFireIgnored(d: Deferred, w: Which, call: Call)
    requires DInv(d) && !Waiting(d) && w != ProgressList
    ensures Fired(d, w, call) == d
  {
    hide Inv, Mine, FireWith, UsersOnly, Open, Waiting;
    var m := Get(d, w);
    assert Settled(m) || Closed(m);
    hide Settled, Closed;
    FireIgnored(m, call);
  }

  predicate NoTwice(active: seq<Which>) {
    forall i, j :: 0 <= i < j < |active| ==> active[i] != active[j]
  }

  /** The list on top is firing; taking it off leaves the others. */
  lemma TopOfStack(d: Deferred) returns (w: Which, below: seq<Which>)
    requires Legal(d) && d.active != []
    ensures w == d.active[|d.active| - 1] && below == d.active[..|d.active| - 1]
    ensures Get(d, w).firing && NoTwice(below) && w !in below
    ensures forall v :: v != w ==> (v in below <==> Get(d, v).firing)
  {
    hide Inv;
    w, below := d.active[|d.active| - 1], d.active[..|d.active| - 1];
    assert d.active == below + [w];
  }

  lemma PushOnStack(active: seq<Which>, w: Which)
    requires NoTwice(active) && w !in active
    ensures NoTwice(active + [w])
  {
  }

  /** Whatever happens in the progress list leaves the outcome alone. */
  lemma ProgressChanged(d: Deferred, m': Machine, active': seq<Which>)
    requires DInv(d)
    requires Inv(m') && m'.flags == REPEATING && UsersOnly(m'.added)
    requires (d.progress.stack.None? ==> m'.stack.None?) && (Open(d.progress) ==> Open(m'))
    requires forall w :: w in active' <==> if w == ProgressList then m'.firing else w in d.active
    requires NoTwice(active')
    ensures DInv(d.(progress := m', active := active'))
  {
    hide Inv, Settled, Mine, UsersOnly, Open, Closed, Untouched;
  }

  predicate UserArgs(args: seq<Arg>) {
    forall fn :: fn in Flatten(args) ==> fn.User?
  }

  lemma MineGrows(m: Machine, w: Which, r: Machine, extra: seq<Entry>, args: seq<Arg>)
    requires Mine(m, w) && r.added == m.added + extra && UserArgs(args)
    requires forall e :: e in extra ==> e.fn in Flatten(args)
    ensures Mine(r, w)
  {
    hide Flatten;
    assert forall i :: |m.added| <= i < |r.added| ==> r.added[i] in extra;
  }

  /** Adding to a list of a pending Deferred. */
  lemma AddWaits(m: Machine, w: Which, args: seq<Arg>)
    requires Inv(m) && m.flags == SETTLING && Untouched(m) && Mine(m, w) && UserArgs(args)
    ensures var r := Add(m, args);
            Inv(r) && r.flags == SETTLING && Untouched(r) && Mine(r, w) && m.added <= r.added
  {
    hide Inv, Flatten, Mine, UserArgs;
    AddKeepsInv(m, args);
    var extra := PushAppends(m, Flatten(args));
    MineGrows(m, w, Add(m, args), extra, args);
  }

  /** Adding to the list of the outcome while it is running: the loop will reach what was added. */
  lemma AddJoins(m: Machine, w: Which, args: seq<Arg>)
    requires Inv(m) && m.flags == SETTLING && Settled(m) && Mine(m, w) && m.firing && UserArgs(args)
    ensures var r := Add(m, args);
            Inv(r) && r.flags == SETTLING && Settled(r) && Mine(r, w) && r.firing && r.log == m.log
            && r.started == m.started && m.added <= r.added
  {
    hide Flatten, Inv, Push, Mine, UserArgs, Loop, EntriesOf, Rest;
    AddKeepsInv(m, args);
    ListIndex(m);
    var extra := PushAppends(m, Flatten(args));
    var r := Add(m, args);
    assert r == m.(list := Some(m.list.value + extra), added := m.added + extra, due := m.due + extra,
                   firingLength := |m.list.value + extra|);
    MineGrows(m, w, r, extra, args);
    RestGrows(m, r, extra);
    assert EntriesOf(m.log) + Rest(m) + extra == EntriesOf(m.log) + (Rest(m) + extra);
  }

  lemma RestGrows(m: Machine, r: Machine, extra: seq<Entry>)
    requires m.firing && m.list.Some? && 0 <= m.firingIndex + 1 <= |m.list.value|
    requires r.firing && r.list == Some(m.list.value + extra) && r.firingIndex == m.firingIndex
    ensures Rest(r) == Rest(m) + extra
  {
  }

  /** Adding to it when it is idle: what was added is called at once, with the remembered arguments. */
  lemma AddFires(m: Machine, w: Which, args: seq<Arg>)
    requires Inv(m) && m.flags == SETTLING && Settled(m) && Mine(m, w) && !m.firing && UserArgs(args)
    ensures var r := Add(m, args);
            Inv(r) && r.flags == SETTLING && Settled(r) && Mine(r, w)
            && r.started == m.started && m.added <= r.added && Completed(r) >= |m.log| == |m.added|
  {
    hide Tagged, Logged, Queued, InFiring, Flatten, Push, Mine, UserArgs, Loop, Finish, EntriesOf;
    AddKeepsInv(m, args);
    AllCalled(m);
    var extra := PushAppends(m, Flatten(args));
    assert m.list.value + extra == extra;
    var p := m.(list := Some(extra), added := m.added + extra);
    assert Add(m, args) == Loop(Begin(p, m.started[0]));
    MineGrows(m, w, p, extra, args);
    RestartSettled(m, p, extra);
    MineSame(p, Add(m, args), w);
  }

  lemma MineSame(m: Machine, r: Machine, w: Which)
    requires Mine(m, w) && r.added == m.added
    ensures Mine(r, w)
  {
  }

  /** The loop over what was added to an idle list. */
  lemma RestartSettled(m: Machine, p: Machine, extra: seq<Entry>)
    requires Inv(m) && m.flags == SETTLING && Settled(m) && !m.firing && EntriesOf(m.log) == m.added
    requires p == m.(list := Some(extra), added := m.added + extra)
    ensures var r := Loop(Begin(p, m.started[0]));
            Settled(r) && r.flags == SETTLING && r.started == m.started && r.added == p.added && Completed(r) >= |m.log|
  {
    hide Tagged, Logged, Queued;
    var b := Begin(p, m.started[0]);
    var r := Loop(b);
    if extra == [] {
      assert r == Finish(b);
      assert m.added + extra == m.added && EntriesOf(m.log) + [] == EntriesOf(m.log);
    } else {
      assert EntriesOf(r.log) == EntriesOf(m.log) + [extra[0]] && Rest(r) == extra[1..];
      assert EntriesOf(m.log) + [extra[0]] + extra[1..] == EntriesOf(m.log) + extra;
    }
  }

  lemma AddIgnored(m: Machine, args: seq<Arg>)
    requires Inv(m) && m.list.None?
    ensures Add(m, args) == m
  {
  }

  predicate UserStep(s: DStep) {
    match s
    case Done(args) => UserArgs(args)
    case Fail(args) => UserArgs(args)
    case Progress(args) => UserArgs(args)
    case _ => true
  }

  /** The outcome and the arguments it was reached with. */
  function Outcome(d: Deferred): (Phase, seq<Call>) {
    (d.state, match d.state case Resolved => d.done.started case Rejected => d.fail.started case Pending => [])
  }

  lemma AddedWhileWaiting(d: Deferred, w: Which, args: seq<Arg>)
    requires DInv(d) && Waiting(d) && w != ProgressList && UserArgs(args)
    ensures DInv(Added(d, w, args)) && Waiting(Added(d, w, args))
  {
    hide Inv, Mine, UserArgs, Add, Open, UsersOnly;
    AddWaits(Get(d, w), w, args);
  }

  lemma AddedToWinner(d: Deferred, w: Which, args: seq<Arg>)
    requires DInv(d) && w != ProgressList && Over(d, w) && UserArgs(args)
    ensures DInv(Added(d, w, args)) && Over(Added(d, w, args), w)
    ensures Get(Added(d, w, args), w).started == Get(d, w).started
  {
    hide Inv, Mine, UserArgs, Add, Open, UsersOnly, Settled, Closed;
    var m := Get(d, w);
    if m.firing {
      AddJoins(m, w, args);
    } else {
      AddFires(m, w, args);
      CountOwn(m, w);
      assert Stage(Put(d, w, Add(m, args)), w);
      hide Stage, DInv, Over, Drive;
      DriveKeeps(Put(d, w, Add(m, args)), w);
    }
  }

  lemma CountOwn(m: Machine, w: Which)
    requires Mine(m, w)
    ensures |m.added| >= 3
  {
  }

  lemma AddedToLoser(d: Deferred, w: Which, args: seq<Arg>)
    requires DInv(d) && w != ProgressList && Over(d, Opposite(w))
    ensures Added(d, w, args) == d
  {
    hide Inv, Mine, Open, UsersOnly, Settled;
    AddIgnored(Get(d, w), args);
    hide Add;
  }

  lemma AddKeepsUsers(m: Machine, args: seq<Arg>)
    requires Inv(m) && UsersOnly(m.added) && UserArgs(args)
    ensures UsersOnly(Add(m, args).added)
  {
    hide Tagged, Logged, Queued, InFiring, Push, Flatten, Loop, UserArgs;
    if m.list.Some? {
      var extra := PushAppends(m, Flatten(args));
      var p := Push(m, Flatten(args));
      UsersGrow(m.added, extra, args);
      if !p.firing && p.memory.Last? {
        LoopStaysOpen(Begin(p.(firingStart := |m.list.value|), p.memory.call));
      }
    }
  }

  lemma UsersGrow(es: seq<Entry>, extra: seq<Entry>, args: seq<Arg>)
    requires UsersOnly(es) && UserArgs(args) && forall e :: e in extra ==> e.fn in Flatten(args)
    ensures UsersOnly(es + extra)
  {
    hide Flatten;
    assert forall i :: |es| <= i < |es + extra| ==> (es + extra)[i] in extra;
  }

  lemma FiringUnlessDone(m: Machine, call: Call, args: seq<Arg>)
    requires Inv(m) && m.firing
    ensures FireWith(m, call).firing && Add(m, args).firing
  {
    hide Push, Flatten;
    if m.list.Some? {
      PushGrows(m, Flatten(args));
    }
  }

  lemma AddedToProgress(d: Deferred, args: seq<Arg>)
    requires DInv(d) && UserArgs(args)
    ensures DInv(Added(d, ProgressList, args)) && Outcome(Added(d, ProgressList, args)) == Outcome(d)
  {
    hide Inv, UserArgs, Add, Open, UsersOnly, Settled, Closed, Mine, Untouched, Waiting, Over;
    var m := d.progress;
    var m' := Add(m, args);
    AddKeepsInv(m, args);
    AddKeepsUsers(m, args);
    AfterStaysOpen(m, DoAdd(args));
    if m.firing {
      FiringUnlessDone(m, Call(Undefined, []), args);
      ProgressChanged(d, m', d.active);
    } else {
      PushOnStack(d.active, ProgressList);
      ProgressChanged(d, m', if m'.firing then d.active + [ProgressList] else d.active);
    }
  }

  lemma NotifyKeeps(d: Deferred, call: Call)
    requires DInv(d)
    ensures DInv(Fired(d, ProgressList, call)) && Outcome(Fired(d, ProgressList, call)) == Outcome(d)
  {
    hide Inv, FireWith, Open, UsersOnly, Settled, Closed, Mine, Untouched, Waiting, Over;
    var m := d.progress;
    var m' := FireWith(m, call);
    FireWithKeepsInv(m, call);
    AfterStaysOpen(m, DoFire(call));
    if m.firing {
      FiringUnlessDone(m, call, []);
      ProgressChanged(d, m', d.active);
    } else {
      PushOnStack(d.active, ProgressList);
      ProgressChanged(d, m', if m'.firing then d.active + [ProgressList] else d.active);
    }
  }

  /** Once the Deferred has settled, `notify` does nothing at all. */
  lemma NotifyIgnored(d: Deferred, call: Call)
    requires DInv(d) && !Waiting(d)
    ensures Fired(d, ProgressList, call) == d
  {
    hide Inv, Open, UsersOnly, Settled, Closed, Mine, Untouched, Waiting;
  }

  lemma ProgressReturns(d: Deferred, isFalse: bool)
    requires DInv(d) && d.active != [] && d.active[|d.active| - 1] == ProgressList
    ensures DInv(Returned(d, isFalse)) && Outcome(Returned(d, isFalse)) == Outcome(d)
  {
    hide Inv, Return, Open, UsersOnly, Settled, Closed, Mine, Untouched, Waiting, Over;
    var w, init := TopOfStack(d);
    var m := d.progress;
    PushOnStack(init, ProgressList);
    ReturnKeepsInv(m, isFalse);
    AfterStaysOpen(m, DoReturn(isFalse));
    var m' := Return(m, isFalse);
    ProgressChanged(d, m', if m'.firing then init + [ProgressList] else init);
  }

  /** A list whose callback is user code belongs to the outcome. */
  lemma FiringListWon(d: Deferred, w: Which)
    requires DInv(d) && w != ProgressList && Get(d, w).firing
    ensures Over(d, w)
  {
    hide Inv, Settled, Mine, Open, UsersOnly;
  }

  lemma WinnerReturns(d: Deferred, w: Which, isFalse: bool)
    requires DInv(d) && d.active != [] && d.active[|d.active| - 1] == w && w != ProgressList
    ensures DInv(Returned(d, isFalse)) && Over(Returned(d, isFalse), w)
    ensures Get(Returned(d, isFalse), w).started == Get(d, w).started
  {
    hide Inv, Open, UsersOnly, Closed, Mine, Settled, Untouched, Waiting, Loop, Finish, Return;
    var top, init := TopOfStack(d);
    FiringListWon(d, w);
    var m := Get(d, w);
    SettledReturn(m);
    MineSame(m, Return(m, false), w);
    ReturnIgnoresFalse(m, isFalse);
    var e := Put(d.(active := init), w, Return(m, false));
    assert Stage(e, w);
    hide Stage, DInv, Over, Drive;
    DriveKeeps(e, w);
  }

  lemma ReturnIgnoresFalse(m: Machine, isFalse: bool)
    requires Inv(m) && m.firing && m.flags == SETTLING
    ensures Return(m, isFalse) == Return(m, false)
  {
    hide Loop, Finish;
  }

  // ---- all steps, all runs ----------------------------------------------------------------------------------------

  lemma FireKeeps(d: Deferred, w: Which, call: Call)
    requires DInv(d)
    ensures DInv(Fired(d, w, call)) && (!Waiting(d) ==> Fired(d, w, call) == d)
  {
    hide DInv, Waiting, Over, Fired;
    if w == ProgressList {
      NotifyKeeps(d, call);
      if !Waiting(d) {
        NotifyIgnored(d, call);
      }
    } else if Waiting(d) {
      FireSettles(d, w, call);
    } else {
      LaterFireIgnored(d, w, call);
    }
  }

  lemma OutcomeOfOver(d: Deferred, e: Deferred, w: Which)
    requires w != ProgressList && Over(d, w) && Over(e, w) && Get(e, w).started == Get(d, w).started
    ensures Outcome(e) == Outcome(d) && !Waiting(e)
  {
    hide Settled, Mine, Closed, Untouched;
  }

  lemma WaitingOrOver(d: Deferred)
    requires DInv(d)
    ensures d.state == Pending <==> Waiting(d)
    ensures Waiting(d) || Over(d, DoneList) || Over(d, FailList)
  {
    hide Legal, UsersOnly, Settled, Mine, Closed, Untouched;
  }

  lemma AddKeeps(d: Deferred, w: Which, args: seq<Arg>)
    requires DInv(d) && UserArgs(args)
    ensures DInv(Added(d, w, args)) && Outcome(Added(d, w, args)) == Outcome(d)
  {
    WaitingOrOver(d);
    if w == ProgressList {
      AddedToProgress(d, args);
    } else if Waiting(d) {
      AddedWhileWaiting(d, w, args);
      hide DInv, Added, UserArgs, Untouched, Mine, Open;
    } else if Over(d, w) {
      AddedToWinner(d, w, args);
      OutcomeOfOver(d, Added(d, w, args), w);
    } else {
      AddedToLoser(d, w, args);
    }
  }

  lemma ReturnKeeps(d: Deferred, isFalse: bool)
    requires DInv(d)
    ensures DInv(Returned(d, isFalse)) && Outcome(Returned(d, isFalse)) == Outcome(d)
  {
    if d.active != [] {
      hide DInv, Returned, Waiting;
      var w := d.active[|d.active| - 1];
      if w == ProgressList {
        ProgressReturns(d, isFalse);
      } else {
        WinnerReturns(d, w, isFalse);
        TopWon(d);
        OutcomeOfOver(d, Returned(d, isFalse), w);
      }
    }
  }

  lemma TopWon(d: Deferred)
    requires DInv(d) && d.active != [] && d.active[|d.active| - 1] != ProgressList
    ensures Over(d, d.active[|d.active| - 1])
  {
    var w, below := TopOfStack(d);
    FiringListWon(d, w);
  }

  /** Every step keeps the invariant, and none changes an outcome that has been reached. */
  lemma DAfterKeeps(d: Deferred, s: DStep)
    requires DInv(d) && UserStep(s)
    ensures DInv(DAfter(d, s))
    ensures d.state != Pending ==> Outcome(DAfter(d, s)) == Outcome(d)
  {
    WaitingOrOver(d);
    hide DInv, Waiting, Over, Fired, Added, Returned, Outcome, UserArgs;
    match s
    case Resolve(call) => FireKeeps(d, DoneList, call);
    case Reject(call) => FireKeeps(d, FailList, call);
    case Notify(call) => FireKeeps(d, ProgressList, call);
    case Done(args) => AddKeeps(d, DoneList, args);
    case Fail(args) => AddKeeps(d, FailList, args);
    case Progress(args) => AddKeeps(d, ProgressList, args);
    case CallbackReturns(isFalse) => ReturnKeeps(d, isFalse);
  }

  lemma NewIsWaiting()
    ensures DInv(New()) && Waiting(New())
  {
    FreshKeeps(DoneList);
    FreshKeeps(FailList);
    hide FreshList, Mine;
  }

  lemma FreshKeeps(w: Which)
    ensures var m := FreshList(w);
            Inv(m) && m.flags == SETTLING && Untouched(m) && Mine(m, w) && FnsOf(m.added) == Flatten(OwnCallbacks(w))
  {
    hide Flatten, OwnCallbacks, Inv, Push, Add, FnsOf, Mine;
    var c := Created(SETTLING);
    CreatedKeeps(c);
    OwnFlat(w);
    AddKeepsInv(c, OwnCallbacks(w));
    AddToFresh(c, OwnCallbacks(w));
    var extra := PushAppends(c, Flatten(OwnCallbacks(w)));
    assert c.list.value + extra == extra && c.added + extra == extra;
    FnsOfExtra(extra, Flatten(OwnCallbacks(w)));
    OwnAreMine(FreshList(w), w);
  }

  lemma CreatedKeeps(c: Machine)
    requires c == Created(SETTLING)
    ensures Inv(c) && c.flags == SETTLING && Untouched(c)
  {
  }

  lemma {:induction false} AddToFresh(c: Machine, args: seq<Arg>)
    requires Inv(c) && c.list.Some? && !c.firing && c.memory == Unset
    ensures Add(c, args) == Push(c, Flatten(args))
  {
    hide Inv, Push, Flatten;
    PushGrows(c, Flatten(args));
  }

  lemma FnsOfExtra(extra: seq<Entry>, fns: seq<Fn>)
    requires |extra| == |fns| && forall i :: 0 <= i < |fns| ==> extra[i].fn == fns[i]
    ensures FnsOf(extra) == fns
  {
  }

  lemma OwnAreMine(m: Machine, w: Which)
    requires FnsOf(m.added) == [SetState(w == DoneList), DisableOther, LockProgress]
    ensures Mine(m, w)
  {
    assert FnsOf(m.added)[0] == m.added[0].fn && FnsOf(m.added)[1] == m.added[1].fn
           && FnsOf(m.added)[2] == m.added[2].fn;
  }

  lemma OwnFlat(w: Which)
    ensures Flatten(OwnCallbacks(w)) == [SetState(w == DoneList), DisableOther, LockProgress]
  {
    var a, b, c := One(SetState(w == DoneList)), One(DisableOther), One(LockProgress);
    assert Flatten([]) == [];
    assert [c][1..] == [] && Flatten([c]) == [LockProgress] + [];
    assert [b, c][1..] == [c] && Flatten([b, c]) == [DisableOther] + Flatten([c]);
    assert [a, b, c][1..] == [b, c] && Flatten([a, b, c]) == [a.fn] + Flatten([b, c]);
  }

  function FnsOf(es: seq<Entry>): (fns: seq<Fn>)
    ensures |fns| == |es|
  {
    seq(|es|, i requires 0 <= i < |es| => es[i].fn)
  }

  predicate UserSteps(steps: seq<DStep>) {
    forall i :: 0 <= i < |steps| ==> UserStep(steps[i])
  }

  /** Any run of a Deferred: from outside and from callbacks, at any depth, in any order. */
  function DRun(steps: seq<DStep>): (d: Deferred)
    requires UserSteps(steps)
    ensures DInv(d)
  {
    if steps == [] then NewIsWaiting(); New()
    else
      var before := DRun(steps[..|steps| - 1]);
      DAfterKeeps(before, steps[|steps| - 1]);
      DAfter(before, steps[|steps| - 1])
  }

  /** One more step of a run. */
  lemma {:induction false} DRunSnoc(steps: seq<DStep>, s: DStep)
    requires UserSteps(steps + [s])
    ensures UserSteps(steps) && UserStep(s) && Legal(DRun(steps))
    ensures DRun(steps + [s]) == DAfter(DRun(steps), s)
  {
    hide UserStep, DAfter, UsersOnly, Legal, Waiting, Over;
    var all := steps + [s];
    assert all[|all| - 1] == s && all[..|all| - 1] == steps;
    assert forall i :: 0 <= i < |steps| ==> steps[i] == all[i];
    assert DInv(DRun(steps));
  }

  /** A Deferred leaves "pending" at most once, and the arguments it settled with never change. */
  lemma {:induction false} SettlesOnce(steps: seq<DStep>, more: seq<DStep>)
    requires UserSteps(steps) && UserSteps(steps + more) && DRun(steps).state != Pending
    ensures Outcome(DRun(steps + more)) == Outcome(DRun(steps))
    decreases |more|
  {
    hide DRun, DInv, DAfter, UserSteps;
    if more == [] {
      assert steps + more == steps;
    } else {
      var init, s := more[..|more| - 1], more[|more| - 1];
      assert steps + more == steps + init + [s];
      DRunSnoc(steps + init, s);
      SettlesOnce(steps, init);
      DAfterKeeps(DRun(steps + init), s);
    }
  }

  predicate Settles(s: DStep) {
    s.Resolve? || s.Reject?
  }

  lemma OthersKeepPending(d: Deferred, s: DStep)
    requires DInv(d) && UserStep(s) && d.state == Pending && !Settles(s)
    ensures DAfter(d, s).state == Pending
  {
    hide DInv, Fired, Added, Returned, UserArgs;
    match s
    case Notify(call) => NotifyKeeps(d, call);
    case Done(args) => AddKeeps(d, DoneList, args);
    case Fail(args) => AddKeeps(d, FailList, args);
    case Progress(args) => AddKeeps(d, ProgressList, args);
    case CallbackReturns(isFalse) => ReturnKeeps(d, isFalse);
  }

  lemma {:induction false} PendingUntilSettled(steps: seq<DStep>)
    requires UserSteps(steps) && forall i :: 0 <= i < |steps| ==> !Settles(steps[i])
    ensures DRun(steps).state == Pending
  {
    if steps == [] {
      NewIsWaiting();
    } else {
      PendingUntilSettled(steps[..|steps| - 1]);
      OthersKeepPending(DRun(steps[..|steps| - 1]), steps[|steps| - 1]);
    }
  }

  /** The first resolve or reject of a run decides the outcome and its arguments, whatever follows. */
  lemma FirstSettleWins(before: seq<DStep>, s: DStep, after: seq<DStep>)
    requires UserSteps(before + [s] + after) && Settles(s)
    requires forall i :: 0 <= i < |before| ==> !Settles(before[i])
    ensures Outcome(DRun(before + [s] + after))
         == (if s.Resolve? then Resolved else Rejected, [s.call])
  {
    assert forall i :: 0 <= i < |before + [s]| ==> (before + [s])[i] == (before + [s] + after)[i];
    DRunSnoc(before, s);
    PendingUntilSettled(before);
    var d, w := DRun(before), if s.Resolve? then DoneList else FailList;
    hide DRun, Fired, Waiting, Over;
    WaitingOrOver(d);
    FireSettles(d, w, s.call);
    OverOutcome(Fired(d, w, s.call), w);
    hide DInv;
    SettlesOnce(before + [s], after);
  }

  lemma OverOutcome(d: Deferred, w: Which)
    requires w != ProgressList && Over(d, w)
    ensures Outcome(d) == (PhaseOf(w), Get(d, w).started)
  {
    hide Settled, Mine, Closed;
  }

  // ---- who is called ------------------------------------------------------------------------------------------------

  /** The functions a step hands to list `w`. */
  function Given(s: DStep, w: Which): seq<Fn> {
    match s
    case Done(args) => if w == DoneList then Flatten(args) else []
    case Fail(args) => if w == FailList then Flatten(args) else []
    case Progress(args) => if w == ProgressList then Flatten(args) else []
    case _ => []
  }

  lemma MachineAddFns(m: Machine, args: seq<Arg>)
    requires Inv(m) && !m.flags.unique
    ensures FnsOf(Add(m, args).added) == FnsOf(m.added) + if m.list.Some? then Flatten(args) else []
  {
    hide Tagged, Logged, Queued, InFiring, Push, Flatten, Loop;
    if m.list.Some? {
      var extra := PushAppends(m, Flatten(args));
      var p := Push(m, Flatten(args));
      if !p.firing && p.memory.Last? {
        LoopStaysOpen(Begin(p.(firingStart := |m.list.value|), p.memory.call));
      }
      assert FnsOf(m.added + extra) == FnsOf(m.added) + FnsOf(extra);
      assert FnsOf(extra) == Flatten(args);
    } else {
      assert FnsOf(m.added) + [] == FnsOf(m.added);
    }
  }

  lemma EffectKeepsAdded(d: Deferred, w: Which, fn: Fn, v: Which)
    ensures Get(Effect(d, w, fn), v).added == Get(d, v).added
  {
  }

  lemma {:induction false} DriveKeepsAdded(d: Deferred, w: Which, v: Which)
    requires w != ProgressList && Inv(Get(d, w)) && Get(d, w).flags == SETTLING
    ensures Get(Drive(d, w), v).added == Get(d, v).added
    decreases Left(Get(d, w)) + if Get(d, w).firing then 1 else 0
  {
    hide Inv, Return, Effect;
    var m := Get(d, w);
    FiringHasCalled(m);
    if m.firing && !Running(m).User? {
      ReturnKeepsInv(m, false);
      ReturnShortens(m);
      ReturnKeepsAdded(m, false);
      var e := Effect(d, w, Running(m));
      EffectKeepsAdded(d, w, Running(m), v);
      var n := Put(e, w, Return(m, false));
      assert Get(n, w) == Return(m, false);
      assert Get(n, v).added == Get(d, v).added;
      assert Drive(d, w) == Drive(n, w);
      hide Drive;
      DriveKeepsAdded(n, w, v);
    }
  }

  lemma FiringHasCalled(m: Machine)
    requires Inv(m)
    ensures m.firing ==> m.log != []
  {
  }

  lemma ReturnKeepsAdded(m: Machine, isFalse: bool)
    requires Inv(m) && m.firing
    ensures Return(m, isFalse).added == m.added
  {
    AfterStaysOpen(m, DoReturn(isFalse));
  }

  lemma SettleKeepsAdded(d: Deferred, w: Which, v: Which)
    requires Inv(Get(d, w)) && (w != ProgressList ==> Get(d, w).flags == SETTLING)
    ensures Get(Settle(d, w), v).added == Get(d, v).added
  {
    hide Drive, Inv;
    if w != ProgressList {
      DriveKeepsAdded(d, w, v);
    }
  }

  lemma FiredKeepsAdded(d: Deferred, w: Which, call: Call, v: Which)
    requires Legal(d)
    ensures Get(Fired(d, w, call), v).added == Get(d, v).added
  {
    hide Inv, Settle, FireWith;
    var m := Get(d, w);
    FireWithKeepsInv(m, call);
    AfterStaysOpen(m, DoFire(call));
    FireIsStep(m, call);
    if !m.firing {
      SettleKeepsAdded(Put(d, w, FireWith(m, call)), w, v);
    }
  }

  lemma FireIsStep(m: Machine, call: Call)
    requires Inv(m)
    ensures After(m, DoFire(call)) == FireWith(m, call)
  {
  }

  lemma AddedExtends(d: Deferred, w: Which, args: seq<Arg>, v: Which)
    requires Legal(d)
    ensures FnsOf(Get(Added(d, w, args), v).added)
         == FnsOf(Get(d, v).added) + if v == w && Get(d, w).list.Some? then Flatten(args) else []
  {
    hide Inv, Settle, Add, Flatten;
    var m := Get(d, w);
    AddKeepsInv(m, args);
    AfterStaysOpen(m, DoAdd(args));
    MachineAddFns(m, args);
    assert FnsOf(Get(d, v).added) + [] == FnsOf(Get(d, v).added);
    if !m.firing {
      SettleKeepsAdded(Put(d, w, Add(m, args)), w, v);
    }
  }

  lemma ReturnedKeepsAdded(d: Deferred, isFalse: bool, v: Which)
    requires Legal(d)
    ensures Get(Returned(d, isFalse), v).added == Get(d, v).added
  {
    hide Inv, Settle, Return;
    if d.active != [] {
      var w, below := TopOfStack(d);
      var m := Get(d, w);
      ReturnKeepsInv(m, isFalse);
      AfterStaysOpen(m, DoReturn(isFalse));
      ReturnKeepsAdded(m, isFalse);
      SettleKeepsAdded(Put(d.(active := below), w, Return(m, isFalse)), w, v);
    }
  }

  /** A step adds to a list what it hands to it, unless the list is closed, and nothing else ever does. */
  lemma StepExtends(d: Deferred, s: DStep, w: Which)
    requires Legal(d)
    ensures FnsOf(Get(DAfter(d, s), w).added)
         == FnsOf(Get(d, w).added) + if Get(d, w).list.Some? then Given(s, w) else []
  {
    hide Legal, Fired, Added, Returned, Flatten;
    assert FnsOf(Get(d, w).added) + [] == FnsOf(Get(d, w).added);
    match s
    case Resolve(call) => FiredKeepsAdded(d, DoneList, call, w);
    case Reject(call) => FiredKeepsAdded(d, FailList, call, w);
    case Notify(call) => FiredKeepsAdded(d, ProgressList, call, w);
    case Done(args) => AddedExtends(d, DoneList, args, w);
    case Fail(args) => AddedExtends(d, FailList, args, w);
    case Progress(args) => AddedExtends(d, ProgressList, args, w);
    case CallbackReturns(isFalse) => ReturnedKeepsAdded(d, isFalse, w);
  }

  /** All functions handed to list `w` in a run, in order. */
  function GivenIn(steps: seq<DStep>, w: Which): seq<Fn> {
    if steps == [] then [] else GivenIn(steps[..|steps| - 1], w) + Given(steps[|steps| - 1], w)
  }

  function PhaseAgainst(w: Which): Phase {
    PhaseOf(Opposite(w))
  }

  lemma OpenUnlessLost(d: Deferred, w: Which)
    requires DInv(d) && w != ProgressList && d.state != PhaseAgainst(w)
    ensures Get(d, w).list.Some?
  {
    hide Legal, UsersOnly, Mine;
  }

  /**
   * Unless the other side wins, a list has been given its own three callbacks and every function of the run, in
   * order.
   */
  lemma {:induction false} NothingIsLost(steps: seq<DStep>, w: Which)
    requires UserSteps(steps) && w != ProgressList && DRun(steps).state != PhaseAgainst(w)
    ensures FnsOf(Get(DRun(steps), w).added) == Flatten(OwnCallbacks(w)) + GivenIn(steps, w)
  {
    hide *;
    if steps == [] {
      NewGiven(w);
    } else {
      var init, s := steps[..|steps| - 1], steps[|steps| - 1];
      assert steps == init + [s];
      DRunSnoc(init, s);
      if DRun(init).state == PhaseAgainst(w) {
        NotPending(w);
        SettlesOnce(init, [s]);
        StateOfOutcome(DRun(init), DRun(steps));
      }
      NothingIsLost(init, w);
      OpenUnlessLost(DRun(init), w);
      StepExtends(DRun(init), s, w);
      GivenSnoc(init, s, w);
    }
  }

  lemma NewGiven(w: Which)
    requires w != ProgressList
    ensures FnsOf(Get(DRun([]), w).added) == Flatten(OwnCallbacks(w)) + GivenIn([], w)
  {
    FreshKeeps(w);
    hide FreshList, Flatten, OwnCallbacks, FnsOf;
    assert Flatten(OwnCallbacks(w)) + [] == Flatten(OwnCallbacks(w));
  }

  lemma NotPending(w: Which)
    requires w != ProgressList
    ensures PhaseAgainst(w) != Pending
  {
  }

  lemma GivenSnoc(init: seq<DStep>, s: DStep, w: Which)
    ensures forall own :: own + GivenIn(init + [s], w) == own + GivenIn(init, w) + Given(s, w)
  {
    hide Given;
    assert (init + [s])[..|init|] == init;
  }

  lemma StateOfOutcome(d: Deferred, e: Deferred)
    requires Outcome(d) == Outcome(e)
    ensures d.state == e.state
  {
  }

  /** What the user's callbacks in a list have been called as: their functions, in the order of the calls. */
  function UserCalls(m: Machine): seq<Fn> {
    if |m.log| >= 3 then FnsOf(EntriesOf(m.log[3..])) else []
  }

  /**
   * The main statement. When a run has resolved a Deferred and no callback is running any more, the done callbacks
   * called are exactly the functions handed to done in the whole run, before, during and after the resolve, each
   * occurrence once and in that order; every one got the arguments the Deferred was resolved with; no fail callback
   * was called. The same holds for reject and fail.
   */
  lemma EachCallbackOnce(steps: seq<DStep>, w: Which)
    requires UserSteps(steps) && w != ProgressList
    requires DRun(steps).state == PhaseOf(w) && DRun(steps).active == []
    ensures var m := Get(DRun(steps), w);
            && UserCalls(m) == GivenIn(steps, w)
            && (forall i :: 0 <= i < |m.log| ==> [m.log[i].call] == Outcome(DRun(steps)).1)
    ensures Get(DRun(steps), Opposite(w)).log == []
  {
    hide DRun, GivenIn, OwnCallbacks, Flatten, DInv, Outcome;
    var d := DRun(steps);
    var m := Get(d, w);
    NotPending(Opposite(w));
    NothingIsLost(steps, w);
    OwnFlat(w);
    IdleOutcome(d, w);
    assert FnsOf(m.added)[3..] == GivenIn(steps, w);
    assert EntriesOf(m.log)[3..] == EntriesOf(m.log[3..]);
    assert FnsOf(m.added)[3..] == FnsOf(m.added[3..]);
  }

  lemma IdleOutcome(d: Deferred, w: Which)
    requires DInv(d) && w != ProgressList && d.state == PhaseOf(w) && d.active == []
    ensures EntriesOf(Get(d, w).log) == Get(d, w).added && |Get(d, w).log| >= 3
    ensures forall i :: 0 <= i < |Get(d, w).log| ==> [Get(d, w).log[i].call] == Outcome(d).1
    ensures Get(d, Opposite(w)).log == []
  {
    hide Inv, UsersOnly, Open;
    var m := Get(d, w);
    assert !m.firing;
    assert Over(d, w);
    AllCalled(m);
  }
}
