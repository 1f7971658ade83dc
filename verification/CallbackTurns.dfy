/**
 * One firing of a callback list from its first callback to its last, told without indices: who has run, who waits for
 * a turn, who is in the list. The loop of `fire` with the corrections that `add` and `remove` make to its indices
 * keeps to it, so every turn that is not taken away comes exactly once.
 */
module CallbackTurns {
  import opened Common
  import opened CallbackMachine
  import opened CallbackProofs

  /**
   * The turns of a firing: who has run, the callback now running included, who waits, and who is in the list. Whether
   * its arguments are remembered decides what `lock` does; `added` counts the occurrences ever added to the list.
   */
  datatype Turns = Turns(
    flags: Flags, remembers: bool, ran: seq<Entry>, waiting: seq<Entry>, list: seq<Entry>, added: nat)

  /** The occurrences `add` makes of functions, in order; in unique mode not of one that the list has. */
  function Joining(t: Turns, fns: seq<Fn>): seq<Entry>
    decreases |fns|
  {
    if fns == [] then []
    else if t.flags.unique && Has(t.list, fns[0]) then Joining(t, fns[1..])
    else
      var e := Entry(fns[0], t.added);
      [e] + Joining(t.(list := t.list + [e], added := t.added + 1), fns[1..])
  }

  function Join(t: Turns, joining: seq<Entry>): Turns {
    t.(waiting := t.waiting + joining, list := t.list + joining, added := t.added + |joining|)
  }

  function Leave(t: Turns, fns: seq<Fn>): Turns
    decreases |fns|
  {
    if fns == [] then t
    else Leave(t.(waiting := Others(t.waiting, fns[0]), list := Others(t.list, fns[0])), fns[1..])
  }

  /** A step of the firing; None where it ends the firing. */
  function Turn(t: Turns, s: Step): Option<Turns> {
    match s
    case DoAdd(args) => Some(Join(t, Joining(t, Flatten(args))))
    case DoRemove(fns) => Some(Leave(t, fns))
    case DoFire(_) => Some(t)
    case DoReturn(isFalse) =>
      if t.waiting == [] || (isFalse && t.flags.stopOnFalse) then None
      else Some(t.(ran := t.ran + [t.waiting[0]], waiting := t.waiting[1..]))
    case DoLock => if t.remembers then Some(t) else None
    case DoDisable => None
  }

  function Turned(t: Turns, steps: seq<Step>): Option<Turns>
    decreases |steps|
  {
    if steps == [] then Some(t)
    else match Turn(t, steps[0])
      case Some(next) => Turned(next, steps[1..])
      case None => None
  }

  // ---- the machine keeps to it --------------------------------------------------------------------------------------

  predicate Firing(m: Machine) {
    Inv(m) && m.firing && m.list.Some?
  }

  function TurnsOf(m: Machine): Turns
    requires Firing(m)
  {
    Turns(m.flags, m.memory.Last?, Ran(m), m.list.value[m.firingIndex + 1..], m.list.value, |m.added|)
  }

  /** Any steps from any state. */
  function Stepped(m: Machine, steps: seq<Step>): (r: Machine)
    requires Inv(m)
    ensures Inv(r)
    decreases |steps|
  {
    if steps == [] then m
    else
      AfterKeepsInv(m, steps[0]);
      Stepped(After(m, steps[0]), steps[1..])
  }

  /** The fires that have begun, and the arguments of the present one, are the same. */
  predicate SameFiring(m: Machine, r: Machine) {
    r.mark == m.mark && r.call == m.call && r.started == m.started
  }

  lemma {:induction false} PushIsJoining(m: Machine, fns: seq<Fn>, t: Turns)
    requires m.list == Some(t.list) && |m.added| == t.added && m.flags == t.flags
    ensures var joining := Joining(t, fns);
            Push(m, fns) == m.(list := Some(t.list + joining), added := m.added + joining,
                               due := if m.firing then m.due + joining else m.due)
    decreases |fns|
  {
    if fns == [] {
      assert t.list + [] == t.list && m.added + [] == m.added && m.due + [] == m.due;
    } else if m.flags.unique && Has(t.list, fns[0]) {
      PushIsJoining(m, fns[1..], t);
    } else {
      hide Has;
      var e := Entry(fns[0], t.added);
      var next := t.(list := t.list + [e], added := t.added + 1);
      PushIsJoining(PushOne(m, fns[0]), fns[1..], next);
      var rest := Joining(next, fns[1..]);
      assert t.list + [e] + rest == t.list + ([e] + rest);
      assert m.added + [e] + rest == m.added + ([e] + rest) && m.due + [e] + rest == m.due + ([e] + rest);
    }
  }

  lemma AddIsJoin(m: Machine, args: seq<Arg>)
    requires Firing(m)
    ensures var t := TurnsOf(m);
            && Firing(Add(m, args)) && SameFiring(m, Add(m, args))
            && TurnsOf(Add(m, args)) == Join(t, Joining(t, Flatten(args)))
  {
    AddKeepsInv(m, args);
    AddFields(m, args);
    hide Inv, Add, Flatten, Joining, Push, Ran;
    var joining := Joining(TurnsOf(m), Flatten(args));
    IndexInList(m);
    SameRan(m, Add(m, args));
    DropOfConcat(m.list.value, joining, m.firingIndex + 1);
  }

  lemma DropOfConcat(a: seq<Entry>, b: seq<Entry>, i: nat)
    requires i <= |a|
    ensures (a + b)[i..] == a[i..] + b
  {
  }

  lemma AddFields(m: Machine, args: seq<Arg>)
    requires Firing(m)
    ensures var r, joining := Add(m, args), Joining(TurnsOf(m), Flatten(args));
            && r.list == Some(m.list.value + joining) && |r.added| == |m.added| + |joining| && r.firing
            && r.log == m.log && r.mark == m.mark && r.flags == m.flags && r.memory == m.memory
            && r.firingIndex == m.firingIndex && r.call == m.call && r.started == m.started
  {
    AddWhileFiring(m, args);
    hide Inv, Add, Flatten, Joining, Push, Ran;
    PushIsJoining(m, Flatten(args), TurnsOf(m));
  }

  lemma AddWhileFiring(m: Machine, args: seq<Arg>)
    requires Firing(m)
    ensures var r := Push(m, Flatten(args)); r.list.Some? && Add(m, args) == r.(firingLength := |r.list.value|)
  {
    hide Inv, Flatten, Push;
    PushGrows(m, Flatten(args));
  }

  lemma IndexInList(m: Machine)
    requires Firing(m)
    ensures -1 <= m.firingIndex < |m.list.value| && m.mark <= |m.log| && m.due == Ran(m) + TurnsOf(m).waiting
  {
  }

  lemma {:induction false} RemoveFromKeepsRest(m: Machine, fn: Fn, i: nat)
    requires m.list.Some? && i <= |m.list.value|
    ensures RemoveFrom(m, fn, i).list.Some? && SameFiring(m, RemoveFrom(m, fn, i))
    ensures m == RemoveFrom(m, fn, i).(list := m.list, firingLength := m.firingLength, firingIndex := m.firingIndex,
                                       due := m.due)
    decreases |m.list.value| - i
  {
    hide Ran, Without;
    if i < |m.list.value| {
      if m.list.value[i].fn == fn {
        if !m.flags.unique {
          RemoveFromKeepsRest(Splice(m, i), fn, i);
        }
      } else {
        RemoveFromKeepsRest(m, fn, i + 1);
      }
    }
  }

  /** Those who wait have not run, so all of them that are `fn` are cancelled. */
  lemma {:induction false} StillWaiting(ran: seq<Entry>, waiting: seq<Entry>, fn: Fn)
    requires forall e :: e in waiting ==> e !in ran
    ensures StillDue(waiting, ran, fn) == Others(waiting, fn)
  {
    if waiting != [] {
      StillWaiting(ran, waiting[1..], fn);
    }
  }

  lemma WaitingHasNotRun(ran: seq<Entry>, waiting: seq<Entry>)
    requires Distinct(ran + waiting)
    ensures forall e :: e in waiting ==> e !in ran
  {
    forall e | e in waiting ensures e !in ran {
      var j :| 0 <= j < |waiting| && waiting[j] == e;
      PendingHasNotRun(ran, waiting, j);
    }
  }

  lemma RemoveOneIsLeave(m: Machine, fn: Fn)
    requires Firing(m)
    ensures var r, t := RemoveFrom(m, fn, 0), TurnsOf(m);
            && Firing(r) && SameFiring(m, r)
            && TurnsOf(r) == t.(waiting := Others(t.waiting, fn), list := Others(t.list, fn))
  {
    var r, t := RemoveFrom(m, fn, 0), TurnsOf(m);
    RemoveCancelsPendingTurns(m, fn);
    RemoveFromFilters(m, fn, 0);
    RemoveFromKeepsRest(m, fn, 0);
    IndexInList(m);
    IndexInList(r);
    assert Distinct(m.due);
    hide Inv, RemoveFrom, Distinct, Ran;
    WaitingHasNotRun(t.ran, t.waiting);
    StillDueConcat(t.ran, t.waiting, t.ran, fn);
    StillDueOfRan(t.ran, t.ran, fn);
    StillWaiting(t.ran, t.waiting, fn);
    hide StillDue, Others;
    assert TurnsOf(r).waiting == r.due[|t.ran|..];
  }

  lemma {:induction false} RemoveIsLeave(m: Machine, fns: seq<Fn>)
    requires Firing(m)
    ensures Firing(Remove(m, fns)) && SameFiring(m, Remove(m, fns))
    ensures TurnsOf(Remove(m, fns)) == Leave(TurnsOf(m), fns)
    decreases |fns|
  {
    hide Inv, RemoveFrom, Others, Ran;
    if fns != [] {
      RemoveOneIsLeave(m, fns[0]);
      RemoveIsLeave(RemoveFrom(m, fns[0], 0), fns[1..]);
    }
  }

  lemma ReturnIsTurn(m: Machine, isFalse: bool)
    requires Firing(m) && TurnsOf(m).waiting != [] && !(isFalse && m.flags.stopOnFalse)
    ensures var t := TurnsOf(m);
            && Firing(Return(m, isFalse)) && SameFiring(m, Return(m, isFalse))
            && TurnsOf(Return(m, isFalse)) == t.(ran := t.ran + [t.waiting[0]], waiting := t.waiting[1..])
  {
    ReturnKeepsInv(m, isFalse);
    NextIsFirstDue(m, isFalse);
    IndexInList(m);
    hide Inv, Return;
    var next := m.due[|Ran(m)|];
    assert next == TurnsOf(m).waiting[0];
    assert (m.log + [Invocation(next, m.call)])[m.mark..] == m.log[m.mark..] + [Invocation(next, m.call)];
  }

  /** One step of the machine during a firing is a step of its turns. */
  lemma StepIsTurn(m: Machine, s: Step)
    requires Firing(m) && Turn(TurnsOf(m), s).Some?
    ensures Firing(After(m, s)) && SameFiring(m, After(m, s))
    ensures TurnsOf(After(m, s)) == Turn(TurnsOf(m), s).value
  {
    AfterKeepsInv(m, s);
    match s
    case DoAdd(args) => AddIsJoin(m, args);
    case DoRemove(fns) => RemoveIsLeave(m, fns);
    case DoReturn(isFalse) => ReturnIsTurn(m, isFalse);
    case _ =>
  }

  /** So is any number of steps: as long as the turns go on, the machine is in the same firing, with these turns. */
  lemma {:induction false} FiringKeepsTurns(m: Machine, steps: seq<Step>)
    requires Firing(m) && Turned(TurnsOf(m), steps).Some?
    ensures Firing(Stepped(m, steps)) && SameFiring(m, Stepped(m, steps))
    ensures TurnsOf(Stepped(m, steps)) == Turned(TurnsOf(m), steps).value
    decreases |steps|
  {
    hide TurnsOf, Turn, After, Inv;
    if steps != [] {
      StepIsTurn(m, steps[0]);
      FiringKeepsTurns(After(m, steps[0]), steps[1..]);
    }
  }

  /** The steps from outside that follow a run make a longer run. */
  lemma {:induction false} RunGoesOn(flags: Flags, steps: seq<Step>, more: seq<Step>)
    ensures Stepped(Run(flags, steps), more) == Run(flags, steps + more)
    decreases |more|
  {
    hide After, Inv, Attributed;
    if more == [] {
      assert steps + [] == steps;
    } else {
      var longer := steps + [more[0]];
      assert longer[..|longer| - 1] == steps;
      RunGoesOn(flags, longer, more[1..]);
      assert longer + more[1..] == steps + more;
    }
  }

  /** A firing begins with the first function of the list running and all others waiting, in order. */
  lemma FiringBegins(m: Machine, call: Call)
    requires Inv(m) && !m.firing && m.stack.Some? && !(m.flags.once && m.memory != Unset) && m.list.value != []
    ensures var r := FireWith(m, call);
            && Firing(r) && r.call == call && r.started == m.started + [call]
            && TurnsOf(r) == Turns(m.flags, m.flags.memory, [m.list.value[0]], m.list.value[1..], m.list.value,
                                   |m.added|)
  {
    FireWithKeepsInv(m, call);
    var r := FireWith(m, call);
    assert r.log[|m.log|..] == [Invocation(m.list.value[0], call)];
  }

  /** `add` to a list that remembers its last fire begins a firing of what it adds, with the remembered arguments. */
  lemma AddBegins(m: Machine, args: seq<Arg>)
    requires Inv(m) && !m.firing && m.list.Some? && m.memory.Last?
    requires Joining(Turns(m.flags, true, [], [], m.list.value, |m.added|), Flatten(args)) != []
    ensures var t, r := Turns(m.flags, true, [], [], m.list.value, |m.added|), Add(m, args);
            var joining := Joining(t, Flatten(args));
            && Firing(r) && r.call == m.memory.call && r.started == m.started
            && TurnsOf(r).ran == [joining[0]] && TurnsOf(r).waiting == joining[1..]
            && TurnsOf(r).list == m.list.value + joining
  {
    AddKeepsInv(m, args);
    var t := Turns(m.flags, true, [], [], m.list.value, |m.added|);
    PushIsJoining(m, Flatten(args), t);
    PushGrows(m, Flatten(args));
    var joining, r := Joining(t, Flatten(args)), Add(m, args);
    hide Inv, Flatten, Joining, Push;
    assert r.log[|m.log|..] == [Invocation(joining[0], m.memory.call)];
    assert (m.list.value + joining)[|m.list.value| + 1..] == joining[1..];
  }

  // ---- every turn comes once ----------------------------------------------------------------------------------------

  /** Somewhere in the run the function of an occurrence is removed that still waits for its turn. */
  predicate Cancelled(t: Turns, steps: seq<Step>, e: Entry)
    requires Turned(t, steps).Some?
    decreases |steps|
  {
    steps != [] && (Cancels(t, steps[0], e) || Cancelled(Turn(t, steps[0]).value, steps[1..], e))
  }

  predicate Cancels(t: Turns, s: Step, e: Entry) {
    s.DoRemove? && e.fn in s.fns && e in t.waiting
  }

  lemma {:induction false} OthersKeep(es: seq<Entry>, fn: Fn, e: Entry)
    ensures e in Others(es, fn) <==> e in es && e.fn != fn
  {
    if es != [] {
      OthersKeep(es[1..], fn, e);
    }
  }

  lemma {:induction false} LeaveKeeps(t: Turns, fns: seq<Fn>, e: Entry)
    ensures Leave(t, fns).ran == t.ran && Leave(t, fns).added == t.added
    ensures e in Leave(t, fns).waiting <==> e in t.waiting && e.fn !in fns
    decreases |fns|
  {
    hide Others;
    if fns != [] {
      OthersKeep(t.waiting, fns[0], e);
      LeaveKeeps(t.(waiting := Others(t.waiting, fns[0]), list := Others(t.list, fns[0])), fns[1..], e);
    }
  }

  lemma {:induction false} JoiningIsNew(t: Turns, fns: seq<Fn>, e: Entry)
    requires e in Joining(t, fns)
    ensures e.tag >= t.added
    decreases |fns|
  {
    hide Has;
    if t.flags.unique && Has(t.list, fns[0]) {
      JoiningIsNew(t, fns[1..], e);
    } else if e != Entry(fns[0], t.added) {
      JoiningIsNew(t.(list := t.list + [Entry(fns[0], t.added)], added := t.added + 1), fns[1..], e);
    }
  }

  /** What one step does to the turn of an occurrence that is not new. */
  lemma TurnKeeps(t: Turns, s: Step, e: Entry)
    requires Turn(t, s).Some? && e.tag < t.added
    ensures var n := Turn(t, s).value;
            && t.ran <= n.ran && t.added <= n.added
            && ((e in n.ran || e in n.waiting) <==> e in t.ran || (e in t.waiting && !Cancels(t, s, e)))
  {
    hide Joining, Flatten, Leave;
    match s
    case DoAdd(args) =>
      var joining := Joining(t, Flatten(args));
      if e in joining {
        JoiningIsNew(t, Flatten(args), e);
      }
    case DoRemove(fns) => LeaveKeeps(t, fns, e);
    case DoReturn(_) => assert t.waiting == [t.waiting[0]] + t.waiting[1..];
    case _ =>
  }

  /** The turns of a firing are those of different occurrences, all added before. */
  lemma TurnsAreApart(m: Machine, e: Entry)
    requires Firing(m) && (e in Ran(m) || e in TurnsOf(m).waiting)
    ensures e.tag < |m.added| && (e in TurnsOf(m).waiting ==> e !in Ran(m))
  {
    IndexInList(m);
    assert e in m.due && e in m.added && Distinct(m.due);
    hide Inv, Ran;
    if e in TurnsOf(m).waiting {
      WaitingHasNotRun(Ran(m), TurnsOf(m).waiting);
    }
  }

  lemma {:induction false} TurnComesUnlessCancelled(m: Machine, steps: seq<Step>, e: Entry)
    requires Firing(m) && Turned(TurnsOf(m), steps).Some? && e.tag < |m.added|
    ensures var r, t := Turned(TurnsOf(m), steps).value, TurnsOf(m);
            && t.ran <= r.ran
            && (e in t.ran ==> !Cancelled(t, steps, e))
            && ((e in r.ran || e in r.waiting) <==> e in t.ran || (e in t.waiting && !Cancelled(t, steps, e)))
    decreases |steps|
  {
    hide After, Inv, Turn;
    if steps != [] {
      var t, s, next := TurnsOf(m), steps[0], After(m, steps[0]);
      StepIsTurn(m, s);
      TurnKeeps(t, s, e);
      TurnComesUnlessCancelled(next, steps[1..], e);
      if e in t.ran || e in t.waiting {
        TurnsAreApart(m, e);
      }
      if e in TurnsOf(next).ran || e in TurnsOf(next).waiting {
        TurnsAreApart(next, e);
      }
    }
  }

  /**
   * Whatever is called during a firing, from callbacks or from outside, every occurrence that waits for its turn, from
   * the beginning or added since, is called exactly once by the end, with the arguments of this firing, unless its
   * function is removed before its turn; then it is not called. No occurrence is called twice.
   */
  lemma EachTurnComesOnce(m: Machine, steps: seq<Step>, e: Entry)
    requires Firing(m) && Turned(TurnsOf(m), steps).Some? && e in TurnsOf(m).waiting
    ensures var r := Stepped(m, steps);
            && Firing(r) && SameFiring(m, r) && Ran(m) <= Ran(r) && Distinct(Ran(r))
            && (TurnsOf(r).waiting == [] ==> (e in Ran(r) <==> !Cancelled(TurnsOf(m), steps, e)))
  {
    FiringKeepsTurns(m, steps);
    TurnsAreApart(m, e);
    TurnComesUnlessCancelled(m, steps, e);
    var r := Stepped(m, steps);
    IndexInList(r);
    assert Distinct(r.due);
    hide *;
    RanIsDistinct(Ran(r), TurnsOf(r).waiting);
  }

  lemma RanIsDistinct(ran: seq<Entry>, waiting: seq<Entry>)
    requires Distinct(ran + waiting)
    ensures Distinct(ran)
  {
    forall i, j | 0 <= i < j < |ran| ensures ran[i] != ran[j] {
      assert (ran + waiting)[i] != (ran + waiting)[j];
    }
  }
}
