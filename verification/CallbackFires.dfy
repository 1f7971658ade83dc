/**
 * What becomes of every fire of a callback list, and of locking and disabling it, told by the calls made on the list
 * alone.
 */
module CallbackFires {
  import opened Common
  import opened CallbackMachine
  import opened CallbackProofs
  import opened CallbackTurns

  // ---- which fires are heard ----------------------------------------------------------------------------------------

  /** The fires asked for, in order, whether a callback was running or not. */
  function Fires(steps: seq<Step>): seq<Call> {
    if steps == [] then []
    else
      var s := steps[|steps| - 1];
      Fires(steps[..|steps| - 1]) + if s.DoFire? then [s.call] else []
  }

  predicate Closes(s: Step) {
    s.DoLock? || s.DoDisable?
  }

  /** The steps before the list is locked or disabled. */
  function BeforeClosing(steps: seq<Step>): (before: seq<Step>)
    ensures before <= steps && NeverClosed(before)
    ensures before != steps ==> Closes(steps[|before|])
    decreases |steps|
  {
    if steps == [] || Closes(steps[0]) then [] else [steps[0]] + BeforeClosing(steps[1..])
  }

  /** All fires until the list is locked or disabled; of a list that fires once, the first of them. */
  function Heard(flags: Flags, steps: seq<Step>): seq<Call> {
    var fires := Fires(BeforeClosing(steps));
    if flags.once && fires != [] then [fires[0]] else fires
  }

  /** The list takes the next fire. */
  predicate Hears(m: Machine) {
    m.stack.Some? && (m.flags.once ==> !m.firing && m.memory == Unset)
  }

  lemma {:induction false} LoopKeepsRequested(m: Machine)
    requires m.firingStart == 0 && (m.stack.Some? ==> m.list.Some?)
    requires m.list.Some? ==> 0 <= m.firingIndex <= m.firingLength == |m.list.value|
    ensures Loop(m).requested == m.requested
    decreases if m.stack.Some? then |m.stack.value| else 0, 1
  {
    if !(m.list.Some? && m.firingIndex < m.firingLength) {
      FinishKeepsRequested(m);
    }
  }

  lemma {:induction false} FinishKeepsRequested(m: Machine)
    requires m.firingStart == 0 && (m.stack.Some? ==> m.list.Some?)
    ensures Finish(m).requested == m.requested
    decreases if m.stack.Some? then |m.stack.value| else 0, 0
  {
    if m.list.Some? && !m.flags.once && m.stack.Some? && m.stack.value != [] {
      var next := m.stack.value[0];
      var n := m.(firing := false, stack := Some(m.stack.value[1..]), started := m.started + [next]);
      LoopKeepsRequested(Begin(n, next));
    }
  }

  lemma {:induction false} RemoveKeepsRest(m: Machine, fns: seq<Fn>)
    ensures Remove(m, fns).requested == m.requested && Remove(m, fns).log == m.log
    ensures Remove(m, fns).firing == m.firing && Remove(m, fns).memory == m.memory
    ensures Remove(m, fns).stack == m.stack && Remove(m, fns).list.Some? == m.list.Some?
    decreases |fns|
  {
    hide RemoveFrom;
    if m.list.Some? && fns != [] {
      RemoveFromKeepsRest(m, fns[0], 0);
      RemoveKeepsRest(RemoveFrom(m, fns[0], 0), fns[1..]);
    }
  }

  /** A step asks for a fire exactly if it is a fire and the list takes it. */
  lemma StepAsksFor(m: Machine, s: Step)
    requires Inv(m)
    ensures After(m, s).requested == m.requested + if s.DoFire? && Hears(m) then [s.call] else []
  {
    hide Tagged, Logged, Push, Flatten, Loop, Finish, Remove;
    assert m.requested + [] == m.requested;
    match s
    case DoAdd(args) =>
      if m.list.Some? {
        PushGrows(m, Flatten(args));
        var extra := PushAppends(m, Flatten(args));
        var p := Push(m, Flatten(args));
        if !p.firing && p.memory.Last? {
          LoopKeepsRequested(Begin(p.(firingStart := |m.list.value|), p.memory.call));
        }
      }
    case DoRemove(fns) => RemoveKeepsRest(m, fns);
    case DoFire(call) =>
      if m.stack.Some? && !m.firing && !(m.flags.once && m.memory != Unset) {
        LoopKeepsRequested(Begin(m.(requested := m.requested + [call], started := m.started + [call]), call));
      }
    case DoReturn(isFalse) =>
      if m.firing {
        if isFalse && m.flags.stopOnFalse {
          FinishKeepsRequested(m.(memory := Halted));
        } else {
          LoopKeepsRequested(m.(firingIndex := m.firingIndex + 1));
        }
      }
    case DoLock =>
    case DoDisable =>
  }

  /** A list that fires once and has not been asked to: nothing but a fire, locking or disabling changes that. */
  lemma UnfiredStays(m: Machine, s: Step)
    requires Inv(m) && m.stack.Some? && !m.firing && m.memory == Unset && !s.DoFire? && !Closes(s)
    ensures var r := After(m, s); r.stack.Some? && !r.firing && r.memory == Unset
  {
    hide Tagged, Logged, Push, Flatten, Remove;
    match s
    case DoAdd(args) => PushGrows(m, Flatten(args));
    case DoRemove(fns) => RemoveKeepsRest(m, fns);
    case DoReturn(_) =>
  }

  /** Once the first fire has been heard, a list that fires once hears no other. */
  lemma FiredIsDeaf(m: Machine)
    requires Inv(m) && m.flags.once && m.requested != []
    ensures !Hears(m)
  {
  }

  lemma BeforeClosingSnoc(init: seq<Step>, s: Step)
    ensures BeforeClosing(init + [s])
         == if BeforeClosing(init) == init && !Closes(s) then init + [s] else BeforeClosing(init)
    decreases |init|
  {
    if init == [] {
      assert BeforeClosing([]) == [] && [s][1..] == [];
    } else {
      assert (init + [s])[1..] == init[1..] + [s];
      BeforeClosingSnoc(init[1..], s);
      assert init == [init[0]] + init[1..];
    }
  }

  /** What a list has been asked for is what it could hear, and nothing of that is lost, also while callbacks run. */
  lemma {:induction false} RequestedIsHeard(flags: Flags, steps: seq<Step>)
    ensures var m := Run(flags, steps); var open := BeforeClosing(steps) == steps;
            && m.flags == flags && m.requested == Heard(flags, steps)
            && (!open ==> m.stack.None?)
            && (open && !flags.once ==> Open(m))
            && (open && flags.once && m.requested == [] ==> m.stack.Some? && !m.firing && m.memory == Unset)
  {
    if steps != [] {
      var init, s := steps[..|steps| - 1], steps[|steps| - 1];
      var m := Run(flags, init);
      assert steps == init + [s];
      RequestedIsHeard(flags, init);
      BeforeClosingSnoc(init, s);
      hide Inv, After, Attributed, Run, BeforeClosing;
      assert Run(flags, steps) == After(m, s) && Inv(m) by {
        RunSnoc(flags, init, s);
      }
      StepAsksFor(m, s);
      AfterStaysOpen(m, s);
      if Closes(s) {
        ClosingCloses(m, s);
      }
      if flags.once && m.requested != [] {
        FiredIsDeaf(m);
      } else if flags.once && BeforeClosing(init) == init && !s.DoFire? && !Closes(s) {
        UnfiredStays(m, s);
      }
      HeardSnoc(flags, init, s);
    }
  }

  lemma RunSnoc(flags: Flags, init: seq<Step>, s: Step)
    ensures Inv(Run(flags, init)) && Run(flags, init + [s]) == After(Run(flags, init), s)
  {
    hide After, Inv, Attributed;
    assert (init + [s])[..|init|] == init;
  }

  lemma ClosingCloses(m: Machine, s: Step)
    requires Inv(m) && Closes(s)
    ensures After(m, s).stack.None?
  {
  }

  lemma HeardSnoc(flags: Flags, init: seq<Step>, s: Step)
    ensures var before := Heard(flags, init);
            Heard(flags, init + [s]) == if BeforeClosing(init) == init && s.DoFire? && !(flags.once && before != [])
                                        then before + [s.call] else before
  {
    BeforeClosingSnoc(init, s);
    hide BeforeClosing;
    var b := BeforeClosing(init);
    if b == init && !Closes(s) {
      assert (init + [s])[..|init|] == init;
      assert Fires(init) + [] == Fires(init);
    }
  }

  /**
   * The callbacks are called with the contexts and arguments of the fires in the order asked for: the calls take the
   * fires that have begun in order, and these are a beginning of those heard. A list that may fire again, while it is
   * open and no callback is running, has begun every fire there was.
   */
  lemma FiresInOrder(flags: Flags, steps: seq<Step>)
    ensures var m := Run(flags, steps);
            && (exists f: seq<nat> :: Follows(m.log, m.started, f))
            && m.started <= Heard(flags, steps) && (flags.once ==> m.started == Heard(flags, steps))
            && (!flags.once && NeverClosed(steps) && !m.firing ==> m.started == Fires(steps))
  {
    RequestedIsHeard(flags, steps);
    assert Attributed(Run(flags, steps)) && Inv(Run(flags, steps));
    if NeverClosed(steps) {
      NeverClosedIsOpen(steps);
    }
  }

  lemma {:induction false} NeverClosedIsOpen(steps: seq<Step>)
    requires NeverClosed(steps)
    ensures BeforeClosing(steps) == steps
    decreases |steps|
  {
    if steps != [] {
      assert !Closes(steps[0]);
      NeverClosedIsOpen(steps[1..]);
    }
  }

  // ---- where a firing ends ------------------------------------------------------------------------------------------

  /** The last callback returns: the next fire that waits begins, with the whole list to be called, in order. */
  lemma NextFireBegins(m: Machine, isFalse: bool)
    requires Firing(m) && (TurnsOf(m).waiting == [] || (isFalse && m.flags.stopOnFalse))
    requires !m.flags.once && m.stack.Some? && m.stack.value != [] && m.list.value != []
    ensures var r := Return(m, isFalse);
            && Firing(r) && r.call == m.stack.value[0] && r.started == m.started + [r.call]
            && r.log == m.log + [Invocation(m.list.value[0], r.call)]
            && TurnsOf(r).ran == [m.list.value[0]] && TurnsOf(r).waiting == m.list.value[1..]
            && r.stack == Some(m.stack.value[1..]) && r.list == m.list
  {
    ReturnKeepsInv(m, isFalse);
    IndexInList(m);
    EndsFiring(m, isFalse);
    hide Inv, Return;
    var r, next := Return(m, isFalse), m.stack.value[0];
    assert r.log[|m.log|..] == [Invocation(m.list.value[0], next)];
  }

  lemma EndsFiring(m: Machine, isFalse: bool)
    requires Firing(m) && (TurnsOf(m).waiting == [] || (isFalse && m.flags.stopOnFalse))
    requires !m.flags.once && m.stack.Some? && m.stack.value != [] && m.list.value != []
    ensures var next := m.stack.value[0]; var r := Return(m, isFalse);
            && r.firing && r.list == m.list && r.log == m.log + [Invocation(m.list.value[0], next)]
            && r.mark == |m.log| && r.firingIndex == 0 && r.call == next && r.started == m.started + [next]
            && r.stack == Some(m.stack.value[1..])
  {
    hide Tagged, Logged, Queued, Ran;
    var next := m.stack.value[0];
    var f := if isFalse && m.flags.stopOnFalse then m.(memory := Halted) else m.(firingIndex := m.firingIndex + 1);
    assert Return(m, isFalse) == Finish(f);
    assert Finish(f) == Loop(Begin(f.(firing := false, stack := Some(m.stack.value[1..]),
                                      started := m.started + [next]), next));
  }

  /** With no fire waiting it ends: nobody else is called, the turns still to come included if it was stopped. */
  lemma FiringStops(m: Machine, isFalse: bool)
    requires Firing(m) && (TurnsOf(m).waiting == [] || (isFalse && m.flags.stopOnFalse))
    requires m.flags.once || m.stack.None? || m.stack.value == []
    ensures var r := Return(m, isFalse);
            && !r.firing && r.log == m.log && r.added == m.added
            && (!m.flags.once ==> r.list == m.list)
            && (!m.flags.once ==> r.memory == if isFalse && m.flags.stopOnFalse then Halted else m.memory)
            && (m.flags.once ==>
                  if m.memory == Halted || (isFalse && m.flags.stopOnFalse) then r.list.None? && r.memory == Unset
                  else r.list == Some([]) && r.memory == m.memory)
  {
    hide Tagged, Logged, Ran;
    var f := if isFalse && m.flags.stopOnFalse then m.(memory := Halted) else m.(firingIndex := m.firingIndex + 1);
    assert Return(m, isFalse) == Finish(f);
  }

  /** After a callback has stopped the firing, `add` calls nobody. */
  lemma StoppedAddCallsNobody(m: Machine, args: seq<Arg>)
    requires Inv(m) && !m.firing && !m.memory.Last?
    ensures Add(m, args).log == m.log && !Add(m, args).firing
  {
    hide Inv, Push, Flatten;
    if m.list.Some? {
      PushGrows(m, Flatten(args));
      var extra := PushAppends(m, Flatten(args));
    }
  }

  // ---- disabled lists -----------------------------------------------------------------------------------------------

  lemma DisabledStep(m: Machine, s: Step)
    requires Inv(m) && m.list.None?
    ensures After(m, s).list.None? && After(m, s).log == m.log && After(m, s).added == m.added
  {
    hide Tagged, Logged, Queued, Loop, Finish;
    assert m.stack.None? by {
      StackNeedsList(m);
    }
    match s
    case DoReturn(isFalse) =>
      if m.firing {
        LoopOfNothing(m.(firingIndex := m.firingIndex + 1));
        LoopOfNothing(m.(memory := Halted));
      }
    case _ =>
  }

  lemma StackNeedsList(m: Machine)
    requires Inv(m) && m.list.None?
    ensures m.stack.None?
  {
  }

  lemma LoopOfNothing(m: Machine)
    requires m.firingStart == 0 && m.list.None? && m.stack.None?
    ensures Loop(m) == Finish(m) == m.(firing := false)
  {
  }

  /** A disabled list never calls anyone again, whatever is called on it; a callback that runs is the last. */
  lemma {:induction false} DisabledForever(m: Machine, steps: seq<Step>)
    requires Inv(m) && m.list.None?
    ensures Stepped(m, steps).list.None? && Stepped(m, steps).log == m.log && Stepped(m, steps).added == m.added
    decreases |steps|
  {
    hide Inv, After;
    if steps != [] {
      AfterKeepsInv(m, steps[0]);
      DisabledStep(m, steps[0]);
      DisabledForever(After(m, steps[0]), steps[1..]);
    }
  }

  /** `disable` disables; `lock` does so where no arguments are remembered, and otherwise only refuses further fires. */
  lemma ClosedLists(m: Machine)
    requires Inv(m)
    ensures After(m, DoDisable).list.None? && After(m, DoDisable).log == m.log
    ensures var r := After(m, DoLock);
            && r.log == m.log && r.stack.None? && (if m.memory.Last? then r.list == m.list else r.list.None?)
            && (m.memory.Last? ==> r.memory == m.memory && r.firing == m.firing)
  {
  }

  // ---- what add adds ------------------------------------------------------------------------------------------------

  /** The function is an argument, or inside an array among them at any depth. */
  ghost predicate Occurs(fn: Fn, args: seq<Arg>)
    decreases args
  {
    exists i :: 0 <= i < |args| && (args[i] == One(fn) || (args[i].Many? && Occurs(fn, args[i].args)))
  }

  lemma {:induction false} FlattenFinds(fn: Fn, args: seq<Arg>)
    ensures fn in Flatten(args) <==> Occurs(fn, args)
    decreases args
  {
    if args != [] {
      var first, rest := args[0], args[1..];
      FlattenFinds(fn, rest);
      if first.Many? {
        FlattenFinds(fn, first.args);
      }
      assert Occurs(fn, args)
        <==> (first == One(fn) || (first.Many? && Occurs(fn, first.args)) || Occurs(fn, rest)) by {
        OccursSplit(fn, args);
      }
    }
  }

  lemma OccursSplit(fn: Fn, args: seq<Arg>)
    requires args != []
    ensures Occurs(fn, args)
       <==> (args[0] == One(fn) || (args[0].Many? && Occurs(fn, args[0].args)) || Occurs(fn, args[1..]))
  {
    var rest := args[1..];
    if Occurs(fn, rest) {
      var i :| 0 <= i < |rest| && (rest[i] == One(fn) || (rest[i].Many? && Occurs(fn, rest[i].args)));
      assert args[i + 1] == rest[i];
    }
    if Occurs(fn, args) {
      var i :| 0 <= i < |args| && (args[i] == One(fn) || (args[i].Many? && Occurs(fn, args[i].args)));
      assert i > 0 ==> rest[i - 1] == args[i];
    }
  }

  /** After `add`, the list has every function among the arguments, besides all it had; in unique mode none twice. */
  lemma AddedAreInList(m: Machine, args: seq<Arg>, fn: Fn)
    requires Inv(m) && m.list.Some?
    ensures var r := Push(m, Flatten(args));
            && r.list.Some? && (Has(r.list.value, fn) <==> Has(m.list.value, fn) || Occurs(fn, args))
            && (m.flags.unique ==> NoRepeats(r.list.value))
  {
    FlattenFinds(fn, args);
    PushedAreInList(m, Flatten(args), fn);
    if m.flags.unique {
      PushKeepsUnique(m, Flatten(args));
    }
  }

  lemma {:induction false} PushedAreInList(m: Machine, fns: seq<Fn>, fn: Fn)
    requires m.list.Some?
    ensures Push(m, fns).list.Some? && (Has(Push(m, fns).list.value, fn) <==> Has(m.list.value, fn) || fn in fns)
    decreases |fns|
  {
    if fns != [] {
      if m.flags.unique && Has(m.list.value, fns[0]) {
        PushedAreInList(m, fns[1..], fn);
      } else {
        PushedAreInList(PushOne(m, fns[0]), fns[1..], fn);
        HasOneMore(m.list.value, Entry(fns[0], |m.added|), fn);
      }
    }
  }

  lemma HasOneMore(es: seq<Entry>, e: Entry, fn: Fn)
    ensures Has(es + [e], fn) <==> Has(es, fn) || e.fn == fn
  {
    if Has(es, fn) {
      var i :| 0 <= i < |es| && es[i].fn == fn;
      assert (es + [e])[i].fn == fn;
    }
    assert (es + [e])[|es|] == e;
  }

  lemma {:induction false} PushKeepsUnique(m: Machine, fns: seq<Fn>)
    requires m.list.Some? && m.flags.unique && NoRepeats(m.list.value)
    ensures Push(m, fns).list.Some? && NoRepeats(Push(m, fns).list.value)
    decreases |fns|
  {
    if fns != [] {
      if Has(m.list.value, fns[0]) {
        PushKeepsUnique(m, fns[1..]);
      } else {
        PushKeepsUnique(PushOne(m, fns[0]), fns[1..]);
      }
    }
  }
}
