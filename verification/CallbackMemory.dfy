/** What a callback list remembers of its fires, and what becomes of a callback that is added late. */
module CallbackMemory {
  import opened Common
  import opened CallbackMachine
  import opened CallbackProofs
  import opened CallbackFires

  /** With the flag memory, the fire that began last; without it, no fire. */
  predicate Remembering(m: Machine) {
    if !m.flags.memory then !m.memory.Last?
    else m.memory == if m.started == [] then Unset else Last(m.started[|m.started| - 1])
  }

  lemma {:induction false} LoopRemembers(m: Machine)
    requires m.firingStart == 0 && (m.stack.Some? ==> m.list.Some?)
    requires m.list.Some? ==> 0 <= m.firingIndex <= m.firingLength == |m.list.value|
    requires Remembering(m)
    ensures Remembering(Loop(m)) && Loop(m).flags == m.flags
    decreases if m.stack.Some? then |m.stack.value| else 0, 1
  {
    if !(m.list.Some? && m.firingIndex < m.firingLength) {
      FinishRemembers(m);
    }
  }

  lemma {:induction false} FinishRemembers(m: Machine)
    requires m.firingStart == 0 && (m.stack.Some? ==> m.list.Some?)
    requires Remembering(m)
    ensures Remembering(Finish(m)) && Finish(m).flags == m.flags
    decreases if m.stack.Some? then |m.stack.value| else 0, 0
  {
    if m.list.Some? && !m.flags.once && m.stack.Some? && m.stack.value != [] {
      var next := m.stack.value[0];
      var n := m.(firing := false, stack := Some(m.stack.value[1..]), started := m.started + [next]);
      LoopRemembers(Begin(n, next));
    }
  }

  /** Removing from the list changes neither what it remembers nor how it is made. */
  lemma {:induction false} RemoveFromKeepsMemory(m: Machine, fn: Fn, i: nat)
    requires m.list.Some? && i <= |m.list.value|
    ensures var r := RemoveFrom(m, fn, i); r.memory == m.memory && r.flags == m.flags && r.started == m.started
    decreases |m.list.value| - i
  {
    if i < |m.list.value| {
      if m.list.value[i].fn != fn {
        RemoveFromKeepsMemory(m, fn, i + 1);
      } else if !m.flags.unique {
        RemoveFromKeepsMemory(Splice(m, i), fn, i);
      }
    }
  }

  lemma {:induction false} RemoveKeepsMemory(m: Machine, fns: seq<Fn>)
    ensures var r := Remove(m, fns); r.memory == m.memory && r.flags == m.flags && r.started == m.started
    decreases |fns|
  {
    hide RemoveFrom;
    if m.list.Some? && fns != [] {
      RemoveFromKeepsMemory(m, fns[0], 0);
      RemoveKeepsMemory(RemoveFrom(m, fns[0], 0), fns[1..]);
    }
  }

  lemma AddRemembers(m: Machine, args: seq<Arg>)
    requires Inv(m) && Remembering(m)
    ensures Remembering(Add(m, args)) && Add(m, args).flags == m.flags
  {
    hide Tagged, Logged, Push, Flatten, Loop, Finish;
    if m.list.Some? {
      PushGrows(m, Flatten(args));
      var extra := PushAppends(m, Flatten(args));
      var p := Push(m, Flatten(args));
      if !p.firing && p.memory.Last? {
        LoopRemembers(Begin(p.(firingStart := |m.list.value|), p.memory.call));
      }
    }
  }

  /** Only disabling a list, or a callback that stops a firing, makes it forget. */
  predicate Forgets(flags: Flags, s: Step) {
    s.DoDisable? || (s == DoReturn(true) && flags.stopOnFalse)
  }

  lemma StepRemembers(m: Machine, s: Step)
    requires Inv(m) && Remembering(m) && !Forgets(m.flags, s)
    ensures Remembering(After(m, s)) && After(m, s).flags == m.flags
  {
    hide Tagged, Logged, Add, Loop, Finish, Remove;
    match s
    case DoAdd(args) => AddRemembers(m, args);
    case DoRemove(fns) => RemoveKeepsMemory(m, fns);
    case DoFire(call) =>
      if m.stack.Some? && !m.firing && !(m.flags.once && m.memory != Unset) {
        LoopRemembers(Begin(m.(requested := m.requested + [call], started := m.started + [call]), call));
      }
    case DoReturn(isFalse) =>
      if m.firing {
        LoopRemembers(m.(firingIndex := m.firingIndex + 1));
      }
    case DoLock =>
    case DoDisable =>
  }

  /**
   * Over whole runs: a list made with memory remembers the fire that began last, and nothing before the first; one made
   * without remembers no fire.
   */
  lemma {:induction false} RemembersLast(flags: Flags, steps: seq<Step>)
    requires forall i :: 0 <= i < |steps| ==> !Forgets(flags, steps[i])
    ensures var m := Run(flags, steps);
            && m.flags == flags && !(m.memory.Last? && !flags.memory)
            && (flags.memory ==> m.memory == if m.started == [] then Unset else Last(m.started[|m.started| - 1]))
  {
    RunRemembers(flags, steps);
    hide Run;
  }

  lemma {:induction false} RunRemembers(flags: Flags, steps: seq<Step>)
    requires forall i :: 0 <= i < |steps| ==> !Forgets(flags, steps[i])
    ensures Remembering(Run(flags, steps)) && Run(flags, steps).flags == flags
  {
    hide After, Inv, Attributed, Remembering;
    if steps == [] {
      FreshRemembers(flags);
    } else {
      var init, s := steps[..|steps| - 1], steps[|steps| - 1];
      RunRemembers(flags, init);
      StepRemembers(Run(flags, init), s);
      assert steps == init + [s];
      RunSnoc(flags, init, s);
    }
  }

  lemma FreshRemembers(flags: Flags)
    ensures Remembering(Run(flags, [])) && Run(flags, []).flags == flags
  {
  }

  /** A function added to a list that remembers a fire, while no callback runs, is called at once with that fire. */
  lemma LateIsCalled(m: Machine, fn: Fn, call: Call)
    requires Inv(m) && m.list.Some? && !m.firing && m.memory == Last(call)
    requires m.flags.unique ==> !Has(m.list.value, fn)
    ensures var r := Add(m, [One(fn)]);
            && |r.log| == |m.log| + 1 && r.log[..|m.log|] == m.log
            && r.log[|m.log|].entry.fn == fn && r.log[|m.log|].call == call
  {
    hide Tagged, Logged, Queued, Has, Finish;
    assert [One(fn)][1..] == [] && Flatten([One(fn)]) == [fn] + [];
    var p := PushOne(m, fn);
    assert [fn][1..] == [] && Push(m, [fn]) == Push(p, []) == p;
    assert Add(m, [One(fn)]) == Loop(Begin(p.(firingStart := |m.list.value|), call));
  }
}
