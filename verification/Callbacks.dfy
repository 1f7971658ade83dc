/** jQuery.Callbacks: the closure's variables as fields, its functions as methods. */
module Callbacks {
  import opened Common
  import opened CallbackMachine

  class Callbacks {
    const flags: Flags
    var list: Option<seq<Fn>>
    var stack: Option<seq<Call>>
    var memory: Memory
    var fired: bool
    var firing: bool
    var firingStart: nat
    var firingLength: int
    var firingIndex: int
    /** The context and arguments the running loop of `fire` passes on. */
    var call: Call
    /** The function the loop has called last. */
    var callee: Option<Fn>

    /** The occurrences behind `list`, and the history of the list. */
    ghost var entries: seq<Entry>
    ghost var added: seq<Entry>
    ghost var log: seq<Invocation>
    ghost var mark: nat
    ghost var due: seq<Entry>
    ghost var requested: seq<Call>
    ghost var started: seq<Call>

    ghost predicate Valid()
      reads this
    {
      && (list.Some? ==> |entries| == |list.value| && forall i :: 0 <= i < |entries| ==> entries[i].fn == list.value[i])
      && (log != [] ==> callee == Some(log[|log| - 1].entry.fn))
    }

    ghost function View(): Machine
      reads this
    {
      Machine(flags, if list.Some? then Some(entries) else None, stack, memory, fired, firing,
              firingStart, firingLength, firingIndex, call, added, log, mark, due, requested, started)
    }

    constructor (flags: Flags)
      ensures Valid() && View() == Created(flags)
    {
      this.flags := flags;
      list, stack, memory := Some([]), Some([]), Unset;
      fired, firing, firingStart, firingLength, firingIndex, call := false, false, 0, 0, 0, Call(Undefined, []);
      callee := None;
      entries, added, log, mark, due, requested, started := [], [], [], 0, [], [], [];
    }

    // ---- add ----

    /** Is the function in the list? */
    method Has(fn: Fn) returns (r: bool)
      requires Valid()
      ensures r <==> list.Some? && CallbackMachine.Has(View().list.value, fn)
    {
      if list.Some? {
        var i, length := 0, |list.value|;
        while i < length
          invariant 0 <= i <= length
          invariant forall j :: 0 <= j < i ==> entries[j].fn != fn
        {
          if fn == list.value[i] {
            return true;
          }
          i := i + 1;
        }
      }
      return false;
    }

    /** The inner `add`: walks the arguments and recurs into arrays. */
    method AddAll(args: seq<Arg>)
      requires Valid() && list.Some?
      modifies this
      ensures Valid() && View() == Push(old(View()), Flatten(args))
      decreases args
    {
      hide Flatten, PushOne;
      var i, length := 0, |args|;
      NothingToPush(View());
      assert args[0..] == args && args[length..] == [];
      while i < length
        invariant 0 <= i <= length && Valid() && list.Some?
        invariant Push(View(), Flatten(args[i..])) == Push(old(View()), Flatten(args))
      {
        var elem := args[i];
        FlattenStep(args[i..], View());
        assert args[i..][1..] == args[i + 1..];
        match elem {
          case Many(inner) => AddAll(inner);
          case One(fn) =>
            var has := Has(fn);
            if !flags.unique || !has {
              AppendEntry(fn);
            }
          case Other =>
        }
        i := i + 1;
      }
    }

    method AppendEntry(fn: Fn)
      requires Valid() && list.Some?
      modifies this
      ensures Valid() && list.Some? && View() == PushOne(old(View()), fn)
    {
      ghost var e := Entry(fn, |added|);
      list := Some(list.value + [fn]);
      entries := entries + [e];
      added := added + [e];
      due := if firing then due + [e] else due;
    }

    method Add(args: seq<Arg>)
      requires Valid() && Inv(View())
      modifies this
      ensures Valid() && View() == CallbackMachine.Add(old(View()), args)
    {
      hide Inv, Push, Flatten, Loop, Begin;
      if list.Some? {
        var length := |list.value|;
        PushGrows(View(), Flatten(args));
        AddAll(args);
        if firing {
          firingLength := |list.value|;
        } else if memory.Last? {
          firingStart := length;
          Fire(memory.call);
        }
      }
    }

    // ---- fire ----

    /** `fire` up to and including the first loop test; the callback it calls then runs. */
    method Fire(args: Call)
      requires Valid() && list.Some? && firingStart <= |list.value|
      modifies this
      ensures Valid() && View() == Loop(Begin(old(View()), args))
      decreases if stack.Some? then |stack.value| else 0, 2
    {
      hide View, Begin, Loop;
      SetUp(args);
      LoopTest();
    }

    /** `fire` before its loop. */
    method SetUp(args: Call)
      requires Valid() && list.Some? && firingStart <= |list.value|
      modifies this
      ensures Valid() && View() == Begin(old(View()), args)
      ensures list == old(list) && stack == old(stack) && firingStart == 0
      ensures list.Some? && 0 <= firingIndex <= firingLength == |list.value|
    {
      Announce(args);
      firingIndex := firingStart;
      firingStart := 0;
      firingLength := |list.value|;
    }

    /** The variables `fire` sets before it turns to the indices. */
    method Announce(args: Call)
      requires Valid() && list.Some? && firingStart <= |list.value|
      modifies this`memory, this`fired, this`firing, this`call, this`mark, this`due
      ensures memory == (if flags.memory then Last(args) else Halted) && fired && firing && call == args
      ensures mark == |log| && due == entries[firingStart..]
    {
      memory := if flags.memory then Last(args) else Halted;
      fired := true;
      firing := true;
      call := args;
      mark, due := |log|, entries[firingStart..];
    }

    /** The loop test of `fire`. */
    method LoopTest()
      requires Valid() && firingStart == 0 && (stack.Some? ==> list.Some?)
      requires list.Some? ==> 0 <= firingIndex <= firingLength == |list.value|
      modifies this
      ensures Valid() && View() == Loop(old(View()))
      decreases if stack.Some? then |stack.value| else 0, 1
    {
      if list.Some? && firingIndex < firingLength {
        callee := Some(list.value[firingIndex]);
        log := log + [Invocation(entries[firingIndex], call)];
      } else {
        LoopEnd();
      }
    }

    /** `fire` behind its loop. */
    method LoopEnd()
      requires Valid() && firingStart == 0 && (stack.Some? ==> list.Some?)
      modifies this
      ensures Valid() && View() == Finish(old(View()))
      decreases if stack.Some? then |stack.value| else 0, 0
    {
      hide Loop;
      firing := false;
      if list.Some? {
        if !flags.once {
          if stack.Some? && |stack.value| > 0 {
            var next := Shift();
            hide View;
            Fire(next);
          }
        } else if memory == Halted {
          Disable();
        } else {
          list, entries := Some([]), [];
        }
      }
    }

    /** `memory = stack.shift()` */
    method Shift() returns (next: Call)
      requires stack.Some? && |stack.value| > 0
      modifies this`memory, this`stack, this`started
      ensures next == old(stack).value[0] && stack == Some(old(stack).value[1..])
      ensures View() == old(View()).(stack := stack, memory := Last(next), started := old(started) + [next])
    {
      next := stack.value[0];
      memory := Last(next);
      stack := Some(stack.value[1..]);
      started := started + [next];
    }

    /** The callback that was running returns to the loop. */
    method CallbackReturned(isFalse: bool)
      requires Valid() && Inv(View()) && firing
      modifies this
      ensures Valid() && View() == Return(old(View()), isFalse)
    {
      if isFalse && flags.stopOnFalse {
        memory := Halted;
        LoopEnd();
      } else {
        firingIndex := firingIndex + 1;
        LoopTest();
      }
    }

    method FireWith(args: Call)
      requires Valid() && Inv(View())
      modifies this
      ensures Valid() && View() == CallbackMachine.FireWith(old(View()), args)
    {
      if stack.Some? {
        if firing {
          if !flags.once {
            stack := Some(stack.value + [args]);
            requested := requested + [args];
          }
        } else if !(flags.once && memory != Unset) {
          requested, started := requested + [args], started + [args];
          Fire(args);
        }
      }
    }

    // ---- remove, lock, disable ----

    method Remove(args: seq<Fn>)
      requires Valid()
      modifies this
      ensures Valid() && View() == CallbackMachine.Remove(old(View()), args)
    {
      var argIndex := 0;
      while argIndex < |args| && list.Some?
        invariant 0 <= argIndex <= |args| && Valid()
        invariant old(list.Some?) ==> list.Some?
        invariant CallbackMachine.Remove(View(), args[argIndex..]) == CallbackMachine.Remove(old(View()), args)
      {
        RemoveOne(args[argIndex]);
        argIndex := argIndex + 1;
      }
    }

    /** The inner loop of `remove`. */
    method RemoveOne(fn: Fn)
      requires Valid() && list.Some?
      modifies this
      ensures Valid() && list.Some? && View() == RemoveFrom(old(View()), fn, 0)
    {
      hide Splice;
      var i := 0;
      while i < |list.value|
        invariant Valid() && list.Some? && 0 <= i <= |list.value|
        invariant RemoveFrom(View(), fn, i) == RemoveFrom(old(View()), fn, 0)
        decreases |list.value| - i
      {
        if fn == list.value[i] {
          SpliceAt(i);
          if flags.unique {
            return;
          }
        } else {
          i := i + 1;
        }
      }
    }

    /** Removes the element at `i`, handling firingIndex and firingLength. */
    method SpliceAt(i: nat)
      requires Valid() && list.Some? && i < |list.value|
      modifies this
      ensures Valid() && View() == Splice(old(View()), i)
      ensures list.Some? && |list.value| == |old(list.value)| - 1
    {
      hide Ran, Without;
      AdjustIndices(i);
      list := Some(list.value[..i] + list.value[i + 1..]);
      entries := entries[..i] + entries[i + 1..];
    }

    method AdjustIndices(i: nat)
      requires i < |entries|
      modifies this`firingIndex, this`firingLength, this`due
      ensures var below := old(firing && i <= firingLength);
              && firingLength == (if below then old(firingLength) - 1 else old(firingLength))
              && firingIndex == (if below && i <= old(firingIndex) then old(firingIndex) - 1 else old(firingIndex))
      ensures due == if firing && entries[i] !in Ran(old(View())) then Without(old(due), entries[i]) else old(due)
    {
      hide Ran, Without;
      if firing {
        due := if entries[i] !in Ran(View()) then Without(due, entries[i]) else due;
        if i <= firingLength {
          firingLength := firingLength - 1;
          if i <= firingIndex {
            firingIndex := firingIndex - 1;
          }
        }
      }
    }

    method Disable()
      requires Valid()
      modifies this
      ensures Valid() && View() == CallbackMachine.Disable(old(View()))
      decreases 0
    {
      list, stack, memory := None, None, Unset;
    }

    method Lock()
      requires Valid()
      modifies this
      ensures Valid() && View() == CallbackMachine.Lock(old(View()))
    {
      stack := None;
      if memory == Unset || memory == Halted {
        Disable();
      }
    }
  }

  lemma NothingToPush(m: Machine)
    requires m.list.Some?
    ensures Flatten([]) == [] && Push(m, []) == m
  {
  }

  lemma FlattenStep(args: seq<Arg>, m: Machine)
    requires args != [] && m.list.Some?
    ensures args[0].Other? ==> Flatten(args) == Flatten(args[1..])
    ensures args[0].One? ==> Flatten(args) == [args[0].fn] + Flatten(args[1..])
    ensures args[0].Many? ==>
              Push(m, Flatten(args[0].args)).list.Some?
              && Push(m, Flatten(args)) == Push(Push(m, Flatten(args[0].args)), Flatten(args[1..]))
  {
    if args[0].Many? {
      PushGrows(m, Flatten(args[0].args));
      PushAppend(m, Flatten(args[0].args), Flatten(args[1..]));
    } else if args[0].Other? {
      assert [] + Flatten(args[1..]) == Flatten(args[1..]);
    }
  }

  lemma {:induction false} PushAppend(m: Machine, a: seq<Fn>, b: seq<Fn>)
    requires m.list.Some? && Push(m, a).list.Some?
    ensures Push(m, a + b) == Push(Push(m, a), b)
    decreases |a|
  {
    if a == [] {
      assert a + b == b;
    } else {
      assert (a + b)[1..] == a[1..] + b;
      var m' := if m.flags.unique && CallbackMachine.Has(m.list.value, a[0]) then m else PushOne(m, a[0]);
      PushAppend(m', a[1..], b);
    }
  }
}
