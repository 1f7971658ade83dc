/** What every run of a callback list keeps, and what that says about who is called. */
module CallbackProofs {
  import opened Common
  import opened CallbackMachine

  predicate Called(m: Machine) {
    m.mark <= |m.log| && forall i :: 0 <= i < |m.log| ==> m.log[i].entry in m.added
  }

  /** The state in which `fire` tests its loop condition. */
  predicate Ready(m: Machine) {
    && m.firing && m.firingStart == 0 && Called(m) && Tagged(m) && Queued(m)
    && (m.list.Some? ==>
          && m.firingLength == |m.list.value| && 0 <= m.firingIndex <= |m.list.value|
          && m.due == Ran(m) + m.list.value[m.firingIndex..]
          && Distinct(m.due) && forall e :: e in m.due ==> e in m.added)
  }

  lemma {:induction false} LoopKeepsInv(m: Machine)
    requires Ready(m)
    ensures Inv(Loop(m))
    decreases if m.stack.Some? then |m.stack.value| else 0, 1
  {
    if m.list.Some? && m.firingIndex < m.firingLength {
      var e := m.list.value[m.firingIndex];
      var m' := Loop(m);
      assert m'.log[m.mark..] == m.log[m.mark..] + [Invocation(e, m.call)];
      assert Ran(m') == Ran(m) + [e];
      assert m.list.value[m.firingIndex..] == [e] + m.list.value[m.firingIndex + 1..];
    } else {
      FinishKeepsInv(m);
    }
  }

  lemma BeginIsReady(m: Machine, call: Call)
    requires m.list.Some? && m.firingStart <= |m.list.value| && Tagged(m) && Called(m)
    requires Queued(Begin(m, call))
    ensures Ready(Begin(m, call))
  {
    var b := Begin(m, call);
    assert b.log[b.mark..] == [] && Ran(b) == [];
    assert b.due == b.list.value[m.firingStart..];
  }

  lemma {:induction false} FinishKeepsInv(m: Machine)
    requires m.firing && m.firingStart == 0 && Called(m) && Tagged(m) && Queued(m)
    ensures Inv(Finish(m))
    decreases if m.stack.Some? then |m.stack.value| else 0, 0
  {
    if m.list.Some? && !m.flags.once && m.stack.Some? && m.stack.value != [] {
      var next := m.stack.value[0];
      var n := m.(firing := false, stack := Some(m.stack.value[1..]), started := m.started + [next]);
      assert m.started + m.stack.value == n.started + n.stack.value;
      BeginIsReady(n, next);
      LoopKeepsInv(Begin(n, next));
      assert Finish(m) == Loop(Begin(n, next));
    }
  }

  lemma ReturnKeepsInv(m: Machine, isFalse: bool)
    requires Inv(m) && m.firing
    ensures Inv(Return(m, isFalse))
  {
    if isFalse && m.flags.stopOnFalse {
      FinishKeepsInv(m.(memory := Halted));
    } else {
      LoopKeepsInv(m.(firingIndex := m.firingIndex + 1));
    }
  }

  lemma FireWithKeepsInv(m: Machine, call: Call)
    requires Inv(m)
    ensures Inv(FireWith(m, call))
  {
    if m.stack.Some? {
      if m.firing {
        if !m.flags.once {
          assert m.requested + [call] == m.started + (m.stack.value + [call]);
        }
      } else if !(m.flags.once && m.memory != Unset) {
        var n := m.(requested := m.requested + [call], started := m.started + [call]);
        BeginIsReady(n, call);
        LoopKeepsInv(Begin(n, call));
      }
    }
  }

  // ---- add ------------------------------------------------------------------------------------------------------

  /** What holds while `add` is pushing; `firingLength` is brought up to date afterwards. */
  predicate Pushing(m: Machine) {
    && m.list.Some? && m.firingStart == 0 && Logged(m) && Tagged(m) && Queued(m)
    && (m.firing ==>
          && -1 <= m.firingIndex < |m.list.value|
          && m.due == Ran(m) + m.list.value[m.firingIndex + 1..]
          && Distinct(m.due) && forall e :: e in m.due ==> e in m.added)
  }

  lemma PushOneKeeps(m: Machine, fn: Fn)
    requires Pushing(m) && !(m.flags.unique && Has(m.list.value, fn))
    ensures Pushing(PushOne(m, fn))
  {
    hide Ran;
    var e, m' := Entry(fn, |m.added|), PushOne(m, fn);
    assert e !in m.added;
    assert forall x :: x in m.added ==> x in m'.added;
    assert m'.added[|m.added|] == e;
    if m.firing {
      assert m'.list.value[m.firingIndex + 1..] == m.list.value[m.firingIndex + 1..] + [e];
      SameRan(m, m');
    }
  }

  lemma SameRan(m: Machine, m': Machine)
    requires m'.log == m.log && m'.mark == m.mark
    ensures Ran(m') == Ran(m)
  {
  }

  lemma {:induction false} PushKeeps(m: Machine, fns: seq<Fn>)
    requires Pushing(m)
    ensures Pushing(Push(m, fns))
    decreases |fns|
  {
    if fns != [] {
      if m.flags.unique && Has(m.list.value, fns[0]) {
        PushKeeps(m, fns[1..]);
      } else {
        PushOneKeeps(m, fns[0]);
        PushKeeps(PushOne(m, fns[0]), fns[1..]);
      }
    }
  }

  lemma AddKeepsInv(m: Machine, args: seq<Arg>)
    requires Inv(m)
    ensures Inv(Add(m, args))
  {
    hide Distinct, NoRepeats, Push, Flatten, Has;
    if m.list.Some? {
      var m' := Push(m, Flatten(args));
      PushKeeps(m, Flatten(args));
      PushGrows(m, Flatten(args));
      if !m'.firing && m'.memory.Last? {
        var n := m'.(firingStart := |m.list.value|);
        BeginIsReady(n, m'.memory.call);
        LoopKeepsInv(Begin(n, m'.memory.call));
      }
    }
  }

  // ---- remove ---------------------------------------------------------------------------------------------------

  lemma {:induction false} WithoutAbsent(es: seq<Entry>, e: Entry)
    requires e !in es
    ensures Without(es, e) == es
  {
    if es != [] {
      WithoutAbsent(es[1..], e);
    }
  }

  lemma {:induction false} WithoutConcat(a: seq<Entry>, b: seq<Entry>, e: Entry)
    ensures Without(a + b, e) == Without(a, e) + Without(b, e)
  {
    if a == [] {
      assert a + b == b;
    } else {
      assert (a + b)[1..] == a[1..] + b;
      WithoutConcat(a[1..], b, e);
    }
  }

  lemma {:induction false} WithoutAt(es: seq<Entry>, i: nat)
    requires i < |es| && Distinct(es)
    ensures Without(es, es[i]) == es[..i] + es[i + 1..]
  {
    hide *;
    OnlyAt(es, i);
    WithoutMiddle(es[..i], es[i], es[i + 1..]);
    assert es == es[..i] + [es[i]] + es[i + 1..];
  }

  lemma OnlyAt(es: seq<Entry>, i: nat)
    requires i < |es| && Distinct(es)
    ensures es[i] !in es[..i] && es[i] !in es[i + 1..]
  {
    var before, after := es[..i], es[i + 1..];
    forall k | 0 <= k < i ensures before[k] != es[i] {
      assert before[k] == es[k];
    }
    forall k | 0 <= k < |after| ensures after[k] != es[i] {
      assert after[k] == es[i + 1 + k];
    }
  }

  lemma WithoutMiddle(a: seq<Entry>, e: Entry, b: seq<Entry>)
    requires e !in a && e !in b
    ensures Without(a + [e] + b, e) == a + b
  {
    assert [e][1..] == [] && Without([e], e) == [];
    hide Without;
    WithoutConcat(a + [e], b, e);
    WithoutConcat(a, [e], e);
    WithoutAbsent(a, e);
    WithoutAbsent(b, e);
    assert a + [] == a;
  }

  lemma WithoutMembers(es: seq<Entry>, e: Entry)
    requires Distinct(es)
    ensures Distinct(Without(es, e)) && forall x :: x in Without(es, e) ==> x in es
  {
    if e in es {
      var i :| 0 <= i < |es| && es[i] == e;
      WithoutAt(es, i);
    } else {
      WithoutAbsent(es, e);
    }
  }

  /** An entry whose turn is still to come has not run. */
  lemma PendingHasNotRun(ran: seq<Entry>, rest: seq<Entry>, j: nat)
    requires Distinct(ran + rest) && j < |rest|
    ensures rest[j] !in ran
  {
    forall i | 0 <= i < |ran|
      ensures ran[i] != rest[j]
    {
      assert (ran + rest)[i] != (ran + rest)[|ran| + j];
    }
  }

  /** Taking out an entry whose turn has passed, or will not come, changes nothing that is due. */
  lemma DueAfterEarly(ran: seq<Entry>, list: seq<Entry>, k: nat, i: nat)
    requires i < k <= |list| && Distinct(list) && list[i] !in ran
    ensures Without(ran + list[k..], list[i]) == ran + list[k..]
  {
    assert list[i] !in list[k..];
    hide Without;
    WithoutAbsent(ran + list[k..], list[i]);
  }

  /** Taking out an entry whose turn is still to come takes it out of what is due. */
  lemma DueAfterLate(ran: seq<Entry>, list: seq<Entry>, k: nat, i: nat)
    requires k <= i < |list| && Distinct(list) && Distinct(ran + list[k..])
    ensures list[i] !in ran
    ensures Without(ran + list[k..], list[i]) == ran + (list[k..i] + list[i + 1..])
  {
    var e, rest := list[i], list[k..];
    assert Distinct(rest);
    hide Without;
    PendingHasNotRun(ran, rest, i - k);
    hide Distinct;
    WithoutConcat(ran, rest, e);
    WithoutAbsent(ran, e);
    WithoutAt(rest, i - k);
    assert rest[..i - k] == list[k..i] && rest[i - k + 1..] == list[i + 1..];
  }

  lemma TaggedAfterSplice(m: Machine, i: nat)
    requires Tagged(m) && m.list.Some? && i < |m.list.value|
    ensures Tagged(Splice(m, i))
  {
    hide Ran, Without;
  }

  lemma SpliceKeepsInv(m: Machine, i: nat)
    requires Inv(m) && m.list.Some? && i < |m.list.value|
    ensures Inv(Splice(m, i))
  {
    TaggedAfterSplice(m, i);
    if m.firing {
      assert m.list.value[i] in m.list.value;
      FiringAfterSplice(m, i);
    }
    hide Tagged, InFiring, Without, Ran;
  }

  lemma FiringAfterSplice(m: Machine, i: nat)
    requires m.firing && m.list.Some? && i < |m.list.value| && Distinct(m.list.value) && m.mark <= |m.log|
    requires InFiring(m)
    ensures InFiring(Splice(m, i))
  {
    var list, ran, m' := m.list.value, Ran(m), Splice(m, i);
    var k := m.firingIndex + 1;
    if i >= k {
      DueAfterLate(ran, list, k, i);
    } else if list[i] !in ran {
      DueAfterEarly(ran, list, k, i);
    }
    WithoutMembers(m.due, list[i]);
    hide Without, Distinct;
    assert Ran(m') == ran;
    hide Ran;
    if i < k {
      assert m'.list.value[k - 1..] == list[k..];
    } else {
      assert m'.list.value[k..] == list[k..i] + list[i + 1..];
    }
  }

  lemma {:induction false} RemoveFromKeepsInv(m: Machine, fn: Fn, i: nat)
    requires Inv(m) && m.list.Some? && i <= |m.list.value|
    ensures Inv(RemoveFrom(m, fn, i))
    decreases |m.list.value| - i
  {
    hide Inv;
    if i < |m.list.value| {
      if m.list.value[i].fn == fn {
        SpliceKeepsInv(m, i);
        if !m.flags.unique {
          RemoveFromKeepsInv(Splice(m, i), fn, i);
        }
      } else {
        RemoveFromKeepsInv(m, fn, i + 1);
      }
    }
  }

  lemma {:induction false} RemoveKeepsInv(m: Machine, fns: seq<Fn>)
    requires Inv(m)
    ensures Inv(Remove(m, fns))
    decreases |fns|
  {
    hide Inv;
    if m.list.Some? && fns != [] {
      RemoveFromKeepsInv(m, fns[0], 0);
      RemoveKeepsInv(RemoveFrom(m, fns[0], 0), fns[1..]);
    }
  }

  // ---- all steps ---------------------------------------------------------------------------------------------------

  lemma AfterKeepsInv(m: Machine, s: Step)
    requires Inv(m)
    ensures Inv(After(m, s))
  {
    hide Push, Loop, Finish, Remove, Flatten;
    match s
    case DoAdd(args) => AddKeepsInv(m, args);
    case DoRemove(fns) => RemoveKeepsInv(m, fns);
    case DoFire(call) => FireWithKeepsInv(m, call);
    case DoReturn(isFalse) => if m.firing { ReturnKeepsInv(m, isFalse); }
    case DoLock =>
    case DoDisable =>
  }

  // ---- whose arguments ---------------------------------------------------------------------------------------------

  /** The i-th call was made for fire number `f[i]`, with its context and arguments; the numbers never go down. */
  predicate Follows(log: seq<Invocation>, started: seq<Call>, f: seq<nat>) {
    && |f| == |log|
    && (forall i :: 0 <= i < |f| ==> f[i] < |started| && log[i].call == started[f[i]])
    && forall i, j :: 0 <= i < j < |f| ==> f[i] <= f[j]
  }

  /** The calls take the fires that have begun, in order. */
  ghost predicate InOrder(log: seq<Invocation>, started: seq<Call>) {
    exists f: seq<nat> :: Follows(log, started, f)
  }

  /** The running firing, and the remembered arguments, are those of the fire that began last. */
  predicate Calling(m: Machine) {
    && (m.firing ==> m.started != [] && m.call == m.started[|m.started| - 1])
    && (m.memory.Last? ==> m.started != [] && m.memory.call == m.started[|m.started| - 1])
  }

  ghost predicate Attributed(m: Machine) {
    Calling(m) && InOrder(m.log, m.started)
  }

  /** A further call for the fire that began last. */
  lemma OneMoreCall(log: seq<Invocation>, started: seq<Call>, c: Invocation)
    requires InOrder(log, started) && started != [] && c.call == started[|started| - 1]
    ensures InOrder(log + [c], started)
  {
    var f: seq<nat> :| Follows(log, started, f);
    var last: nat := |started| - 1;
    assert Follows(log + [c], started, f + [last]);
  }

  /** A further fire begins. */
  lemma OneMoreFire(log: seq<Invocation>, started: seq<Call>, call: Call)
    requires InOrder(log, started)
    ensures InOrder(log, started + [call])
  {
    var f: seq<nat> :| Follows(log, started, f);
    assert Follows(log, started + [call], f);
  }

  lemma BeginAttributes(m: Machine, call: Call)
    requires m.list.Some? && m.firingStart <= |m.list.value|
    requires InOrder(m.log, m.started) && m.started != [] && call == m.started[|m.started| - 1]
    ensures Attributed(Begin(m, call))
  {
    hide InOrder;
  }

  lemma {:induction false} LoopAttributes(m: Machine)
    requires m.firing && m.firingStart == 0 && (m.stack.Some? ==> m.list.Some?) && Attributed(m)
    requires m.list.Some? ==> 0 <= m.firingIndex <= m.firingLength == |m.list.value|
    ensures Attributed(Loop(m))
    decreases if m.stack.Some? then |m.stack.value| else 0, 1
  {
    hide InOrder;
    if m.list.Some? && m.firingIndex < m.firingLength {
      OneMoreCall(m.log, m.started, Invocation(m.list.value[m.firingIndex], m.call));
    } else {
      FinishAttributes(m);
    }
  }

  lemma {:induction false} FinishAttributes(m: Machine)
    requires m.firingStart == 0 && (m.stack.Some? ==> m.list.Some?) && Attributed(m)
    ensures Attributed(Finish(m))
    decreases if m.stack.Some? then |m.stack.value| else 0, 0
  {
    hide InOrder;
    if m.list.Some? && !m.flags.once && m.stack.Some? && m.stack.value != [] {
      var next := m.stack.value[0];
      var n := m.(firing := false, stack := Some(m.stack.value[1..]), started := m.started + [next]);
      OneMoreFire(m.log, m.started, next);
      BeginAttributes(n, next);
      LoopAttributes(Begin(n, next));
      assert Finish(m) == Loop(Begin(n, next));
    }
  }

  lemma AddAttributes(m: Machine, args: seq<Arg>)
    requires Inv(m) && Attributed(m)
    ensures Attributed(Add(m, args))
  {
    hide Push, Flatten, Loop, InOrder, Tagged, Logged, Queued, InFiring;
    if m.list.Some? {
      var extra := PushAppends(m, Flatten(args));
      var p := Push(m, Flatten(args));
      if !p.firing && p.memory.Last? {
        var n := p.(firingStart := |m.list.value|);
        BeginAttributes(n, p.memory.call);
        StackHasList(m);
        LoopAttributes(Begin(n, p.memory.call));
      }
    }
  }

  lemma StackHasList(m: Machine)
    requires Inv(m)
    ensures m.stack.Some? ==> m.list.Some?
  {
  }

  lemma FireWithAttributes(m: Machine, call: Call)
    requires Inv(m) && Attributed(m)
    ensures Attributed(FireWith(m, call))
  {
    hide Loop, InOrder, Tagged, Logged, InFiring;
    if m.stack.Some? && !m.firing && !(m.flags.once && m.memory != Unset) {
      var n := m.(requested := m.requested + [call], started := m.started + [call]);
      OneMoreFire(m.log, m.started, call);
      BeginAttributes(n, call);
      LoopAttributes(Begin(n, call));
    }
  }

  lemma ReturnAttributes(m: Machine, isFalse: bool)
    requires Inv(m) && m.firing && Attributed(m)
    ensures Attributed(Return(m, isFalse))
  {
    hide Loop, Finish, InOrder, Tagged, Logged;
    if isFalse && m.flags.stopOnFalse {
      FinishAttributes(m.(memory := Halted));
    } else {
      LoopAttributes(m.(firingIndex := m.firingIndex + 1));
    }
  }

  lemma {:induction false} RemoveFromAttributes(m: Machine, fn: Fn, i: nat)
    requires m.list.Some? && i <= |m.list.value| && Attributed(m)
    ensures Attributed(RemoveFrom(m, fn, i))
    decreases |m.list.value| - i
  {
    hide InOrder, Ran, Without;
    if i < |m.list.value| {
      if m.list.value[i].fn == fn {
        if !m.flags.unique {
          RemoveFromAttributes(Splice(m, i), fn, i);
        }
      } else {
        RemoveFromAttributes(m, fn, i + 1);
      }
    }
  }

  lemma {:induction false} RemoveAttributes(m: Machine, fns: seq<Fn>)
    requires Attributed(m)
    ensures Attributed(Remove(m, fns))
    decreases |fns|
  {
    hide Attributed, RemoveFrom;
    if m.list.Some? && fns != [] {
      RemoveFromAttributes(m, fns[0], 0);
      RemoveAttributes(RemoveFrom(m, fns[0], 0), fns[1..]);
    }
  }

  /** Every step keeps whose arguments the callbacks get. */
  lemma AfterAttributes(m: Machine, s: Step)
    requires Inv(m) && Attributed(m)
    ensures Attributed(After(m, s))
  {
    hide Add, Remove, FireWith, Return, Inv, InOrder;
    match s
    case DoAdd(args) => AddAttributes(m, args);
    case DoRemove(fns) => RemoveAttributes(m, fns);
    case DoFire(call) => FireWithAttributes(m, call);
    case DoReturn(isFalse) => if m.firing { ReturnAttributes(m, isFalse); }
    case DoLock =>
    case DoDisable =>
  }

  lemma CreatedAttributes(flags: Flags)
    ensures Attributed(Created(flags))
  {
    assert Follows([], [], []);
  }

  // ---- all runs -----------------------------------------------------------------------------------------------------

  /** A run from a fresh list: whatever is called, by callbacks or from outside, in whatever order. */
  function Run(flags: Flags, steps: seq<Step>): (m: Machine)
    ensures Inv(m) && Attributed(m)
  {
    if steps == [] then CreatedAttributes(flags); Created(flags)
    else
      AfterKeepsInv(Run(flags, steps[..|steps| - 1]), steps[|steps| - 1]);
      AfterAttributes(Run(flags, steps[..|steps| - 1]), steps[|steps| - 1]);
      After(Run(flags, steps[..|steps| - 1]), steps[|steps| - 1])
  }

  // ---- what the invariant says about who is called -----------------------------------------------------------------

  /**
   * While a firing has something left to run, the next callback called is the first due entry that has not run, with
   * the arguments of this firing. When nothing is left, everything due has run, each entry once and in order.
   */
  lemma NextIsFirstDue(m: Machine, isFalse: bool)
    requires Inv(m) && m.firing && m.list.Some? && !(isFalse && m.flags.stopOnFalse)
    ensures Ran(m) <= m.due && Distinct(m.due)
    ensures |Ran(m)| < |m.due| ==>
              Return(m, isFalse) == m.(firingIndex := m.firingIndex + 1,
                                       log := m.log + [Invocation(m.due[|Ran(m)|], m.call)])
    ensures |Ran(m)| == |m.due| <==> m.firingIndex + 1 == m.firingLength
    ensures |Ran(m)| == |m.due| ==> Ran(m) == m.due
    ensures |Ran(m)| == |m.due| ==> Return(m, isFalse) == Finish(m.(firingIndex := m.firingIndex + 1))
  {
    hide Finish;
    var rest := m.list.value[m.firingIndex + 1..];
    assert |m.due| == |Ran(m)| + |rest|;
    if rest != [] {
      assert m.due[|Ran(m)|] == rest[0] == m.list.value[m.firingIndex + 1];
    }
  }

  /** What stays due when `fn` is removed: all but the occurrences of `fn` whose turn has not come. */
  function StillDue(due: seq<Entry>, ran: seq<Entry>, fn: Fn): seq<Entry> {
    if due == [] then []
    else if due[0].fn == fn && due[0] !in ran then StillDue(due[1..], ran, fn)
    else [due[0]] + StillDue(due[1..], ran, fn)
  }

  function Others(es: seq<Entry>, fn: Fn): seq<Entry> {
    if es == [] then [] else if es[0].fn == fn then Others(es[1..], fn) else [es[0]] + Others(es[1..], fn)
  }

  lemma {:induction false} OthersConcat(a: seq<Entry>, b: seq<Entry>, fn: Fn)
    ensures Others(a + b, fn) == Others(a, fn) + Others(b, fn)
  {
    if a == [] {
      assert a + b == b;
    } else {
      assert (a + b)[1..] == a[1..] + b;
      OthersConcat(a[1..], b, fn);
    }
  }

  lemma {:induction false} OthersAbsent(es: seq<Entry>, fn: Fn)
    requires forall e :: e in es ==> e.fn != fn
    ensures Others(es, fn) == es
  {
    if es != [] {
      OthersAbsent(es[1..], fn);
    }
  }

  lemma {:induction false} StillDueConcat(a: seq<Entry>, b: seq<Entry>, ran: seq<Entry>, fn: Fn)
    ensures StillDue(a + b, ran, fn) == StillDue(a, ran, fn) + StillDue(b, ran, fn)
  {
    if a == [] {
      assert a + b == b;
    } else {
      assert (a + b)[1..] == a[1..] + b;
      StillDueConcat(a[1..], b, ran, fn);
    }
  }

  lemma {:induction false} StillDueOfRan(a: seq<Entry>, ran: seq<Entry>, fn: Fn)
    requires forall e :: e in a ==> e in ran
    ensures StillDue(a, ran, fn) == a
  {
    if a != [] {
      StillDueOfRan(a[1..], ran, fn);
    }
  }

  lemma {:induction false} StillDueWithout(a: seq<Entry>, ran: seq<Entry>, e: Entry)
    requires e !in ran
    ensures StillDue(Without(a, e), ran, e.fn) == StillDue(a, ran, e.fn)
  {
    if a != [] {
      StillDueWithout(a[1..], ran, e);
      if a[0] != e {
        assert ([a[0]] + Without(a[1..], e))[1..] == Without(a[1..], e);
      }
    }
  }

  lemma {:induction false} StillDueOfOthers(a: seq<Entry>, ran: seq<Entry>, fn: Fn)
    requires forall e :: e in a ==> e.fn != fn
    ensures StillDue(a, ran, fn) == a
  {
    if a != [] {
      StillDueOfOthers(a[1..], ran, fn);
    }
  }

  /** `remove` takes every occurrence of the function out of the list, also where unique mode stops at the first. */
  lemma {:induction false} RemoveFromFilters(m: Machine, fn: Fn, i: nat)
    requires Inv(m) && m.list.Some? && i <= |m.list.value|
    requires forall j :: 0 <= j < i ==> m.list.value[j].fn != fn
    ensures RemoveFrom(m, fn, i).list == Some(Others(m.list.value, fn))
    ensures RemoveFrom(m, fn, i).firing == m.firing && Ran(RemoveFrom(m, fn, i)) == Ran(m)
    decreases |m.list.value| - i
  {
    var list := m.list.value;
    hide Distinct, Without;
    if i == |list| {
      OthersAbsent(list, fn);
    } else if list[i].fn == fn {
      SpliceKeepsInv(m, i);
      assert list == list[..i] + ([list[i]] + list[i + 1..]);
      OthersConcat(list[..i], [list[i]] + list[i + 1..], fn);
      OthersConcat(list[..i], list[i + 1..], fn);
      if m.flags.unique {
        OthersAbsent(list[..i] + list[i + 1..], fn);
      } else {
        RemoveFromFilters(Splice(m, i), fn, i);
      }
    } else {
      RemoveFromFilters(m, fn, i + 1);
    }
  }

  /**
   * During a firing, `remove(fn)` cancels exactly the turns of `fn` that have not come; whatever it does to the
   * indices, every other turn stays, so the removal makes no callback run twice or be skipped.
   */
  lemma RemoveCancelsPendingTurns(m: Machine, fn: Fn)
    requires Inv(m) && m.firing && m.list.Some?
    ensures var r := RemoveFrom(m, fn, 0); Inv(r) && r.due == StillDue(m.due, Ran(m), fn)
  {
    var r := RemoveFrom(m, fn, 0);
    RemoveFromKeepsInv(m, fn, 0);
    RemoveFromFilters(m, fn, 0);
    RemoveFromKeepsStillDue(m, fn, 0);
    var ran, rest := Ran(r), r.list.value[r.firingIndex + 1..];
    OthersMembers(m.list.value, fn);
    StillDueConcat(ran, rest, ran, fn);
    StillDueOfRan(ran, ran, fn);
    StillDueOfOthers(rest, ran, fn);
  }

  lemma {:induction false} OthersMembers(es: seq<Entry>, fn: Fn)
    ensures forall e :: e in Others(es, fn) ==> e.fn != fn
  {
    if es != [] {
      OthersMembers(es[1..], fn);
    }
  }

  lemma {:induction false} RemoveFromKeepsStillDue(m: Machine, fn: Fn, i: nat)
    requires Inv(m) && m.firing && m.list.Some? && i <= |m.list.value|
    ensures StillDue(RemoveFrom(m, fn, i).due, Ran(m), fn) == StillDue(m.due, Ran(m), fn)
    decreases |m.list.value| - i
  {
    hide Inv, StillDue;
    if i < |m.list.value| {
      if m.list.value[i].fn == fn {
        var e := m.list.value[i];
        SpliceKeepsInv(m, i);
        if e !in Ran(m) {
          StillDueWithout(m.due, Ran(m), e);
        }
        if !m.flags.unique {
          RemoveFromKeepsStillDue(Splice(m, i), fn, i);
        }
      } else {
        RemoveFromKeepsStillDue(m, fn, i + 1);
      }
    }
  }

  /**
   * `add` appends some of the functions given, all of them unless in unique mode, and nothing else. During a firing
   * what it appends becomes due behind what was.
   */
  lemma {:induction false} PushAppends(m: Machine, fns: seq<Fn>) returns (extra: seq<Entry>)
    requires m.list.Some?
    ensures Push(m, fns) == m.(list := Some(m.list.value + extra), added := m.added + extra,
                               due := if m.firing then m.due + extra else m.due)
    ensures forall e :: e in extra ==> e.fn in fns
    ensures !m.flags.unique ==> |extra| == |fns| && forall i :: 0 <= i < |fns| ==> extra[i].fn == fns[i]
    decreases |fns|
  {
    if fns == [] {
      extra := [];
      assert m.list.value + extra == m.list.value && m.added + extra == m.added && m.due + extra == m.due;
    } else if m.flags.unique && Has(m.list.value, fns[0]) {
      extra := PushAppends(m, fns[1..]);
    } else {
      var e := Entry(fns[0], |m.added|);
      var rest := PushAppends(PushOne(m, fns[0]), fns[1..]);
      extra := [e] + rest;
      assert m.list.value + [e] + rest == m.list.value + extra;
      assert m.added + [e] + rest == m.added + extra && m.due + [e] + rest == m.due + extra;
    }
  }

  /** A list that may fire again stays open until it is locked or disabled. */
  predicate Open(m: Machine) {
    !m.flags.once && m.list.Some? && m.stack.Some?
  }

  lemma {:induction false} LoopStaysOpen(m: Machine)
    requires m.firingStart == 0 && (m.stack.Some? ==> m.list.Some?)
    requires m.list.Some? ==> 0 <= m.firingIndex <= m.firingLength == |m.list.value|
    ensures Loop(m).flags == m.flags && Loop(m).added == m.added
    ensures Open(m) ==> Open(Loop(m))
    ensures m.stack.None? ==> Loop(m).stack.None?
    decreases if m.stack.Some? then |m.stack.value| else 0, 1
  {
    if !(m.list.Some? && m.firingIndex < m.firingLength) {
      FinishStaysOpen(m);
    }
  }

  lemma {:induction false} FinishStaysOpen(m: Machine)
    requires m.firingStart == 0 && (m.stack.Some? ==> m.list.Some?)
    ensures Finish(m).flags == m.flags && Finish(m).added == m.added
    ensures Open(m) ==> Open(Finish(m))
    ensures m.stack.None? ==> Finish(m).stack.None?
    decreases if m.stack.Some? then |m.stack.value| else 0, 0
  {
    if m.list.Some? && !m.flags.once && m.stack.Some? && m.stack.value != [] {
      var next := m.stack.value[0];
      var n := m.(firing := false, stack := Some(m.stack.value[1..]), started := m.started + [next]);
      LoopStaysOpen(Begin(n, next));
    }
  }

  lemma {:induction false} PushKeepsFlags(m: Machine, fns: seq<Fn>)
    requires m.list.Some?
    ensures Push(m, fns).flags == m.flags
    decreases |fns|
  {
    if fns != [] {
      if m.flags.unique && Has(m.list.value, fns[0]) {
        PushKeepsFlags(m, fns[1..]);
      } else {
        PushKeepsFlags(PushOne(m, fns[0]), fns[1..]);
      }
    }
  }

  lemma {:induction false} RemoveStaysOpen(m: Machine, fns: seq<Fn>)
    ensures Remove(m, fns).flags == m.flags && Remove(m, fns).stack == m.stack
    ensures Open(m) ==> Open(Remove(m, fns))
    decreases |fns|
  {
    if m.list.Some? && fns != [] {
      RemoveFromStaysOpen(m, fns[0], 0);
      RemoveStaysOpen(RemoveFrom(m, fns[0], 0), fns[1..]);
    }
  }

  lemma {:induction false} RemoveFromStaysOpen(m: Machine, fn: Fn, i: nat)
    requires m.list.Some? && i <= |m.list.value|
    ensures RemoveFrom(m, fn, i).flags == m.flags && RemoveFrom(m, fn, i).stack == m.stack
    ensures Open(m) ==> Open(RemoveFrom(m, fn, i))
    decreases |m.list.value| - i
  {
    hide Ran, Without;
    if i < |m.list.value| {
      if m.list.value[i].fn == fn {
        if !m.flags.unique {
          RemoveFromStaysOpen(Splice(m, i), fn, i);
        }
      } else {
        RemoveFromStaysOpen(m, fn, i + 1);
      }
    }
  }

  lemma AfterStaysOpen(m: Machine, s: Step)
    requires Inv(m)
    ensures After(m, s).flags == m.flags
    ensures Open(m) && !s.DoLock? && !s.DoDisable? ==> Open(After(m, s))
    ensures m.stack.None? ==> After(m, s).stack.None?
    ensures s.DoFire? || s.DoReturn? ==> After(m, s).added == m.added
  {
    hide Tagged, Loop, Finish, Push, Flatten, Remove;
    match s
    case DoAdd(args) =>
      if m.list.Some? {
        PushGrows(m, Flatten(args));
        PushKeepsFlags(m, Flatten(args));
        var m' := Push(m, Flatten(args));
        if !m'.firing && m'.memory.Last? {
          LoopStaysOpen(Begin(m'.(firingStart := |m.list.value|), m'.memory.call));
        }
      }
    case DoRemove(fns) => RemoveStaysOpen(m, fns);
    case DoFire(call) =>
      if m.stack.Some? && !m.firing && !(m.flags.once && m.memory != Unset) {
        LoopStaysOpen(Begin(m.(requested := m.requested + [call], started := m.started + [call]), call));
      }
    case DoReturn(isFalse) =>
      if m.firing {
        if isFalse && m.flags.stopOnFalse {
          FinishStaysOpen(m.(memory := Halted));
        } else {
          LoopStaysOpen(m.(firingIndex := m.firingIndex + 1));
        }
      }
    case DoLock =>
    case DoDisable =>
  }

  predicate NeverClosed(steps: seq<Step>) {
    forall i :: 0 <= i < |steps| ==> !steps[i].DoLock? && !steps[i].DoDisable?
  }

  lemma {:induction false} RunStaysOpen(flags: Flags, steps: seq<Step>)
    ensures Run(flags, steps).flags == flags
    ensures !flags.once && NeverClosed(steps) ==> Open(Run(flags, steps))
  {
    if steps != [] {
      RunStaysOpen(flags, steps[..|steps| - 1]);
      AfterStaysOpen(Run(flags, steps[..|steps| - 1]), steps[|steps| - 1]);
    }
  }
}
