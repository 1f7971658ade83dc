/**
 * The header table: 17 bucket chains and one circular doubly linked list over the same entries.
 * `live` lists the entries oldest first; chains and list are both determined by it.
 */
module HttpHeaders {
  import opened Common
  import opened JavaText
  import opened HeaderNames
  import opened HeaderFields

  class HeaderEntry {
    const hash: int
    const key: JString
    var value: JString
    var next: HeaderEntry?
    var before: HeaderEntry?
    var after: HeaderEntry?

    constructor (hash: int, key: JString, value: JString)
      ensures this.hash == hash && this.key == key && this.value == value
      ensures next == before == after == null
    {
      this.hash, this.key, this.value := hash, key, value;
      next, before, after := null, null, null;
    }

    method Remove()
      requires before != null && after != null
      modifies before`after, after`before
      ensures old(before).after == old(after) && old(after).before == old(before)
    {
      before.after := after;
      after.before := before;
    }

    /** Cuts the entry behind this one out of the chain and out of the list. */
    method RemoveNext()
      requires next != null && next.before != null && next.after != null
      modifies this`next, next.before`after, next.after`before
      ensures next == old(next.next)
      ensures old(next.before).after == old(next.after) && old(next.after).before == old(next.before)
    {
      var e := next;
      next := e.next;
      e.Remove();
    }

    method AddBefore(e: HeaderEntry)
      requires e.before != null && this != e && this != e.before
      modifies this`before, this`after, e`before, e.before`after
      ensures after == e && before == old(e.before)
      ensures before.after == this && e.before == this
    {
      after := e;
      before := e.before;
      before.after := this;
      after.before := this;
    }
  }

  /** The entries of bucket `b`, newest first. */
  ghost function Bucket(live: seq<HeaderEntry>, b: int): (chain: seq<HeaderEntry>)
    ensures forall e :: e in chain ==> e in live
  {
    if live == [] then []
    else
      var older := Bucket(live[..|live| - 1], b);
      if BucketOf(live[|live| - 1].hash) == b then [live[|live| - 1]] + older else older
  }

  ghost function NextIn(chain: seq<HeaderEntry>, k: nat): HeaderEntry?
    requires k < |chain|
  {
    if k + 1 < |chain| then chain[k + 1] else null
  }

  ghost function FirstOf(chain: seq<HeaderEntry>): HeaderEntry? {
    if chain == [] then null else chain[0]
  }

  /** The entries form one null-terminated chain in this order. */
  ghost predicate Linked(chain: seq<HeaderEntry>)
    reads chain
  {
    forall j :: 0 <= j < |chain| ==> chain[j].next == NextIn(chain, j)
  }

  /** Neighbours in `ring` point at each other. */
  ghost predicate Ringed(ring: seq<HeaderEntry>)
    reads ring
  {
    && (forall j :: 0 <= j < |ring| - 1 ==> ring[j].after == ring[j + 1])
    && (forall j :: 1 <= j < |ring| ==> ring[j].before == ring[j - 1])
  }

  ghost predicate NoneNamed(es: seq<HeaderEntry>, name: JString) {
    forall e :: e in es ==> !SameName(name, e.key)
  }

  ghost predicate Distinct<T>(s: seq<T>) {
    forall i, j :: 0 <= i < j < |s| ==> s[i] != s[j]
  }

  ghost function DropAt<T>(s: seq<T>, p: nat): seq<T>
    requires p < |s|
  {
    s[..p] + s[p + 1..]
  }

  lemma Position<T>(s: seq<T>, x: T) returns (p: nat)
    requires x in s
    ensures p < |s| && s[p] == x
  {
    p :| p < |s| && s[p] == x;
  }

  ghost function View(es: seq<HeaderEntry>): (fs: Fields)
    reads es
    ensures |fs| == |es|
    ensures forall i :: 0 <= i < |es| ==> fs[i] == Field(es[i].key, es[i].value)
  {
    seq(|es|, i requires 0 <= i < |es| reads es => Field(es[i].key, es[i].value))
  }

  lemma DropFacts<T>(s: seq<T>, p: nat, x: T)
    requires p < |s| && Distinct(s)
    ensures Distinct(DropAt(s, p)) && (forall y :: y in DropAt(s, p) ==> y in s)
    ensures DropAt([x] + s + [x], p + 1) == [x] + DropAt(s, p) + [x]
  {
  }

  lemma AppendFacts<T>(s: seq<T>, e: T, x: T)
    requires Distinct(s) && e !in s
    ensures Distinct(s + [e])
    ensures [x] + (s + [e]) + [x] == ([x] + s + [x])[..|s| + 1] + [e, x]
  {
  }

  lemma DropPrefix<T>(s: seq<T>, p: nat)
    requires p < |s|
    ensures |DropAt(s, p)| == |s| - 1 && DropAt(s, p)[..p] == s[..p]
  {
  }

  lemma {:induction false} BucketMembers(live: seq<HeaderEntry>, b: int)
    ensures forall e :: e in Bucket(live, b) <==> e in live && BucketOf(e.hash) == b
  {
    if live != [] {
      BucketMembers(live[..|live| - 1], b);
      assert live == live[..|live| - 1] + [live[|live| - 1]];
    }
  }

  lemma {:induction false} BucketDistinct(live: seq<HeaderEntry>, b: int)
    requires Distinct(live)
    ensures Distinct(Bucket(live, b))
  {
    if live != [] {
      BucketDistinct(live[..|live| - 1], b);
      BucketMembers(live[..|live| - 1], b);
    }
  }

  /** Dropping one entry of `live` drops that entry from its own chain and touches no other chain. */
  lemma {:induction false} BucketDrop(live: seq<HeaderEntry>, p: nat, b: int) returns (q: nat)
    requires p < |live|
    ensures if BucketOf(live[p].hash) == b
            then q < |Bucket(live, b)| && Bucket(live, b)[q] == live[p]
                 && Bucket(DropAt(live, p), b) == DropAt(Bucket(live, b), q)
            else Bucket(DropAt(live, p), b) == Bucket(live, b)
    decreases |live|
  {
    q := 0;
    var last := live[|live| - 1];
    var init := live[..|live| - 1];
    if p == |live| - 1 {
      assert DropAt(live, p) == init;
    } else {
      var q' := BucketDrop(init, p, b);
      assert DropAt(live, p)[..|live| - 2] == DropAt(init, p);
      q := if BucketOf(last.hash) == b then q' + 1 else q';
    }
  }

  class HttpHeaders {
    const entries: array<HeaderEntry?>
    const head: HeaderEntry
    const validator: Validator
    ghost var live: seq<HeaderEntry>
    ghost var Repr: set<object>

    ghost predicate Valid()
      reads this, Repr
      ensures Valid() ==> this in Repr
    {
      && this in Repr && entries in Repr && head in Repr
      && (forall e :: e in live ==> e in Repr)
      && entries.Length == BUCKET_SIZE
      && Distinct(live) && head !in live
      && (forall e :: e in live ==> e.hash == HashOf(e.key))
      && Ringed([head] + live + [head])
      && (forall b :: 0 <= b < BUCKET_SIZE ==> entries[b] == FirstOf(Bucket(live, b)) && Linked(Bucket(live, b)))
    }

    ghost function Contents(): Fields
      reads this, Repr
      requires Valid()
    {
      View(live)
    }

    constructor (validator: Validator)
      ensures Valid() && fresh(Repr)
      ensures this.validator == validator && Contents() == []
    {
      var es := new HeaderEntry?[BUCKET_SIZE](_ => null);
      var h := new HeaderEntry(-1, [], []);
      h.before, h.after := h, h;
      entries, head, this.validator := es, h, validator;
      live := [];
      Repr := {this, es, h};
    }

    method AddHeader0(h: JInt, i: nat, name: JString, value: JString)
      requires Valid() && h == HashOf(name) && i == BucketOf(h)
      modifies Repr
      ensures Valid() && fresh(Repr - old(Repr))
      ensures Contents() == old(Contents()) + [Field(name, value)]
    {
      hide *;
      TailFacts();
      ghost var last := if live == [] then head else live[|live| - 1];
      var e := entries[i];
      var newEntry := new HeaderEntry(h, name, value);
      entries[i] := newEntry;
      newEntry.next := e;
      newEntry.AddBefore(head);
      live := live + [newEntry];
      Repr := Repr + {newEntry};
      ValidAfterAdd(newEntry, i, last);
    }

    lemma TailFacts()
      requires Valid()
      ensures head.before == if live == [] then head else live[|live| - 1]
      ensures head in Repr && head.before in Repr && this in Repr
      ensures entries.Length == BUCKET_SIZE && entries in Repr
      ensures head !in live && forall x :: x in live ==> x in Repr
    {
      var ring := [head] + live + [head];
      assert ring[|live| + 1].before == ring[|live|];
    }

    twostate lemma ValidAfterAdd(new e: HeaderEntry, new i: nat, last: HeaderEntry)
      requires old(Valid()) && e !in old(Repr) && e.hash == HashOf(e.key) && i == BucketOf(e.hash)
      requires last == if old(live) == [] then head else old(live)[|old(live)| - 1]
      requires live == old(live) + [e] && Repr == old(Repr) + {e}
      requires forall x :: x in old(live) ==> x.next == old(x.next) && x.value == old(x.value)
      requires forall x :: x in old(live) && x != last ==> x.after == old(x.after)
      requires head != last ==> head.after == old(head.after)
      requires forall x :: x in old(live) ==> x.before == old(x.before)
      requires last.after == e && head.before == e && e.before == last && e.after == head
      requires e.next == old(entries[i]) && entries[i] == e
      requires forall b :: 0 <= b < BUCKET_SIZE && b != i ==> entries[b] == old(entries[b])
      ensures Valid()
      ensures Contents() == old(Contents()) + [Field(e.key, e.value)]
    {
      hide Bucket, Linked, FirstOf, Ringed, BucketOf, HashOf;
      var ring := [head] + old(live) + [head];
      AppendFacts(old(live), e, head);
      ViewUnchanged(old(live));
      RingAfterAdd(ring, e);
      ChainsAfterAdd(old(live), e, i);
    }

    twostate lemma ChainsAfterAdd(es0: seq<HeaderEntry>, new e: HeaderEntry, new i: nat)
      requires entries.Length == BUCKET_SIZE && i == BucketOf(e.hash)
      requires forall b :: 0 <= b < BUCKET_SIZE ==>
               old(entries[b]) == FirstOf(Bucket(es0, b)) && old(Linked(Bucket(es0, b)))
      requires forall x :: x in es0 ==> x.next == old(x.next)
      requires e.next == old(entries[i]) && entries[i] == e
      requires forall b :: 0 <= b < BUCKET_SIZE && b != i ==> entries[b] == old(entries[b])
      ensures forall b :: 0 <= b < BUCKET_SIZE ==>
                entries[b] == FirstOf(Bucket(es0 + [e], b)) && Linked(Bucket(es0 + [e], b))
    {
      assert (es0 + [e])[..|es0|] == es0;
      forall b | 0 <= b < BUCKET_SIZE
        ensures entries[b] == FirstOf(Bucket(es0 + [e], b)) && Linked(Bucket(es0 + [e], b))
      {
        assert old(entries[b]) == FirstOf(Bucket(es0, b)) && old(Linked(Bucket(es0, b)));
        LinkedKept(Bucket(es0, b));
        if b == i {
          LinkedPushed(Bucket(es0, b), e);
        }
      }
    }

    twostate lemma LinkedKept(chain: seq<HeaderEntry>)
      requires old(Linked(chain))
      requires forall x :: x in chain ==> x.next == old(x.next)
      ensures Linked(chain)
    {
    }

    lemma LinkedPushed(chain: seq<HeaderEntry>, e: HeaderEntry)
      requires Linked(chain) && e.next == FirstOf(chain)
      ensures Linked([e] + chain)
    {
      var all := [e] + chain;
      forall j | 0 <= j < |all|
        ensures all[j].next == NextIn(all, j)
      {
        if j > 0 {
          assert all[j] == chain[j - 1] && chain[j - 1].next == NextIn(chain, j - 1);
        }
      }
    }

    twostate lemma RingAfterAdd(ring: seq<HeaderEntry>, new e: HeaderEntry)
      requires |ring| >= 2 && ring[0] == ring[|ring| - 1] && e !in ring
      requires Distinct(ring[1..])
      requires old(Ringed(ring))
      requires forall x :: x in ring[1..|ring| - 1] ==> x.before == old(x.before)
      requires forall x :: x in ring[..|ring| - 2] ==> x.after == old(x.after)
      requires e.before == ring[|ring| - 2] && e.after == ring[0]
      requires ring[|ring| - 2].after == e && ring[0].before == e
      ensures Ringed(ring[..|ring| - 1] + [e, ring[0]])
    {
    }

    /** Takes the first entry of chain `i`, a field called `name`, out of the list and the chain. */
    method UnlinkFirst(e: HeaderEntry, i: nat, ghost name: JString)
      requires Valid() && i < BUCKET_SIZE <= entries.Length && entries[i] == e && SameName(name, e.key)
      modifies Repr
      ensures Valid() && Repr == old(Repr) && |live| < |old(live)|
      ensures Without(Contents(), name) == Without(old(Contents()), name)
      ensures entries.Length == BUCKET_SIZE && e.next == entries[i] == old(e.next)
    {
      hide *;
      ChainHead(i);
      ghost var fs := Contents();
      ghost var p := Surroundings(i, 0);
      ghost var pred, succ := ([head] + live + [head])[p], ([head] + live + [head])[p + 2];
      e.Remove();
      entries[i] := e.next;
      live := DropAt(live, p);
      ValidAfterRemove(e, i, p, 0, null, pred, succ);
      WithoutDropped(fs, p, name);
    }

    /** What the `k`-th entry of chain `i` looks like. */
    lemma ChainNode(i: nat, k: nat)
      requires Valid() && i < BUCKET_SIZE && k < |Bucket(live, i)|
      ensures Bucket(live, i)[k].next == if k + 1 < |Bucket(live, i)| then Bucket(live, i)[k + 1] else null
      ensures Bucket(live, i)[k].hash == HashOf(Bucket(live, i)[k].key)
      ensures Bucket(live, i)[k] in live && Bucket(live, i)[k] in Repr
    {
      assert Bucket(live, i)[k] in live;
    }

    /** Where the `k`-th entry of chain `i` stands in the list. */
    lemma Surroundings(i: nat, k: nat) returns (p: nat)
      requires Valid() && i < BUCKET_SIZE && k < |Bucket(live, i)|
      ensures p < |live| && live[p] == Bucket(live, i)[k] && BucketOf(live[p].hash) == i
      ensures live[p].before == ([head] + live + [head])[p] && live[p].before in Repr
      ensures live[p].after == ([head] + live + [head])[p + 2] && live[p].after in Repr
      ensures live[p] in Repr && head !in live && i == BucketOf(live[p].hash)
      ensures entries.Length == BUCKET_SIZE && entries in Repr && this in Repr
    {
      BucketMembers(live, i);
      p := Position(live, Bucket(live, i)[k]);
      assert ([head] + live + [head])[p + 1] == live[p];
    }

    /** Takes the entry behind `e`, a field called `name`, out of the list and out of `e`'s chain. */
    method UnlinkNext(e: HeaderEntry, i: nat, ghost k: nat, ghost name: JString)
      requires Valid() && i < BUCKET_SIZE
      requires k + 1 < |Bucket(live, i)| && Bucket(live, i)[k] == e && SameName(name, Bucket(live, i)[k + 1].key)
      modifies Repr
      ensures Valid() && Repr == old(Repr) && |live| < |old(live)|
      ensures Without(Contents(), name) == Without(old(Contents()), name)
      ensures k < |Bucket(live, i)| && Bucket(live, i)[k] == e
      ensures Bucket(live, i)[..k + 1] == Bucket(old(live), i)[..k + 1]
    {
      hide *;
      ChainNode(i, k);
      ghost var chain, all, fs := Bucket(live, i), live, Contents();
      ghost var p := Surroundings(i, k + 1);
      ghost var pred, succ := ([head] + live + [head])[p], ([head] + live + [head])[p + 2];
      var next := e.next;
      e.RemoveNext();
      live := DropAt(all, p);
      ValidAfterRemove(next, i, p, k + 1, e, pred, succ);
      DropPrefix(chain, k + 1);
      assert Bucket(live, i)[..k + 1][k] == e;
      WithoutDropped(fs, p, name);
    }

    twostate lemma ValidAfterRemove(e: HeaderEntry, new i: nat, new p: nat, new q: nat,
                                     new up: HeaderEntry?, new pred: HeaderEntry, new succ: HeaderEntry)
      requires old(Valid()) && Repr == old(Repr)
      requires p < |old(live)| && old(live)[p] == e && live == DropAt(old(live), p)
      requires i == BucketOf(e.hash) && q < |Bucket(old(live), i)| && Bucket(old(live), i)[q] == e
      requires pred == ([head] + old(live) + [head])[p] && succ == ([head] + old(live) + [head])[p + 2]
      requires forall x :: x in old(live) ==> x.value == old(x.value)
      requires forall x :: x in old(live) && x != pred ==> x.after == old(x.after)
      requires head != pred ==> head.after == old(head.after)
      requires forall x :: x in old(live) && x != succ ==> x.before == old(x.before)
      requires head != succ ==> head.before == old(head.before)
      requires pred.after == succ && succ.before == pred
      requires forall b :: 0 <= b < BUCKET_SIZE && b != i ==> entries[b] == old(entries[b])
      requires up == if q == 0 then null else Bucket(old(live), i)[q - 1]
      requires forall x :: x in old(live) && x != up ==> x.next == old(x.next)
      requires up == null ==> entries[i] == e.next
      requires up != null ==> entries[i] == old(entries[i]) && up.next == e.next
      ensures Valid() && |live| < |old(live)|
      ensures p < |old(Contents())| && old(Contents())[p].name == e.key
      ensures Contents() == DropAt(old(Contents()), p)
      ensures Bucket(live, i) == DropAt(Bucket(old(live), i), q)
    {
      var ring := [head] + old(live) + [head];
      RingAfterDrop(ring, p + 1);
      DropFacts(old(live), p, head);
      ViewUnchanged(old(live));
      ViewDrop(old(live), p);
      ChainsAfterDrop(old(live), i, p, q);
    }

    twostate lemma ChainsAfterDrop(es0: seq<HeaderEntry>, new i: nat, new p: nat, new q: nat)
      requires entries.Length == BUCKET_SIZE && Distinct(es0)
      requires forall b :: 0 <= b < BUCKET_SIZE ==>
               old(entries[b]) == FirstOf(Bucket(es0, b)) && old(Linked(Bucket(es0, b)))
      requires p < |es0| && i == BucketOf(es0[p].hash) && q < |Bucket(es0, i)| && Bucket(es0, i)[q] == es0[p]
      requires forall b :: 0 <= b < BUCKET_SIZE && b != i ==> entries[b] == old(entries[b])
      requires forall x :: x in es0 && (q > 0 ==> x != Bucket(es0, i)[q - 1]) ==> x.next == old(x.next)
      requires q == 0 ==> entries[i] == es0[p].next
      requires q > 0 ==> entries[i] == old(entries[i]) && Bucket(es0, i)[q - 1].next == es0[p].next
      ensures forall b :: 0 <= b < BUCKET_SIZE ==>
                entries[b] == FirstOf(Bucket(DropAt(es0, p), b)) && Linked(Bucket(DropAt(es0, p), b))
      ensures Bucket(DropAt(es0, p), i) == DropAt(Bucket(es0, i), q)
    {
      forall b | 0 <= b < BUCKET_SIZE
        ensures entries[b] == FirstOf(Bucket(DropAt(es0, p), b)) && Linked(Bucket(DropAt(es0, p), b))
        ensures b == i ==> Bucket(DropAt(es0, p), b) == DropAt(Bucket(es0, b), q)
      {
        var q' := BucketDrop(es0, p, b);
        BucketDistinct(es0, b);
        assert old(entries[b]) == FirstOf(Bucket(es0, b)) && old(Linked(Bucket(es0, b)));
        if b == i {
          LinkedAfterDrop(Bucket(es0, b), q);
        } else {
          BucketMembers(es0, i);
          BucketMembers(es0, b);
          LinkedKept(Bucket(es0, b));
        }
      }
    }

    twostate lemma RingAfterDrop(ring: seq<HeaderEntry>, new k: nat)
      requires 0 < k < |ring| - 1 && Distinct(ring[1..])
      requires ring[0] == ring[|ring| - 1] && old(Ringed(ring))
      requires forall x :: x in ring && x != ring[k - 1] ==> x.after == old(x.after)
      requires forall x :: x in ring && x != ring[k + 1] ==> x.before == old(x.before)
      requires ring[k - 1].after == ring[k + 1] && ring[k + 1].before == ring[k - 1]
      ensures Ringed(DropAt(ring, k))
    {
      var rest := DropAt(ring, k);
      forall j | 0 <= j < |rest| - 1
        ensures rest[j].after == rest[j + 1] && rest[j + 1].before == rest[j]
      {
        var j' := if j < k then j else j + 1;
        assert old(ring[j'].after) == ring[j' + 1] && old(ring[j' + 1].before) == ring[j'];
        assert rest[j] == ring[j'] && rest[j + 1] == ring[if j + 1 < k then j + 1 else j + 2];
      }
    }

    twostate lemma LinkedAfterDrop(chain: seq<HeaderEntry>, new q: nat)
      requires q < |chain| && Distinct(chain) && old(Linked(chain))
      requires forall x :: x in chain && (q > 0 ==> x != chain[q - 1]) ==> x.next == old(x.next)
      requires q > 0 ==> chain[q - 1].next == chain[q].next
      ensures Linked(DropAt(chain, q))
      ensures q == 0 ==> chain[0].next == FirstOf(DropAt(chain, q))
      ensures q > 0 ==> FirstOf(DropAt(chain, q)) == FirstOf(chain)
    {
      var rest := DropAt(chain, q);
      assert chain[q].next == NextIn(chain, q);
      forall j | 0 <= j < |rest|
        ensures rest[j].next == NextIn(rest, j)
      {
        var j' := if j < q then j else j + 1;
        assert rest[j] == chain[j'] && old(chain[j'].next) == NextIn(chain, j');
      }
    }

    lemma ViewDrop(es: seq<HeaderEntry>, p: nat)
      requires p < |es|
      ensures View(DropAt(es, p)) == DropAt(View(es), p)
    {
      forall j | 0 <= j < |es| - 1
        ensures View(DropAt(es, p))[j] == DropAt(View(es), p)[j]
      {
        assert DropAt(es, p)[j] == es[if j < p then j else j + 1];
      }
    }

    twostate lemma ViewUnchanged(es: seq<HeaderEntry>)
      requires forall e :: e in es ==> e.value == old(e.value)
      ensures View(es) == old(View(es))
    {
    }

    /** An entry of the name removed is one of the fields removed. */
    lemma WithoutDropped(fs: Fields, p: nat, name: JString)
      requires p < |fs| && SameName(name, fs[p].name)
      ensures Without(DropAt(fs, p), name) == Without(fs, name)
    {
      WithoutConcat(fs[..p], fs[p + 1..], name);
      WithoutConcat(fs[..p], fs[p..], name);
      assert fs == fs[..p] + fs[p..] && fs[p..][1..] == fs[p + 1..];
    }

    /** A name that its own chain does not hold is nowhere in the table. */
    lemma {:induction false} AbsentFromTable(name: JString)
      requires Valid()
      requires NoneNamed(Bucket(live, BucketOf(HashOf(name))), name)
      ensures Without(Contents(), name) == Contents()
    {
      forall e | e in live
        ensures !SameName(name, e.key)
      {
        BucketMembers(live, BucketOf(HashOf(name)));
        if SameName(name, e.key) {
          SameNameSameHash(name, e.key);
        }
      }
      WithoutAbsent(Contents(), name);
    }

    lemma {:induction false} WithoutAbsent(fs: Fields, name: JString)
      requires forall f :: f in fs ==> !SameName(name, f.name)
      ensures Without(fs, name) == fs
    {
      if fs != [] {
        WithoutAbsent(fs[1..], name);
      }
    }

    method Matches(e: HeaderEntry, h: JInt, name: JString) returns (r: bool)
      requires h == HashOf(name) && e.hash == HashOf(e.key)
      ensures r <==> SameName(name, e.key)
    {
      r := e.hash == h;
      if r {
        r := Eq(name, e.key);
      } else if SameName(name, e.key) {
        SameNameSameHash(name, e.key);
      }
    }

    method RemoveHeader0(h: JInt, i: nat, name: JString)
      requires Valid() && h == HashOf(name) && i == BucketOf(h)
      modifies Repr
      ensures Valid() && Repr == old(Repr)
      ensures Contents() == Without(old(Contents()), name)
    {
      hide *;
      ChainHead(i);
      var e := entries[i];
      if e == null {
        EmptyPrefix(i, name);
        AbsentFromTable(name);
        return;
      }
      while true
        invariant Valid() && Repr == old(Repr) && entries.Length == BUCKET_SIZE
        invariant e != null && e == entries[i]
        invariant Without(Contents(), name) == Without(old(Contents()), name)
        decreases |live|
      {
        ChainHead(i);
        ChainNode(i, 0);
        var matches := Matches(e, h, name);
        if !matches {
          break;
        }
        UnlinkFirst(e, i, name);
        var next := e.next;
        if next != null {
          e := next;
        } else {
          ChainHead(i);
          EmptyPrefix(i, name);
          AbsentFromTable(name);
          return;
        }
      }
      RemoveRest(h, i, name, e);
    }

    /** The second loop of the removal: everything behind the first entry that stays. */
    method RemoveRest(h: JInt, i: nat, name: JString, first: HeaderEntry)
      requires Valid() && h == HashOf(name) && i == BucketOf(h) && i < entries.Length
      requires entries[i] == first && !SameName(name, first.key)
      modifies Repr
      ensures Valid() && Repr == old(Repr)
      ensures Contents() == Without(old(Contents()), name)
    {
      hide *;
      var e := first;
      ghost var k := 0;
      ChainHead(i);
      EmptyPrefix(i, name);
      PrefixStep(i, 0, name);
      while true
        invariant Valid() && Repr == old(Repr)
        invariant k < |Bucket(live, i)| && Bucket(live, i)[k] == e
        invariant NoneNamed(Bucket(live, i)[..k + 1], name)
        invariant Without(Contents(), name) == Without(old(Contents()), name)
        decreases |live|, |Bucket(live, i)| - k
      {
        ChainNode(i, k);
        var next := e.next;
        if next == null {
          break;
        }
        ChainNode(i, k + 1);
        var matches := Matches(next, h, name);
        if matches {
          UnlinkNext(e, i, k, name);
        } else {
          PrefixStep(i, k + 1, name);
          e := next;
          k := k + 1;
        }
      }
      assert Bucket(live, i)[..k + 1] == Bucket(live, i);
      AbsentFromTable(name);
    }

    lemma ChainHead(i: nat)
      requires Valid() && i < BUCKET_SIZE
      ensures entries.Length == BUCKET_SIZE && entries in Repr
      ensures entries[i] == if Bucket(live, i) == [] then null else Bucket(live, i)[0]
    {
    }

    lemma EmptyPrefix(i: nat, name: JString)
      ensures NoneNamed(Bucket(live, i)[..0], name)
      ensures Bucket(live, i) == [] ==> NoneNamed(Bucket(live, i), name)
    {
    }

    lemma PrefixStep(i: nat, k: nat, name: JString)
      requires k < |Bucket(live, i)| && NoneNamed(Bucket(live, i)[..k], name)
      requires !SameName(name, Bucket(live, i)[k].key)
      ensures NoneNamed(Bucket(live, i)[..k + 1], name)
    {
      assert Bucket(live, i)[..k + 1] == Bucket(live, i)[..k] + [Bucket(live, i)[k]];
    }

    method AddHeader(name: JString, value: Option<JString>) returns (r: Outcome)
      requires Valid()
      modifies Repr
      ensures Valid() && fresh(Repr - old(Repr))
      ensures (Contents(), r) == Apply(validator, old(Contents()), Add(name, value))
    {
      if !validator.nameOk(name) || !validator.Accepts(value) {
        return Rejected;
      }
      var h := Hash(name);
      AddHeader0(h, BucketOf(h), name, value.value);
      return Done;
    }

    method RemoveHeader(name: JString)
      requires Valid()
      modifies Repr
      ensures Valid() && Repr == old(Repr)
      ensures (Contents(), Done) == Apply(validator, old(Contents()), Op.Remove(name))
    {
      var h := Hash(name);
      RemoveHeader0(h, BucketOf(h), name);
    }

    method SetHeader(name: JString, value: Option<JString>) returns (r: Outcome)
      requires Valid()
      modifies Repr
      ensures Valid() && fresh(Repr - old(Repr))
      ensures (Contents(), r) == Apply(validator, old(Contents()), Set(name, value))
    {
      if !validator.nameOk(name) || !validator.Accepts(value) {
        return Rejected;
      }
      var h := Hash(name);
      RemoveHeader0(h, BucketOf(h), name);
      AddHeader0(h, BucketOf(h), name, value.value);
      return Done;
    }

    method SetHeaderAll(name: JString, values: seq<Option<JString>>) returns (r: Outcome)
      requires Valid()
      modifies Repr
      ensures Valid() && fresh(Repr - old(Repr))
      ensures (Contents(), r) == Apply(validator, old(Contents()), SetMany(name, values))
    {
      if !validator.nameOk(name) {
        return Rejected;
      }
      var h := Hash(name);
      var i := BucketOf(h);
      RemoveHeader0(h, i, name);
      ghost var start := Contents();
      var k := 0;
      while k < |values|
        invariant 0 <= k <= |values|
        invariant Valid() && fresh(Repr - old(Repr))
        invariant AppendAll(validator, start, name, values)
               == AppendAll(validator, Contents(), name, values[k..])
      {
        if values[k].None? {
          return Done;
        }
        if !validator.Accepts(values[k]) {
          return Rejected;
        }
        AddHeader0(h, i, name, values[k].value);
        k := k + 1;
      }
      return Done;
    }

    method ClearHeaders()
      requires Valid()
      modifies Repr
      ensures Valid() && Repr == old(Repr)
      ensures (Contents(), Done) == Apply(validator, old(Contents()), Clear)
    {
      var i := 0;
      while i < entries.Length
        invariant 0 <= i <= entries.Length == BUCKET_SIZE
        invariant this in Repr && head in Repr && Repr == old(Repr) && entries in Repr
        invariant forall b :: 0 <= b < i ==> entries[b] == null
      {
        entries[i] := null;
        i := i + 1;
      }
      head.before, head.after := head, head;
      live := [];
    }

    /** What chain `i` holds under `name` from its `k`-th entry on, oldest first. */
    ghost function ValuesFrom(i: nat, k: nat, name: JString): seq<JString>
      requires Valid() && i < BUCKET_SIZE && k <= |Bucket(live, i)|
      reads this, Repr
    {
      ChainValues(Bucket(live, i)[k..], name)
    }

    lemma {:induction false} ValuesFromStart(name: JString)
      requires Valid()
      ensures BucketOf(HashOf(name)) < BUCKET_SIZE
      ensures ValuesFrom(BucketOf(HashOf(name)), 0, name) == ValuesOf(Contents(), name)
    {
      ChainValuesAreAll(live, name);
      assert Bucket(live, BucketOf(HashOf(name)))[0..] == Bucket(live, BucketOf(HashOf(name)));
    }

    lemma ValuesFromStep(i: nat, k: nat, name: JString)
      requires Valid() && i < BUCKET_SIZE && k < |Bucket(live, i)|
      ensures SameName(name, Bucket(live, i)[k].key)
          ==> ValuesFrom(i, k, name) == ValuesFrom(i, k + 1, name) + [Bucket(live, i)[k].value]
      ensures !SameName(name, Bucket(live, i)[k].key) ==> ValuesFrom(i, k, name) == ValuesFrom(i, k + 1, name)
    {
      assert Bucket(live, i)[k..][1..] == Bucket(live, i)[k + 1..];
    }

    lemma ValuesFromEnd(i: nat, name: JString)
      requires Valid() && i < BUCKET_SIZE
      ensures ValuesFrom(i, |Bucket(live, i)|, name) == []
    {
    }

    method GetHeader(name: JString) returns (r: Option<JString>)
      requires Valid()
      ensures r == LatestOf(Contents(), name)
    {
      hide *;
      var h := Hash(name);
      var i := BucketOf(h);
      ValuesFromStart(name);
      ChainHead(i);
      var e := entries[i];
      ghost var k := 0;
      while e != null
        invariant k <= |Bucket(live, i)| && e == if k < |Bucket(live, i)| then Bucket(live, i)[k] else null
        invariant ValuesFrom(i, k, name) == ValuesOf(Contents(), name)
        decreases |Bucket(live, i)| - k
      {
        ChainNode(i, k);
        ValuesFromStep(i, k, name);
        var matches := Matches(e, h, name);
        if matches {
          LatestIsLast(Contents(), name, ValuesFrom(i, k + 1, name), e.value);
          return Some(e.value);
        }
        e := e.next;
        k := k + 1;
      }
      ValuesFromEnd(i, name);
      NoLatest(Contents(), name);
      return None;
    }

    method GetHeaders(name: JString) returns (values: seq<JString>)
      requires Valid()
      ensures values == ValuesOf(Contents(), name)
    {
      hide *;
      values := [];
      var h := Hash(name);
      var i := BucketOf(h);
      ValuesFromStart(name);
      ChainHead(i);
      var e := entries[i];
      ghost var k := 0;
      while e != null
        invariant k <= |Bucket(live, i)| && e == if k < |Bucket(live, i)| then Bucket(live, i)[k] else null
        invariant ValuesFrom(i, k, name) + values == ValuesOf(Contents(), name)
        decreases |Bucket(live, i)| - k
      {
        ChainNode(i, k);
        ValuesFromStep(i, k, name);
        var matches := Matches(e, h, name);
        if matches {
          assert ValuesFrom(i, k + 1, name) + [e.value] + values == ValuesFrom(i, k + 1, name) + ([e.value] + values);
          values := [e.value] + values;
        }
        e := e.next;
        k := k + 1;
      }
      ValuesFromEnd(i, name);
    }

    method ContainsHeader(name: JString) returns (r: bool)
      requires Valid()
      ensures r <==> ValuesOf(Contents(), name) != []
    {
      var v := GetHeader(name);
      r := v.Some?;
    }

    /** All entries, in the order in which they were added. */
    method GetAllHeaders() returns (all: seq<HeaderEntry>)
      requires Valid()
      ensures all == live && View(all) == Contents()
    {
      all := [];
      ghost var ring := [head] + live + [head];
      assert ring[0].after == ring[1];
      var e := head.after;
      while e != head
        invariant |all| <= |live| && all == live[..|all|]
        invariant e == ring[|all| + 1]
        decreases |live| - |all|
      {
        assert ring[|all| + 1].after == ring[|all| + 2];
        assert live[..|all| + 1] == live[..|all|] + [live[|all|]];
        all := all + [e];
        e := e.after;
      }
      assert live[..|live|] == live;
    }

    /** Carries out a whole run of operations on the table. */
    method Perform(ops: seq<Op>)
      requires Valid()
      modifies Repr
      ensures Valid() && fresh(Repr - old(Repr))
      ensures Contents() == Run(validator, old(Contents()), ops)
    {
      var k := 0;
      while k < |ops|
        invariant 0 <= k <= |ops| && Valid() && fresh(Repr - old(Repr))
        invariant Run(validator, Contents(), ops[k..]) == Run(validator, old(Contents()), ops)
      {
        hide *;
        RunStep(validator, Contents(), ops, k);
        match ops[k] {
          case Add(n, x) => var _ := AddHeader(n, x);
          case Set(n, x) => var _ := SetHeader(n, x);
          case SetMany(n, xs) => var _ := SetHeaderAll(n, xs);
          case Remove(n) => RemoveHeader(n);
          case Clear => ClearHeaders();
        }
        k := k + 1;
      }
    }
  }

  /** The values of a newest-first chain under `name`, oldest first. */
  ghost function ChainValues(chain: seq<HeaderEntry>, name: JString): seq<JString>
    reads chain
  {
    if chain == [] then []
    else ChainValues(chain[1..], name) + if SameName(name, chain[0].key) then [chain[0].value] else []
  }

  /** The chain of a name's bucket holds every value recorded under that name. */
  lemma {:induction false} ChainValuesAreAll(live: seq<HeaderEntry>, name: JString)
    requires forall e :: e in live ==> e.hash == HashOf(e.key)
    ensures ChainValues(Bucket(live, BucketOf(HashOf(name))), name) == ValuesOf(View(live), name)
  {
    hide Bucket, View, SameName, ChainValues, ValuesOf, HashOf, BucketOf;
    var b := BucketOf(HashOf(name));
    NoneInBucket(b, name);
    if live != [] {
      var init, last := live[..|live| - 1], live[|live| - 1];
      ChainValuesAreAll(init, name);
      BucketStep(init, last, b);
      assert live == init + [last];
      ChainValuesStep(Bucket(init, b), last, name);
      ValuesStep(init, last, name);
    }
  }

  lemma NoneInBucket(b: int, name: JString)
    ensures ChainValues(Bucket([], b), name) == [] && ValuesOf(View([]), name) == []
  {
  }

  lemma BucketStep(init: seq<HeaderEntry>, last: HeaderEntry, b: int)
    ensures Bucket(init + [last], b) == if BucketOf(last.hash) == b then [last] + Bucket(init, b) else Bucket(init, b)
  {
    hide BucketOf;
    assert (init + [last])[..|init|] == init;
  }

  /** The newest entry adds its value to what the chain holds if it has the name; its bucket is the name's then. */
  lemma ChainValuesStep(older: seq<HeaderEntry>, last: HeaderEntry, name: JString)
    requires last.hash == HashOf(last.key)
    ensures ChainValues(if BucketOf(last.hash) == BucketOf(HashOf(name)) then [last] + older else older, name)
         == ChainValues(older, name) + if SameName(name, last.key) then [last.value] else []
  {
    hide HashOf, BucketOf, SameName;
    if SameName(name, last.key) {
      SameNameSameHash(name, last.key);
    }
    assert ([last] + older)[1..] == older;
    assert ChainValues(older, name) + [] == ChainValues(older, name);
  }

  lemma ValuesStep(init: seq<HeaderEntry>, last: HeaderEntry, name: JString)
    ensures ValuesOf(View(init + [last]), name)
         == ValuesOf(View(init), name) + if SameName(name, last.key) then [last.value] else []
  {
    hide SameName;
    var f := Field(last.key, last.value);
    assert View(init + [last]) == View(init) + [f];
    ValuesOfConcat(View(init), [f], name);
    assert [f][1..] == [];
  }

  lemma LatestIsLast(fs: Fields, name: JString, older: seq<JString>, v: JString)
    requires ValuesOf(fs, name) == older + [v]
    ensures LatestOf(fs, name) == Some(v)
  {
  }

  lemma NoLatest(fs: Fields, name: JString)
    requires ValuesOf(fs, name) == []
    ensures LatestOf(fs, name) == None
  {
  }

  lemma RunStep(v: Validator, fs: Fields, ops: seq<Op>, k: nat)
    requires k < |ops|
    ensures Run(v, fs, ops[k..]) == Run(v, Apply(v, fs, ops[k]).0, ops[k + 1..])
  {
    assert ops[k..][1..] == ops[k + 1..];
  }
}
