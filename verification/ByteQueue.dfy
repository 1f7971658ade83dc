/** A buffer as a queue of bytes: series of typed writes and reads in any order, and what is read back. */
module ByteQueue {
  import opened Bits
  import opened Common
  import opened ByteOrder

  /** The readable bytes, and how many bytes there are before and behind them. */
  datatype State = State(queue: seq<Octet>, gone: nat, room: nat)

  datatype Op =
    | Put(t: Typed, value: int)
    | PutBytes(bytes: seq<Octet>)
    | Take(t: Typed)
    | Skip(length: nat)
    | Discard
    | Clear

  /** What an operation writes, and how many bytes it takes from the front. */
  function BytesOf(op: Op): seq<Octet> {
    match op
    case Put(t, value) => Big(value, Width(t))
    case PutBytes(bytes) => bytes
    case _ => []
  }

  function Taken(op: Op): nat {
    match op
    case Take(t) => Width(t)
    case Skip(length) => length
    case _ => 0
  }

  /** The state after an operation, and the value read if it reads one; None where there is no room, or too little. */
  function After(q: State, op: Op): Option<(State, seq<int>)> {
    match op
    case Put(_, _) | PutBytes(_) =>
      var bytes := BytesOf(op);
      if |bytes| > q.room then None
      else Some((q.(queue := q.queue + bytes, room := q.room - |bytes|), []))
    case Take(t) =>
      var n := Width(t);
      if n > |q.queue| then None
      else Some((q.(queue := q.queue[n..], gone := q.gone + n), [Decode(t, q.queue[..n])]))
    case Skip(length) =>
      if length > |q.queue| then None
      else Some((q.(queue := q.queue[length..], gone := q.gone + length), []))
    case Discard => Some((q.(gone := 0, room := q.room + q.gone), []))
    case Clear => Some((State([], 0, q.room + q.gone + |q.queue|), []))
  }

  /** A whole run, with the values it reads; None if an operation of it cannot be done. */
  function Run(q: State, ops: seq<Op>): Option<(State, seq<int>)>
    decreases |ops|
  {
    if ops == [] then Some((q, []))
    else match After(q, ops[0])
      case None => None
      case Some((next, values)) =>
        match Run(next, ops[1..])
        case None => None
        case Some((last, more)) => Some((last, values + more))
  }

  // ---- first in, first out ------------------------------------------------------------------------------------------

  function AllPut(ops: seq<Op>): seq<Octet> {
    if ops == [] then [] else BytesOf(ops[0]) + AllPut(ops[1..])
  }

  function AllTaken(ops: seq<Op>): nat {
    if ops == [] then 0 else Taken(ops[0]) + AllTaken(ops[1..])
  }

  lemma StepFromFront(q: State, op: Op)
    requires After(q, op).Some? && op != Clear
    ensures Taken(op) <= |q.queue + BytesOf(op)|
    ensures After(q, op).value.0.queue == (q.queue + BytesOf(op))[Taken(op)..]
  {
    hide Big, Decode, Width;
    assert q.queue + [] == q.queue;
  }

  lemma FrontTwice(s: seq<Octet>, n: nat, more: seq<Octet>, k: nat)
    requires n <= |s| && k <= |s[n..] + more|
    ensures (s[n..] + more)[k..] == (s + more)[n + k..]
  {
  }

  /**
   * However writes, reads, skips and removals of what has been read follow each other: what is left are the bytes that
   * were there and those written, in this order, without as many from the front as were taken.
   */
  lemma {:induction false} FirstInFirstOut(q: State, ops: seq<Op>)
    requires Run(q, ops).Some? && Clear !in ops
    ensures AllTaken(ops) <= |q.queue + AllPut(ops)|
    ensures Run(q, ops).value.0.queue == (q.queue + AllPut(ops))[AllTaken(ops)..]
    decreases |ops|
  {
    hide After, BytesOf, Taken;
    if ops == [] {
      assert q.queue + [] == q.queue;
    } else {
      var op, next := ops[0], After(q, ops[0]).value.0;
      assert Clear !in ops[1..];
      StepFromFront(q, op);
      FirstInFirstOut(next, ops[1..]);
      var s, more := q.queue + BytesOf(op), AllPut(ops[1..]);
      assert q.queue + AllPut(ops) == s + more;
      FrontTwice(s, Taken(op), more, AllTaken(ops[1..]));
    }
  }

  /** No operation loses room: the bytes before, in and behind the queue are always as many as the buffer has. */
  lemma {:induction false} RoomIsKept(q: State, ops: seq<Op>)
    requires Run(q, ops).Some?
    ensures var r := Run(q, ops).value.0; r.gone + |r.queue| + r.room == q.gone + |q.queue| + q.room
    decreases |ops|
  {
    hide Decode;
    if ops != [] {
      RoomIsKept(After(q, ops[0]).value.0, ops[1..]);
    }
  }

  // ---- typed values -------------------------------------------------------------------------------------------------

  /** The values in the queue, oldest first, after an operation that reads the type written, and the value read. */
  function AfterItems(items: seq<(Typed, int)>, op: Op): Option<(seq<(Typed, int)>, seq<int>)> {
    match op
    case Put(t, value) => Some((items + [(t, value)], []))
    case Take(t) => if items != [] && items[0].0 == t then Some((items[1..], [Narrow(t, items[0].1)])) else None
    case Discard => Some((items, []))
    case Clear => Some(([], []))
    case PutBytes(_) | Skip(_) => None
  }

  function RunItems(items: seq<(Typed, int)>, ops: seq<Op>): Option<(seq<(Typed, int)>, seq<int>)>
    decreases |ops|
  {
    if ops == [] then Some((items, []))
    else match AfterItems(items, ops[0])
      case None => None
      case Some((next, values)) =>
        match RunItems(next, ops[1..])
        case None => None
        case Some((last, more)) => Some((last, values + more))
  }

  lemma {:induction false} WrittenSnoc(items: seq<(Typed, int)>, t: Typed, value: int)
    ensures Written(items + [(t, value)]) == Written(items) + Big(value, Width(t))
  {
    hide Big, Width;
    var all := items + [(t, value)];
    if items == [] {
      assert all[1..] == [] && Written([]) == [];
      assert Big(value, Width(t)) + [] == Big(value, Width(t)) == [] + Big(value, Width(t));
    } else {
      assert all[1..] == items[1..] + [(t, value)];
      WrittenSnoc(items[1..], t, value);
    }
  }

  lemma ItemsStep(q: State, items: seq<(Typed, int)>, op: Op)
    requires q.queue == Written(items) && AfterItems(items, op).Some?
    ensures After(q, op).None? <==> op.Put? && Width(op.t) > q.room
    ensures After(q, op).Some? ==>
              && After(q, op).value.0.queue == Written(AfterItems(items, op).value.0)
              && After(q, op).value.1 == AfterItems(items, op).value.1
  {
    hide Big, Decode, Narrow;
    match op
    case Put(t, value) => WrittenSnoc(items, t, value);
    case Take(t) =>
      var first := items[0].1;
      DecodeOfBig(t, first);
      assert q.queue[..Width(t)] == Big(first, Width(t)) && q.queue[Width(t)..] == Written(items[1..]);
    case _ =>
  }

  /**
   * Where every read asks for the type that the oldest value was written in, the values read are those written, oldest
   * first, each as its type holds it, however writes, reads and removals are interleaved.
   */
  lemma {:induction false} InterleavedReadsBack(q: State, items: seq<(Typed, int)>, ops: seq<Op>)
    requires q.queue == Written(items) && RunItems(items, ops).Some? && Run(q, ops).Some?
    ensures Run(q, ops).value.0.queue == Written(RunItems(items, ops).value.0)
    ensures Run(q, ops).value.1 == RunItems(items, ops).value.1
    decreases |ops|
  {
    hide After, AfterItems, Written;
    if ops != [] {
      ItemsStep(q, items, ops[0]);
      InterleavedReadsBack(After(q, ops[0]).value.0, AfterItems(items, ops[0]).value.0, ops[1..]);
    }
  }
}
