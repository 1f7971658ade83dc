/** AbstractChannelBuffer over a byte array, most significant byte first: a queue of bytes between two indices. */
module ChannelBuffer {
  import opened Bits
  import opened JavaText
  import opened ByteOrder
  import ByteQueue
  import opened Common

  /** What happened to a call: done, or one of the two exceptions. */
  datatype Outcome = Done | OutOfBounds | IllegalArgument

  function Max(a: int, b: int): int {
    if a >= b then a else b
  }

  class Buffer {
    const data: array<Octet>
    var readerIndex: int
    var writerIndex: int
    var markedReaderIndex: int
    var markedWriterIndex: int

    predicate Valid()
      reads this
    {
      && 0 <= readerIndex <= writerIndex <= data.Length <= MAX_INT
      && 0 <= markedReaderIndex <= data.Length && 0 <= markedWriterIndex <= data.Length
    }

    /** The readable bytes. */
    ghost function Queue(): seq<Octet>
      requires 0 <= readerIndex <= writerIndex <= data.Length
      reads this, data
    {
      data[readerIndex..writerIndex]
    }

    constructor (capacity: nat)
      requires capacity <= MAX_INT
      ensures Valid() && Queue() == [] && data.Length == capacity && fresh(data)
    {
      data := new Octet[capacity];
      readerIndex, writerIndex, markedReaderIndex, markedWriterIndex := 0, 0, 0, 0;
    }

    // ---- the indices ------------------------------------------------------------------------------------------------

    method SetReaderIndex(index: JInt) returns (r: Outcome)
      requires Valid()
      modifies this`readerIndex
      ensures Valid() && (r == Done <==> 0 <= index <= writerIndex)
      ensures readerIndex == (if r == Done then index else old(readerIndex))
    {
      if index < 0 || index > writerIndex {
        return OutOfBounds;
      }
      readerIndex := index;
      return Done;
    }

    method SetWriterIndex(index: JInt) returns (r: Outcome)
      requires Valid()
      modifies this`writerIndex
      ensures Valid() && (r == Done <==> readerIndex <= index <= data.Length)
      ensures writerIndex == (if r == Done then index else old(writerIndex))
    {
      if index < readerIndex || index > data.Length {
        return OutOfBounds;
      }
      writerIndex := index;
      return Done;
    }

    method SetIndex(reader: JInt, writer: JInt) returns (r: Outcome)
      requires Valid()
      modifies this`readerIndex, this`writerIndex
      ensures Valid() && (r == Done <==> 0 <= reader <= writer <= data.Length)
      ensures (readerIndex, writerIndex) == if r == Done then (reader, writer) else (old(readerIndex), old(writerIndex))
    {
      if reader < 0 || reader > writer || writer > data.Length {
        return OutOfBounds;
      }
      readerIndex, writerIndex := reader, writer;
      return Done;
    }

    method Clear()
      requires Valid()
      modifies this`readerIndex, this`writerIndex
      ensures Valid() && Queue() == [] && readerIndex == 0 && writerIndex == 0
    {
      readerIndex, writerIndex := 0, 0;
    }

    method MarkReaderIndex()
      requires Valid()
      modifies this`markedReaderIndex
      ensures Valid() && markedReaderIndex == readerIndex
    {
      markedReaderIndex := readerIndex;
    }

    method ResetReaderIndex() returns (r: Outcome)
      requires Valid()
      modifies this`readerIndex
      ensures Valid() && (r == Done <==> markedReaderIndex <= writerIndex)
      ensures readerIndex == (if r == Done then markedReaderIndex else old(readerIndex))
    {
      r := SetReaderIndex(markedReaderIndex);
    }

    method MarkWriterIndex()
      requires Valid()
      modifies this`markedWriterIndex
      ensures Valid() && markedWriterIndex == writerIndex
    {
      markedWriterIndex := writerIndex;
    }

    /** Nothing is checked here: the indices stay in order exactly if nothing behind the mark has been read. */
    method ResetWriterIndex()
      requires Valid()
      modifies this`writerIndex
      ensures writerIndex == markedWriterIndex
      ensures Valid() <==> readerIndex <= markedWriterIndex
      ensures Valid() && markedWriterIndex <= old(writerIndex) ==>
                Queue() == old(Queue())[..markedWriterIndex - readerIndex]
    {
      writerIndex := markedWriterIndex;
    }

    // ---- discardReadBytes -------------------------------------------------------------------------------------------

    /** Copies within the array, from `from` down to the beginning; the two stretches may overlap. */
    method MoveDown(from: nat, length: nat)
      requires from + length <= data.Length
      modifies data
      ensures data[..length] == old(data[from..from + length])
    {
      for i := 0 to length
        invariant data[..i] == old(data[from..from + i])
        invariant forall k :: i <= k < data.Length ==> data[k] == old(data[k])
      {
        data[i] := data[from + i];
      }
    }

    /** The readable bytes move to the front; the marks move with them, and stop at 0. */
    method DiscardReadBytes()
      requires Valid()
      modifies this, data
      ensures Valid() && Queue() == old(Queue()) && readerIndex == 0 && writerIndex == |old(Queue())|
      ensures markedReaderIndex == Max(old(markedReaderIndex) - old(readerIndex), 0)
      ensures markedWriterIndex == Max(old(markedWriterIndex) - old(readerIndex), 0)
    {
      if readerIndex == 0 {
        return;
      }
      MoveDown(readerIndex, writerIndex - readerIndex);
      writerIndex := writerIndex - readerIndex;
      markedReaderIndex := Max(markedReaderIndex - readerIndex, 0);
      markedWriterIndex := Max(markedWriterIndex - readerIndex, 0);
      readerIndex := 0;
    }

    // ---- writing ----------------------------------------------------------------------------------------------------

    /**
     * `setByte`, `setShort`, `setMedium`, `setInt`, `setLong`: bytes in front of an index out of bounds are written.
     */
    method SetBig(index: int, width: nat, value: int) returns (r: Outcome)
      requires index >= 0
      modifies data
      ensures r == (if index + width <= data.Length then Done else OutOfBounds)
      ensures r == Done ==> data[..] == old(data[..index]) + Big(value, width) + old(data[index + width..])
      ensures index <= data.Length ==> data[..index] == old(data[..index])
    {
      var bytes := Big(value, width);
      for k := 0 to width
        invariant k == 0 || index + k <= data.Length
        invariant forall j :: 0 <= j < k ==> data[index + j] == bytes[j]
        invariant forall j :: 0 <= j < data.Length && (j < index || j >= index + k) ==> data[j] == old(data[j])
      {
        if index + k >= data.Length {
          return OutOfBounds;
        }
        data[index + k] := bytes[k];
      }
      if index + width > data.Length {
        return OutOfBounds;
      }
      assert data[..] == old(data[..index]) + bytes + old(data[index + width..]);
      return Done;
    }

    /**
     * The writer index moves before the byte is set. On a full buffer the exception leaves it one behind the end, so
     * the indices stay in order exactly if there was room.
     */
    method WriteByte(value: JInt) returns (r: Outcome)
      requires Valid()
      modifies this`writerIndex, data
      ensures r == (if old(writerIndex) < data.Length then Done else OutOfBounds)
      ensures writerIndex == old(writerIndex) + 1 && (Valid() <==> r == Done)
      ensures r == Done ==> Queue() == old(Queue()) + Big(value, 1)
      ensures data[..old(writerIndex)] == old(data[..writerIndex])
    {
      ghost var was := data[..];
      var index := writerIndex;
      writerIndex := writerIndex + 1;
      r := SetBig(index, 1, value);
      if r == Done {
        Appended(was, data[..], readerIndex, writerIndex - 1, Big(value, 1));
      }
    }

    method WriteShort(value: JInt) returns (r: Outcome)
      requires Valid()
      modifies this`writerIndex, data
      ensures r == (if old(writerIndex) + 2 <= data.Length then Done else OutOfBounds)
      ensures Valid() && Queue() == if r == Done then old(Queue()) + Big(value, 2) else old(Queue())
    {
      ghost var was := data[..];
      r := SetBig(writerIndex, 2, value);
      if r == Done {
        writerIndex := writerIndex + 2;
        Appended(was, data[..], readerIndex, writerIndex - 2, Big(value, 2));
      } else {
        assert data[..writerIndex][readerIndex..] == Queue();
      }
    }

    method WriteMedium(value: JInt) returns (r: Outcome)
      requires Valid()
      modifies this`writerIndex, data
      ensures r == (if old(writerIndex) + 3 <= data.Length then Done else OutOfBounds)
      ensures Valid() && Queue() == if r == Done then old(Queue()) + Big(value, 3) else old(Queue())
    {
      ghost var was := data[..];
      r := SetBig(writerIndex, 3, value);
      if r == Done {
        writerIndex := writerIndex + 3;
        Appended(was, data[..], readerIndex, writerIndex - 3, Big(value, 3));
      } else {
        assert data[..writerIndex][readerIndex..] == Queue();
      }
    }

    method WriteInt(value: JInt) returns (r: Outcome)
      requires Valid()
      modifies this`writerIndex, data
      ensures r == (if old(writerIndex) + 4 <= data.Length then Done else OutOfBounds)
      ensures Valid() && Queue() == if r == Done then old(Queue()) + Big(value, 4) else old(Queue())
      ensures writerIndex == old(writerIndex) + (if r == Done then 4 else 0)
    {
      ghost var was := data[..];
      r := SetBig(writerIndex, 4, value);
      if r == Done {
        writerIndex := writerIndex + 4;
        Appended(was, data[..], readerIndex, writerIndex - 4, Big(value, 4));
      } else {
        assert data[..writerIndex][readerIndex..] == Queue();
      }
    }

    method WriteLong(value: JLong) returns (r: Outcome)
      requires Valid()
      modifies this`writerIndex, data
      ensures r == (if old(writerIndex) + 8 <= data.Length then Done else OutOfBounds)
      ensures Valid() && Queue() == if r == Done then old(Queue()) + Big(value, 8) else old(Queue())
      ensures writerIndex == old(writerIndex) + (if r == Done then 8 else 0)
    {
      ghost var was := data[..];
      r := SetBig(writerIndex, 8, value);
      if r == Done {
        writerIndex := writerIndex + 8;
        Appended(was, data[..], readerIndex, writerIndex - 8, Big(value, 8));
      } else {
        assert data[..writerIndex][readerIndex..] == Queue();
      }
    }

    /** `writeBytes(byte[] src, int srcIndex, int length)`; nothing is copied if either stretch is out of bounds. */
    method WriteBytes(src: seq<Octet>, srcIndex: JInt, length: JInt) returns (r: Outcome)
      requires Valid()
      modifies this`writerIndex, data
      ensures r == Done <==> (&& 0 <= srcIndex && 0 <= length && srcIndex + length <= |src|
                              && old(writerIndex) + length <= data.Length)
      ensures Valid() && Queue() == if r == Done then old(Queue()) + src[srcIndex..srcIndex + length] else old(Queue())
    {
      if srcIndex < 0 || length < 0 || srcIndex + length > |src| || writerIndex + length > data.Length {
        return OutOfBounds;
      }
      ghost var bytes := src[srcIndex..srcIndex + length];
      for i := 0 to length
        invariant Valid() && writerIndex == old(writerIndex)
        invariant data[..writerIndex] == old(data[..writerIndex])
        invariant forall k :: 0 <= k < i ==> data[writerIndex + k] == bytes[k]
      {
        data[writerIndex + i] := src[srcIndex + i];
      }
      assert data[writerIndex..writerIndex + length] == bytes;
      assert data[readerIndex..writerIndex + length]
          == data[..writerIndex][readerIndex..] + data[writerIndex..writerIndex + length];
      writerIndex := writerIndex + length;
      return Done;
    }

    // ---- reading ----------------------------------------------------------------------------------------------------

    predicate Readable(length: JInt)
      reads this
    {
      writerIndex - readerIndex >= length
    }

    /** `getByte`, `getUnsignedMedium` and so on, before the sign. */
    method GetBig(index: nat, width: nat) returns (n: nat)
      requires index + width <= data.Length
      ensures n == FromBig(data[index..index + width])
    {
      n := FromBig(data[index..index + width]);
    }

    /** The first bytes leave the queue. */
    method Take(width: nat) returns (n: nat)
      requires Valid() && writerIndex - readerIndex >= width
      modifies this`readerIndex
      ensures Valid() && readerIndex == old(readerIndex) + width
      ensures n == FromBig(old(Queue())[..width]) && Queue() == old(Queue())[width..]
    {
      n := GetBig(readerIndex, width);
      assert Queue()[..width] == data[readerIndex..readerIndex + width];
      readerIndex := readerIndex + width;
    }

    method ReadByte() returns (r: Outcome, v: JInt)
      requires Valid()
      modifies this`readerIndex
      ensures Valid() && (r == Done <==> |old(Queue())| >= 1)
      ensures if r == Done then v == Decode(Byte, old(Queue())[..1]) && Queue() == old(Queue())[1..]
              else Queue() == old(Queue())
    {
      hide FromBig;
      if readerIndex == writerIndex {
        return OutOfBounds, 0;
      }
      Pow256Values();
      var n := Take(1);
      return Done, Signed(n, 1);
    }

    method ReadUnsignedByte() returns (r: Outcome, v: JInt)
      requires Valid()
      modifies this`readerIndex
      ensures Valid() && (r == Done <==> |old(Queue())| >= 1)
      ensures if r == Done then v == Decode(UnsignedByte, old(Queue())[..1]) && Queue() == old(Queue())[1..]
              else Queue() == old(Queue())
    {
      hide FromBig, Signed, IntOp;
      r, v := ReadByte();
      if r == Done {
        Pow256Values();
        MaskUnsigns(FromBig(old(Queue())[..1]), 1);
        v := IntOp(AND, v, 0xFF);
      }
    }

    method ReadShort() returns (r: Outcome, v: JInt)
      requires Valid()
      modifies this`readerIndex
      ensures Valid() && (r == Done <==> |old(Queue())| >= 2)
      ensures if r == Done then v == Decode(Short, old(Queue())[..2]) && Queue() == old(Queue())[2..]
              else Queue() == old(Queue())
    {
      hide FromBig;
      if !Readable(2) {
        return OutOfBounds, 0;
      }
      Pow256Values();
      var n := Take(2);
      return Done, Signed(n, 2);
    }

    method ReadUnsignedShort() returns (r: Outcome, v: JInt)
      requires Valid()
      modifies this`readerIndex
      ensures Valid() && (r == Done <==> |old(Queue())| >= 2)
      ensures if r == Done then v == Decode(UnsignedShort, old(Queue())[..2]) && Queue() == old(Queue())[2..]
              else Queue() == old(Queue())
    {
      hide FromBig, Signed, IntOp;
      r, v := ReadShort();
      if r == Done {
        Pow256Values();
        MaskUnsigns(FromBig(old(Queue())[..2]), 2);
        v := IntOp(AND, v, 0xFFFF);
      }
    }

    method ReadUnsignedMedium() returns (r: Outcome, v: JInt)
      requires Valid()
      modifies this`readerIndex
      ensures Valid() && (r == Done <==> |old(Queue())| >= 3)
      ensures if r == Done then v == Decode(UnsignedMedium, old(Queue())[..3]) && Queue() == old(Queue())[3..]
              else Queue() == old(Queue())
    {
      hide FromBig;
      if !Readable(3) {
        return OutOfBounds, 0;
      }
      Pow256Values();
      var n := Take(3);
      return Done, n;
    }

    method ReadMedium() returns (r: Outcome, v: JInt)
      requires Valid()
      modifies this`readerIndex
      ensures Valid() && (r == Done <==> |old(Queue())| >= 3)
      ensures if r == Done then v == Decode(Medium, old(Queue())[..3]) && Queue() == old(Queue())[3..]
              else Queue() == old(Queue())
    {
      hide FromBig, IntOp;
      r, v := ReadUnsignedMedium();
      if r == Done {
        Pow256Values();
        SignBit(v);
        if IntOp(AND, v, 0x80_0000) != 0 {
          ExtendSign(v);
          v := IntOp(OR, v, -0x100_0000);
        }
      }
    }

    method ReadInt() returns (r: Outcome, v: JInt)
      requires Valid()
      modifies this`readerIndex
      ensures Valid() && (r == Done <==> |old(Queue())| >= 4)
      ensures if r == Done then v == Decode(Int, old(Queue())[..4]) && Queue() == old(Queue())[4..]
              else Queue() == old(Queue())
    {
      hide FromBig;
      if !Readable(4) {
        return OutOfBounds, 0;
      }
      Pow256Values();
      var n := Take(4);
      return Done, Signed(n, 4);
    }

    method ReadUnsignedInt() returns (r: Outcome, v: JLong)
      requires Valid()
      modifies this`readerIndex
      ensures Valid() && (r == Done <==> |old(Queue())| >= 4)
      ensures if r == Done then v == Decode(UnsignedInt, old(Queue())[..4]) && Queue() == old(Queue())[4..]
              else Queue() == old(Queue())
    {
      hide FromBig, LongOp;
      var i;
      r, i := ReadInt();
      v := i;
      if r == Done {
        Pow256Values();
        MaskUnsignsInt(FromBig(old(Queue())[..4]));
        v := LongOp(AND, i, 0xFFFF_FFFF);
      }
    }

    method ReadLong() returns (r: Outcome, v: JLong)
      requires Valid()
      modifies this`readerIndex
      ensures Valid() && (r == Done <==> |old(Queue())| >= 8)
      ensures if r == Done then v == Decode(Long, old(Queue())[..8]) && Queue() == old(Queue())[8..]
              else Queue() == old(Queue())
    {
      hide FromBig;
      if !Readable(8) {
        return OutOfBounds, 0;
      }
      Pow256Values();
      var n := Take(8);
      return Done, Signed(n, 8);
    }

    /**
     * `readBytes(byte[] dst, int dstIndex, int length)`. The array may be the buffer's own: the bytes are copied as if
     * they had been taken out first.
     */
    method ReadBytes(dst: array<Octet>, dstIndex: JInt, length: JInt) returns (r: Outcome)
      requires Valid()
      modifies this`readerIndex, dst
      ensures Valid()
      ensures r == Done <==> 0 <= dstIndex && 0 <= length <= |old(Queue())| && dstIndex + length <= dst.Length
      ensures r == Done ==>
                && readerIndex == old(readerIndex) + length
                && dst[..] == old(dst[..dstIndex]) + old(Queue())[..length] + old(dst[dstIndex + length..])
                && (dst != data ==> Queue() == old(Queue())[length..])
      ensures r != Done ==> Queue() == old(Queue()) && dst[..] == old(dst[..])
    {
      if !Readable(length) || length < 0 || dstIndex < 0 || dstIndex + length > dst.Length {
        return OutOfBounds;
      }
      Copy(data[readerIndex..readerIndex + length], dst, dstIndex);
      readerIndex := readerIndex + length;
      return Done;
    }

    /** `System.arraycopy`: as if the bytes were taken out first, so that source and destination may be one array. */
    static method Copy(bytes: seq<Octet>, dst: array<Octet>, at: nat)
      requires at + |bytes| <= dst.Length
      modifies dst
      ensures dst[..] == old(dst[..at]) + bytes + old(dst[at + |bytes|..])
    {
      for i := 0 to |bytes|
        invariant dst[..] == old(dst[..at]) + bytes[..i] + old(dst[at + i..])
      {
        dst[at + i] := bytes[i];
      }
    }

    /**
     * The sum is an `int`, and only its upper bound is checked. The first bytes leave the queue exactly if the length
     * is that of some; the indices stay in order exactly if it is neither below minus the reader index nor so large
     * that the sum wraps around.
     */
    method SkipBytes(length: JInt) returns (r: Outcome)
      requires Valid()
      modifies this`readerIndex
      ensures r == (if Wrap32(old(readerIndex) + length) <= writerIndex then Done else OutOfBounds)
      ensures readerIndex == (if r == Done then Wrap32(old(readerIndex) + length) else old(readerIndex))
      ensures Valid() <==> -old(readerIndex) <= length <= MAX_INT - old(readerIndex)
      ensures 0 <= length <= |old(Queue())| <==> r == Done && Valid() && readerIndex >= old(readerIndex)
      ensures 0 <= length <= |old(Queue())| ==> Queue() == old(Queue())[length..]
    {
      var newReaderIndex := Wrap32(readerIndex + length);
      if newReaderIndex > writerIndex {
        return OutOfBounds;
      }
      readerIndex := newReaderIndex;
      return Done;
    }

    // ---- zeros ------------------------------------------------------------------------------------------------------

    /**
     * `writeZero`: longs, then what is left in an int and single bytes. Where the zeros do not fit, those written
     * before the exception stay written, and a single byte leaves the writer index behind the end.
     */
    method WriteZero(length: JInt) returns (r: Outcome)
      requires Valid()
      modifies this`writerIndex, data
      ensures var room := data.Length - old(writerIndex);
              && r == (if length < 0 then IllegalArgument else if length <= room then Done else OutOfBounds)
              && (r == OutOfBounds ==>
                    var n := ZerosWritten(length, room);
                    && writerIndex == old(writerIndex) + n && (Valid() <==> n <= room)
                    && (n <= room ==> Queue() == old(Queue()) + Zeros(n)))
      ensures r == Done ==> Valid() && Queue() == old(Queue()) + Zeros(length)
      ensures r == IllegalArgument ==> Valid() && Queue() == old(Queue())
    {
      hide Big, IntOp;
      if length == 0 {
        assert old(Queue()) + Zeros(0) == old(Queue());
        return Done;
      }
      if length < 0 {
        return IllegalArgument;
      }
      var nLong, nBytes := length / 8, IntOp(AND, length, 7);
      LowThree(length);
      r := WriteZeroLongs(nLong);
      if r != Done {
        return;
      }
      r := WriteZeroRest(nBytes);
      assert Zeros(8 * nLong) + Zeros(nBytes) == Zeros(length);
    }

    /** What is left after the longs: an int if there are four bytes or more, then single bytes. */
    method WriteZeroRest(n: nat) returns (r: Outcome)
      requires Valid() && n < 8
      modifies this`writerIndex, data
      ensures r == (if n <= data.Length - old(writerIndex) then Done else OutOfBounds)
      ensures r == Done ==> Valid() && Queue() == old(Queue()) + Zeros(n)
      ensures r != Done ==>
                if n >= 4 > data.Length - old(writerIndex) then
                  Valid() && writerIndex == old(writerIndex) && Queue() == old(Queue())
                else writerIndex == data.Length + 1
    {
      hide Big;
      var nBytes := n;
      if nBytes >= 4 {
        ZeroBytes();
        r := WriteInt(0);
        if r != Done {
          return;
        }
        nBytes := nBytes - 4;
        assert Zeros(4) + Zeros(nBytes) == Zeros(n);
      }
      r := WriteZeroBytes(nBytes);
    }

    /** The loop over the longs. */
    method WriteZeroLongs(n: nat) returns (r: Outcome)
      requires Valid()
      modifies this`writerIndex, data
      ensures Valid()
      ensures var room := data.Length - old(writerIndex);
              var k := if 8 * n <= room then n else room / 8;
              && r == (if 8 * n <= room then Done else OutOfBounds)
              && writerIndex == old(writerIndex) + 8 * k && Queue() == old(Queue()) + Zeros(8 * k)
    {
      hide Big;
      ZeroBytes();
      var i := n;
      assert old(Queue()) + Zeros(0) == old(Queue());
      while i > 0
        invariant 0 <= i <= n && Valid() && writerIndex == old(writerIndex) + 8 * (n - i)
        invariant Queue() == old(Queue()) + Zeros(8 * (n - i))
      {
        r := WriteLong(0);
        if r != Done {
          return;
        }
        i := i - 1;
        assert old(Queue()) + Zeros(8 * (n - i)) == old(Queue()) + Zeros(8 * (n - i - 1)) + Zeros(8);
      }
      r := Done;
    }

    /** The loop over the last bytes. */
    method WriteZeroBytes(n: nat) returns (r: Outcome)
      requires Valid()
      modifies this`writerIndex, data
      ensures r == (if n <= data.Length - old(writerIndex) then Done else OutOfBounds)
      ensures r == Done ==> Valid() && Queue() == old(Queue()) + Zeros(n)
      ensures r != Done ==> writerIndex == data.Length + 1
    {
      hide Big;
      ZeroBytes();
      var i := n;
      assert old(Queue()) + Zeros(0) == old(Queue());
      while i > 0
        invariant 0 <= i <= n && Valid() && writerIndex == old(writerIndex) + n - i
        invariant Queue() == old(Queue()) + Zeros(n - i)
      {
        r := WriteByte(0);
        if r != Done {
          return;
        }
        i := i - 1;
        assert old(Queue()) + Zeros(n - i) == old(Queue()) + Zeros(n - i - 1) + Zeros(1);
      }
      r := Done;
    }

    // ---- series of typed writes and reads ---------------------------------------------------------------------------

    method Write(t: Typed, value: JLong) returns (r: Outcome)
      requires Valid() && Takes(t, value)
      modifies this`writerIndex, data
      ensures r == (if old(writerIndex) + Width(t) <= data.Length then Done else OutOfBounds)
      ensures r == Done ==> Valid() && writerIndex == old(writerIndex) + Width(t)
      ensures r == Done ==> Queue() == old(Queue()) + Big(value, Width(t))
    {
      hide Big;
      match t
      case Byte | UnsignedByte => r := WriteByte(value);
      case Short | UnsignedShort => r := WriteShort(value);
      case Medium | UnsignedMedium => r := WriteMedium(value);
      case Int | UnsignedInt => r := WriteInt(value);
      case Long => r := WriteLong(value);
    }

    method Read(t: Typed) returns (r: Outcome, v: int)
      requires Valid()
      modifies this`readerIndex
      ensures Valid() && (r == Done <==> |old(Queue())| >= Width(t))
      ensures r == Done ==> v == Decode(t, old(Queue())[..Width(t)]) && Queue() == old(Queue())[Width(t)..]
    {
      hide Decode;
      match t
      case Byte => r, v := ReadByte();
      case UnsignedByte => r, v := ReadUnsignedByte();
      case Short => r, v := ReadShort();
      case UnsignedShort => r, v := ReadUnsignedShort();
      case Medium => r, v := ReadMedium();
      case UnsignedMedium => r, v := ReadUnsignedMedium();
      case Int => r, v := ReadInt();
      case UnsignedInt => r, v := ReadUnsignedInt();
      case Long => r, v := ReadLong();
    }

    method WriteSeries(items: seq<(Typed, int)>) returns (r: Outcome)
      requires Valid() && forall i :: 0 <= i < |items| ==> Takes(items[i].0, items[i].1)
      modifies this`writerIndex, data
      ensures r == (if old(writerIndex) + |Written(items)| <= data.Length then Done else OutOfBounds)
      ensures r == Done ==> Valid() && Queue() == old(Queue()) + Written(items)
      decreases |items|
    {
      hide Big;
      if items == [] {
        assert old(Queue()) + [] == old(Queue());
        return Done;
      }
      r := Write(items[0].0, items[0].1);
      if r == Done {
        ghost var first := Queue();
        r := WriteSeries(items[1..]);
        assert first + Written(items[1..]) == old(Queue()) + Written(items);
      }
    }

    method ReadSeries(types: seq<Typed>) returns (values: seq<int>)
      requires Valid() && |Queue()| >= TotalWidth(types)
      modifies this`readerIndex
      ensures Valid() && (values, Queue()) == ReadAll(types, old(Queue()))
      decreases |types|
    {
      hide Decode;
      if types == [] {
        return [];
      }
      var r, v := Read(types[0]);
      var rest := ReadSeries(types[1..]);
      return [v] + rest;
    }

    /**
     * What is written in any types to a buffer with room for it is read back in the same types, and all of it, once
     * what was readable before is skipped.
     */
    method WriteAndRead(items: seq<(Typed, int)>) returns (r: Outcome, values: seq<int>)
      requires Valid() && forall i :: 0 <= i < |items| ==> Takes(items[i].0, items[i].1)
      modifies this`readerIndex, this`writerIndex, data
      ensures r == (if |Written(items)| <= data.Length - old(writerIndex) then Done else OutOfBounds)
      ensures r == Done ==> Valid() && values == ValuesOf(items) && Queue() == []
    {
      values := [];
      var before := writerIndex - readerIndex;
      r := WriteSeries(items);
      if r == Done {
        hide Written, ReadAll;
        r := SkipBytes(before);
        assert Queue() == Written(items) && Written(items) + [] == Written(items);
        ReadsBack(items, []);
        values := ReadSeries(TypesOf(items));
      }
    }

    // ---- any series of operations -----------------------------------------------------------------------------------

    ghost function State(): ByteQueue.State
      requires 0 <= readerIndex <= writerIndex <= data.Length
      reads this, data
    {
      ByteQueue.State(Queue(), readerIndex, data.Length - writerIndex)
    }

    /**
     * One operation, and the value it reads if it reads one. Where the queue has no such step it throws; only a skip
     * so long that the sum wraps around breaks the order of the indices instead.
     */
    method Operate(op: ByteQueue.Op) returns (r: Outcome, values: seq<int>)
      requires Valid() && Possible(op)
      modifies this, data
      ensures match ByteQueue.After(old(State()), op)
              case Some((q, vs)) => r == Done && Valid() && State() == q && values == vs
              case None => r != Done || !Valid()
    {
      hide Big, Decode;
      values := [];
      match op
      case Put(t, value) => r := Write(t, value);
      case PutBytes(bytes) =>
        r := WriteBytes(bytes, 0, |bytes|);
        assert bytes[0..0 + |bytes|] == bytes;
      case Take(t) =>
        var v;
        r, v := Read(t);
        values := if r == Done then [v] else [];
      case Skip(length) => r := SkipBytes(length);
      case Discard =>
        DiscardReadBytes();
        r := Done;
      case Clear =>
        Clear();
        r := Done;
    }

    /** Any series of operations, up to the first that the queue has no step for, refines the queue of bytes. */
    method Perform(ops: seq<ByteQueue.Op>) returns (r: Outcome, values: seq<int>)
      requires Valid() && forall i :: 0 <= i < |ops| ==> Possible(ops[i])
      modifies this, data
      ensures match ByteQueue.Run(old(State()), ops)
              case Some((q, vs)) => r == Done && Valid() && State() == q && values == vs
              case None => r != Done || !Valid()
      decreases |ops|
    {
      hide ByteQueue.After, Possible;
      if ops == [] {
        return Done, [];
      }
      r, values := Operate(ops[0]);
      if r == Done && Valid() {
        var more;
        r, more := Perform(ops[1..]);
        values := values + more;
      }
    }
  }

  /** The parameter of a write is an `int`, for a long a `long`. */
  predicate Takes(t: Typed, value: int) {
    if t.Long? then -0x8000_0000_0000_0000 <= value <= 0x7FFF_FFFF_FFFF_FFFF else MIN_INT <= value <= MAX_INT
  }

  /** The parameters are of Java's types; bytes come in an array. */
  predicate Possible(op: ByteQueue.Op) {
    match op
    case Put(t, value) => Takes(t, value)
    case PutBytes(bytes) => |bytes| <= MAX_INT
    case Skip(length) => length <= MAX_INT
    case _ => true
  }

  /** How far `writeZero` moves the writer index where only `room` bytes are free. */
  function ZerosWritten(length: nat, room: nat): nat
    requires length > room
  {
    var longs := length / 8 * 8;
    if longs > room then room / 8 * 8
    else if length % 8 >= 4 && longs + 4 > room then longs
    else room + 1
  }

  /** The queue after bytes have been written behind it. */
  lemma Appended(was: seq<Octet>, now: seq<Octet>, reader: nat, writer: nat, bytes: seq<Octet>)
    requires reader <= writer && writer + |bytes| <= |was|
    requires now == was[..writer] + bytes + was[writer + |bytes|..]
    ensures now[reader..writer + |bytes|] == was[reader..writer] + bytes
  {
  }

  lemma LowThree(length: nat)
    requires length <= MAX_INT
    ensures IntOp(AND, length, 7) == length % 8
  {
    hide Bitwise;
    assert Pow2(3) == 8;
    Pow2Values();
    AndMask(length, 3, 32);
  }

  lemma ZeroBytes()
    ensures Big(0, 1) == Zeros(1) && Big(0, 4) == Zeros(4) && Big(0, 8) == Zeros(8)
  {
    assert Big(0, 3) == Big(0, 2) + [0] && Big(0, 6) == Big(0, 5) + [0];
  }
}
