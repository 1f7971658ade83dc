/** CipherUtil.process: a cipher applied block by block, and the two uses of it in RSAUtil. */
module CipherBlocks {
  import opened Bits
  import opened Common
  import opened JavaText

  /**
   * A cipher: what `doFinal` makes of a block, None for one it refuses; and the room it wants to have in an output
   * array before it writes anything.
   */
  datatype Cipher = Cipher(doFinal: seq<JByte> -> Option<seq<JByte>>, room: nat)

  datatype CipherError = BadBlock | ShortBuffer

  const OUTPUT_SIZE := 8 * 1024

  /** What a cipher writes fits in the room it asks for. */
  ghost predicate Sized(c: Cipher) {
    forall block :: c.doFinal(block).Some? ==> |c.doFinal(block).value| <= c.room
  }

  /** Consecutive blocks; the last one may be shorter. */
  function Blocks(input: seq<JByte>, size: nat): (bs: seq<seq<JByte>>)
    requires size > 0
    ensures bs != []
    decreases |input|
  {
    if |input| <= size then [input] else [input[..size]] + Blocks(input[size..], size)
  }

  /** One block after another into an output array of OUTPUT_SIZE bytes that holds `done` so far. */
  function Through(c: Cipher, blocks: seq<seq<JByte>>, done: seq<JByte>): Result<seq<JByte>, CipherError> {
    if blocks == [] then Ok(done)
    else if |done| + c.room > OUTPUT_SIZE then Err(ShortBuffer)
    else match c.doFinal(blocks[0]) {
      case None => Err(BadBlock)
      case Some(out) => Through(c, blocks[1..], done + out)
    }
  }

  /** What `process` returns or throws; a single block does not go through the output array. */
  function Processed(c: Cipher, size: nat, input: seq<JByte>): Result<seq<JByte>, CipherError>
    requires size > 0
  {
    if |input| <= size then
      match c.doFinal(input) {
        case Some(out) => Ok(out)
        case None => Err(BadBlock)
      }
    else Through(c, Blocks(input, size), [])
  }

  /** `cipher.doFinal(input, from, length, output, at)`: the number of bytes written. */
  method DoFinal(c: Cipher, input: seq<JByte>, from: nat, length: nat, output: array<JByte>, at: nat)
    returns (r: Result<nat, CipherError>)
    requires Sized(c) && from + length <= |input| && at <= output.Length
    modifies output
    ensures output[..at] == old(output[..at])
    ensures at + c.room > output.Length ==> r == Err(ShortBuffer)
    ensures at + c.room <= output.Length ==>
              match c.doFinal(input[from..from + length])
              case None => r == Err(BadBlock)
              case Some(out) => r == Ok(|out|) && at + |out| <= output.Length && output[at..at + |out|] == out
  {
    if at + c.room > output.Length {
      return Err(ShortBuffer);
    }
    var out := c.doFinal(input[from..from + length]);
    if out.None? {
      return Err(BadBlock);
    }
    for i := 0 to |out.value|
      invariant output[..at] == old(output[..at])
      invariant output[at..at + i] == out.value[..i]
    {
      output[at + i] := out.value[i];
    }
    assert out.value[..|out.value|] == out.value;
    return Ok(|out.value|);
  }

  method Process(c: Cipher, blockSize: nat, input: seq<JByte>) returns (r: Result<seq<JByte>, CipherError>)
    requires Sized(c) && blockSize > 0
    ensures r == Processed(c, blockSize, input)
  {
    hide Sized;
    if |input| <= blockSize {
      var out := c.doFinal(input);
      return if out.Some? then Ok(out.value) else Err(BadBlock);
    }
    var output := new JByte[OUTPUT_SIZE];
    var outputSize: nat, i: nat := 0, 0;
    assert input[0..] == input && output[..0] == [];
    while true
      invariant i < |input| && outputSize <= output.Length == OUTPUT_SIZE
      invariant Through(c, Blocks(input[i..], blockSize), output[..outputSize]) == Processed(c, blockSize, input)
      decreases |input| - i
    {
      ghost var rest, done := input[i..], output[..outputSize];
      FirstBlock(c, rest, blockSize, done);
      var length := if i + blockSize < |input| then blockSize else |input| - i;
      assert rest[..length] == input[i..i + length];
      var n := DoFinal(c, input, i, length, output, outputSize);
      if n.Err? {
        return Err(n.error);
      }
      assert output[..outputSize + n.value] == done + output[outputSize..outputSize + n.value];
      outputSize := outputSize + n.value;
      if !(i + blockSize < |input|) {
        break;
      }
      assert rest[blockSize..] == input[i + blockSize..];
      i := i + blockSize;
    }
    return Ok(output[..outputSize]);
  }

  /** One round of the loop. */
  lemma {:induction false} FirstBlock(c: Cipher, rest: seq<JByte>, size: nat, done: seq<JByte>)
    requires size > 0
    ensures var n := if |rest| > size then size else |rest|;
            var all := Through(c, Blocks(rest, size), done);
            && (|done| + c.room > OUTPUT_SIZE ==> all == Err(ShortBuffer))
            && (|done| + c.room <= OUTPUT_SIZE ==>
                  match c.doFinal(rest[..n])
                  case None => all == Err(BadBlock)
                  case Some(out) =>
                    all == if |rest| > size then Through(c, Blocks(rest[size..], size), done + out) else Ok(done + out))
  {
    if |rest| > size {
      assert Blocks(rest, size)[1..] == Blocks(rest[size..], size);
    } else {
      assert rest[..|rest|] == rest && Blocks(rest, size)[1..] == [];
    }
  }

  // ---- what process promises ----------------------------------------------------------------------------------------

  function Concat(parts: seq<seq<JByte>>): seq<JByte> {
    if parts == [] then [] else parts[0] + Concat(parts[1..])
  }

  /** The blocks are the input. */
  lemma {:induction false} BlocksConcat(input: seq<JByte>, size: nat)
    requires size > 0
    ensures Concat(Blocks(input, size)) == input
    decreases |input|
  {
    var bs := Blocks(input, size);
    if |input| <= size {
      assert bs[1..] == [] && Concat(bs) == input + [] == input;
    } else {
      BlocksConcat(input[size..], size);
      assert bs[1..] == Blocks(input[size..], size);
      assert input[..size] + input[size..] == input;
    }
  }

  /** All but the last are full, and the last is empty only if the input is. */
  lemma {:induction false} BlocksAreInput(input: seq<JByte>, size: nat)
    requires size > 0
    ensures var bs := Blocks(input, size);
            && Concat(bs) == input
            && (forall i :: 0 <= i < |bs| - 1 ==> |bs[i]| == size)
            && |bs[|bs| - 1]| <= size && (input != [] ==> bs[|bs| - 1] != [])
            && (input != [] ==> |bs| == (|input| + size - 1) / size)
    decreases |input|
  {
    hide Concat;
    BlocksConcat(input, size);
    if input != [] {
      CountBlocks(|input|, size);
    }
    if |input| > size {
      BlocksAreInput(input[size..], size);
      assert Blocks(input, size)[1..] == Blocks(input[size..], size);
    }
  }

  lemma CountBlocks(n: nat, size: nat)
    requires n > 0 && size > 0
    ensures n <= size ==> (n + size - 1) / size == 1
    ensures n > size ==> (n + size - 1) / size == 1 + (n - size + size - 1) / size
  {
    if n <= size {
      ModUnique(n + size - 1, size, 1, n - 1);
    } else {
      OneMore(n, size);
    }
  }

  lemma OneMore(n: nat, size: nat)
    requires n > size > 0
    ensures (n + size - 1) / size == 1 + (n - size + size - 1) / size
  {
    var k, m := (n - 1) / size, (n - 1) % size;
    assert n - 1 == k * size + m;
    assert n + size - 1 == (k + 1) * size + m;
    ModUnique(n + size - 1, size, k + 1, m);
  }

  /**
   * `process` is the cipher block by block whenever the blocks fit; a block it refuses, or no room, is the only
   * failure.
   */
  lemma {:induction false} ThroughIsConcat(c: Cipher, blocks: seq<seq<JByte>>, outs: seq<seq<JByte>>, done: seq<JByte>)
    requires |outs| == |blocks| && forall i :: 0 <= i < |blocks| ==> c.doFinal(blocks[i]) == Some(outs[i])
    requires forall i :: 0 <= i < |outs| - 1 ==> |outs[i]| <= c.room
    requires blocks != [] ==> |done| + |blocks| * c.room <= OUTPUT_SIZE
    ensures Through(c, blocks, done) == Ok(done + Concat(outs))
    decreases |blocks|
  {
    if blocks == [] {
      assert done + [] == done;
    } else {
      assert |blocks| * c.room == (|blocks| - 1) * c.room + c.room;
      if |blocks| > 1 {
        MultipleAtLeast(|blocks| - 1, c.room + 1);
        NonNegative(|blocks| - 1, c.room);
      }
      ThroughIsConcat(c, blocks[1..], outs[1..], done + outs[0]);
      assert done + outs[0] + Concat(outs[1..]) == done + Concat(outs);
    }
  }

  lemma NonNegative(a: nat, b: nat)
    ensures a * b >= 0
  {
  }

  // ---- RSAUtil ------------------------------------------------------------------------------------------------------

  const PLAIN := 117
  const SECRET := 128

  /** A 1024-bit key pair: any block of 1 to 117 bytes becomes 128 bytes, which become the block again. */
  ghost predicate KeyPair(enc: Cipher, dec: Cipher) {
    && enc.room == SECRET && dec.room == SECRET
    && forall block :: 1 <= |block| <= PLAIN ==> Encrypts(enc, dec, block)
  }

  predicate Encrypts(enc: Cipher, dec: Cipher, block: seq<JByte>) {
    var e := enc.doFinal(block);
    e.Some? && |e.value| == SECRET && dec.doFinal(e.value) == Some(block)
  }

  function Encrypted(enc: Cipher, dec: Cipher, blocks: seq<seq<JByte>>): (outs: seq<seq<JByte>>)
    requires KeyPair(enc, dec) && forall i :: 0 <= i < |blocks| ==> 1 <= |blocks[i]| <= PLAIN
    ensures |outs| == |blocks|
    ensures forall i :: 0 <= i < |outs| ==>
              |outs[i]| == SECRET && enc.doFinal(blocks[i]) == Some(outs[i]) && dec.doFinal(outs[i]) == Some(blocks[i])
  {
    seq(|blocks|, i requires 0 <= i < |blocks| => assert Encrypts(enc, dec, blocks[i]); enc.doFinal(blocks[i]).value)
  }

  /** Cutting a concatenation of full blocks gives the blocks. */
  lemma {:induction false} BlocksOfConcat(parts: seq<seq<JByte>>, size: nat)
    requires size > 0 && parts != [] && forall i :: 0 <= i < |parts| ==> |parts[i]| == size
    ensures Blocks(Concat(parts), size) == parts && |Concat(parts)| == |parts| * size
    decreases |parts|
  {
    if |parts| == 1 {
      assert Concat(parts[1..]) == [] && Concat(parts) == parts[0];
    } else {
      BlocksOfConcat(parts[1..], size);
      var rest := Concat(parts[1..]);
      MultipleAtLeast(|parts| - 1, size);
      assert Concat(parts)[..size] == parts[0] && Concat(parts)[size..] == rest;
      assert |parts| * size == (|parts| - 1) * size + size;
    }
  }

  /** Blocks of a nonempty input are never empty. */
  lemma BlocksAreFilled(input: seq<JByte>)
    requires input != []
    ensures forall i :: 0 <= i < |Blocks(input, PLAIN)| ==> 1 <= |Blocks(input, PLAIN)[i]| <= PLAIN
    ensures |Blocks(input, PLAIN)| == (|input| + PLAIN - 1) / PLAIN
  {
    hide Blocks;
    BlocksAreInput(input, PLAIN);
  }

  /** What the encryption of at most 64 blocks is. */
  lemma {:induction false} EncryptedIs(enc: Cipher, dec: Cipher, input: seq<JByte>)
    requires KeyPair(enc, dec) && 0 < |input| <= 64 * PLAIN
    ensures forall i :: 0 <= i < |Blocks(input, PLAIN)| ==> 1 <= |Blocks(input, PLAIN)[i]| <= PLAIN
    ensures Processed(enc, PLAIN, input) == Ok(Concat(Encrypted(enc, dec, Blocks(input, PLAIN))))
  {
    hide KeyPair;
    BlocksAreFilled(input);
    var blocks := Blocks(input, PLAIN);
    var outs := Encrypted(enc, dec, blocks);
    RoomOf(enc, dec);
    if |input| <= PLAIN {
      assert blocks == [input] && outs[1..] == [] && Concat(outs) == outs[0] + [] == outs[0];
    } else {
      assert |blocks| <= 64;
      ThroughIsConcat(enc, blocks, outs, []);
      assert [] + Concat(outs) == Concat(outs);
    }
  }

  lemma RoomOf(enc: Cipher, dec: Cipher)
    requires KeyPair(enc, dec)
    ensures enc.room == SECRET && dec.room == SECRET
  {
  }

  /** Decrypting with 128-byte blocks what was encrypted with 117-byte blocks gives the input back. */
  lemma DecryptUndoesEncrypt(enc: Cipher, dec: Cipher, input: seq<JByte>)
    requires KeyPair(enc, dec) && 0 < |input| <= 64 * PLAIN
    ensures var e := Processed(enc, PLAIN, input);
            && e.Ok? && |e.value| == (|input| + PLAIN - 1) / PLAIN * SECRET
            && Processed(dec, SECRET, e.value) == Ok(input)
  {
    hide KeyPair;
    EncryptedIs(enc, dec, input);
    BlocksAreFilled(input);
    BlocksAreInput(input, PLAIN);
    var blocks := Blocks(input, PLAIN);
    var outs := Encrypted(enc, dec, blocks);
    var secret := Concat(outs);
    BlocksOfConcat(outs, SECRET);
    RoomOf(enc, dec);
    hide Blocks;
    assert |blocks| <= 64;
    if |outs| == 1 {
      assert outs[1..] == [] && secret == outs[0] + [] == outs[0];
      assert blocks[1..] == [] && Concat(blocks) == blocks[0] + [] == blocks[0];
    } else {
      ThroughIsConcat(dec, outs, blocks, []);
      assert [] + Concat(blocks) == Concat(blocks);
    }
  }

  /** Longer input does not fit the output array: the encryption fails, exactly then. */
  lemma EncryptFailsIff(enc: Cipher, dec: Cipher, input: seq<JByte>)
    requires KeyPair(enc, dec) && input != []
    ensures Processed(enc, PLAIN, input) == Err(ShortBuffer) <==> |input| > 64 * PLAIN
  {
    hide KeyPair;
    if |input| <= 64 * PLAIN {
      EncryptedIs(enc, dec, input);
    } else {
      BlocksAreFilled(input);
      TooMany(enc, dec, Blocks(input, PLAIN), []);
    }
  }

  lemma {:induction false} TooMany(enc: Cipher, dec: Cipher, blocks: seq<seq<JByte>>, done: seq<JByte>)
    requires KeyPair(enc, dec) && forall i :: 0 <= i < |blocks| ==> 1 <= |blocks[i]| <= PLAIN
    requires |done| % SECRET == 0 && |done| <= OUTPUT_SIZE && |done| + |blocks| * SECRET > OUTPUT_SIZE
    ensures Through(enc, blocks, done) == Err(ShortBuffer)
    decreases |blocks|
  {
    if |done| + SECRET <= OUTPUT_SIZE {
      assert Encrypts(enc, dec, blocks[0]);
      TooMany(enc, dec, blocks[1..], done + enc.doFinal(blocks[0]).value);
    }
  }
}
