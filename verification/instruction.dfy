/**
 * The 5-byte instruction record of the Rust renderer: a type byte followed by
 * a big-endian u32 payload, and the decoding of a byte buffer into records.
 */
module Instruction {
  import opened Wrappers
  import opened Bytes

  /** Bytes per instruction record. */
  const InstructionSize: nat := 5

  datatype Kind = Clear | MoveTo | PowerOff | PowerOn

  datatype Instruction = Instruction(kind: Kind, data: u32)

  datatype DecodeError = InvalidKind(value: byte)

  /** The wire code of each kind, as the producers write it. */
  function KindCode(k: Kind): byte
  {
    match k
    case Clear => 0
    case MoveTo => 1
    case PowerOff => 2
    case PowerOn => 3
  }

  /** `InstructionKind::try_from(u8)`. */
  function KindFromByte(b: byte): (r: Result<Kind, DecodeError>)
    ensures r.Ok? <==> b <= 3
    ensures r.Ok? ==> KindCode(r.value) == b
    ensures r.Err? ==> r.error == InvalidKind(b)
  {
    match b
    case 0 => Ok(Clear)
    case 1 => Ok(MoveTo)
    case 2 => Ok(PowerOff)
    case 3 => Ok(PowerOn)
    case _ => Err(InvalidKind(b))
  }

  lemma KindCodeRoundTrip(k: Kind)
    ensures KindFromByte(KindCode(k)) == Ok(k)
  {
  }

  /** `Instruction::from_bytes`: the payload is the big-endian value of bytes 1..5. */
  function FromBytes(bytes: seq<byte>): (r: Result<Instruction, DecodeError>)
    requires |bytes| == InstructionSize
    ensures r.Ok? <==> bytes[0] <= 3
    ensures r.Err? ==> r.error == InvalidKind(bytes[0])
    ensures r.Ok? ==> KindCode(r.value.kind) == bytes[0]
    ensures r.Ok? ==> r.value.data == BigEndian(bytes[1..])
    ensures r.Ok? ==> ToBigEndian(r.value.data, 4) == bytes[1..]
  {
    var kind :- KindFromByte(bytes[0]);
    // The four shifted bytes occupy disjoint bit ranges, so `|` is `+`.
    var data := (bytes[1] as int) * 0x100_0000 + (bytes[2] as int) * 0x1_0000 + (bytes[3] as int) * 0x100 + bytes[4];
    BigEndianFour(bytes[1..]);
    ToBigEndianOfBigEndian(bytes[1..]);
    Ok(Instruction(kind, data))
  }

  /** The record a well-formed instruction is written as. */
  function ToBytes(i: Instruction): (s: seq<byte>)
    ensures |s| == InstructionSize
  {
    [KindCode(i.kind)] + ToBigEndian(i.data, 4)
  }

  lemma FromBytesToBytes(i: Instruction)
    ensures FromBytes(ToBytes(i)) == Ok(i)
  {
    var s := ToBytes(i);
    assert s[1..] == ToBigEndian(i.data, 4);
    BigEndianOfToBigEndian(i.data, 4);
    KindCodeRoundTrip(i.kind);
  }

  /** What one complete chunk contributes: its instruction is pushed, or nothing when it does not decode. */
  function ChunkInstructions(chunk: seq<byte>): seq<Instruction>
    requires |chunk| == InstructionSize
  {
    match FromBytes(chunk)
    case Ok(i) => [i]
    case Err(_) => []
  }

  /**
   * Reference meaning of `from_bytes_slice`: every complete 5-byte chunk, in
   * order, contributes its decoded instruction when its type byte is valid
   * and nothing otherwise; an incomplete tail contributes nothing.
   */
  function DecodeChunks(bytes: seq<byte>): seq<Instruction>
    decreases |bytes|
  {
    if |bytes| < InstructionSize then []
    else ChunkInstructions(bytes[..InstructionSize]) + DecodeChunks(bytes[InstructionSize..])
  }

  /** The chunk at `pos` and the chunks after it. */
  lemma DecodeChunksAt(bytes: seq<byte>, pos: nat)
    requires pos + InstructionSize <= |bytes|
    ensures DecodeChunks(bytes[pos..]) == ChunkInstructions(bytes[pos..pos + InstructionSize]) + DecodeChunks(bytes[pos + InstructionSize..])
  {
    var rest := bytes[pos..];
    assert rest[InstructionSize..] == bytes[pos + InstructionSize..];
    assert rest[..InstructionSize] == bytes[pos..pos + InstructionSize];
  }

  /** `Instruction::from_bytes_slice`. */
  method FromBytesSlice(bytes: seq<byte>) returns (r: Result<seq<Instruction>, DecodeError>)
    ensures r.Ok?
    ensures r.value == DecodeChunks(bytes)
  {
    var instructions: seq<Instruction> := [];
    var pos := 0;
    while pos < |bytes|
      invariant pos <= |bytes| ==> instructions + DecodeChunks(bytes[pos..]) == DecodeChunks(bytes)
      invariant pos > |bytes| ==> instructions == DecodeChunks(bytes)
      decreases |bytes| - pos
    {
      var chunk := bytes[pos..if pos + InstructionSize <= |bytes| then pos + InstructionSize else |bytes|];
      if |chunk| != InstructionSize {
        // An incomplete trailing chunk ends the scan.
        assert DecodeChunks(bytes[pos..]) == [];
        assert instructions + [] == instructions;
        pos := |bytes| + 1;
        break;
      }
      assert pos + InstructionSize <= |bytes| && chunk == bytes[pos..pos + InstructionSize];
      DecodeChunksAt(bytes, pos);
      ghost var tail := DecodeChunks(bytes[pos + InstructionSize..]);
      assert instructions + (ChunkInstructions(chunk) + tail) == (instructions + ChunkInstructions(chunk)) + tail;
      // A chunk that fails to decode is logged and skipped.
      instructions := instructions + ChunkInstructions(chunk);
      pos := pos + InstructionSize;
    }
    if pos == |bytes| {
      assert DecodeChunks(bytes[pos..]) == [];
    }
    r := Ok(instructions);
  }

  /** Number of complete chunks whose type byte is valid. */
  function ValidChunkCount(bytes: seq<byte>): nat
    decreases |bytes|
  {
    if |bytes| < InstructionSize then 0
    else (if bytes[0] <= 3 then 1 else 0) + ValidChunkCount(bytes[InstructionSize..])
  }

  /** The output holds exactly one instruction per decodable chunk, at most one per complete chunk. */
  lemma {:induction false} DecodeChunksLength(bytes: seq<byte>)
    ensures |DecodeChunks(bytes)| == ValidChunkCount(bytes)
    ensures |DecodeChunks(bytes)| <= |bytes| / InstructionSize
    decreases |bytes|
  {
    if |bytes| >= InstructionSize {
      DecodeChunksLength(bytes[InstructionSize..]);
    }
  }

  /** Every complete chunk has a valid type byte. */
  ghost predicate AllKindsValid(bytes: seq<byte>)
  {
    forall k :: 0 <= k < |bytes| / InstructionSize ==> bytes[k * InstructionSize] <= 3
  }

  /** No chunk is dropped exactly when every complete chunk carries a valid type byte. */
  lemma {:induction false} DecodeChunksComplete(bytes: seq<byte>)
    ensures |DecodeChunks(bytes)| == |bytes| / InstructionSize <==> AllKindsValid(bytes)
    decreases |bytes|
  {
    DecodeChunksLength(bytes);
    if |bytes| >= InstructionSize {
      var rest := bytes[InstructionSize..];
      DecodeChunksComplete(rest);
      DecodeChunksLength(rest);
      assert |rest| / InstructionSize == |bytes| / InstructionSize - 1;
      if AllKindsValid(bytes) {
        assert bytes[0 * InstructionSize] <= 3;
        forall k | 0 <= k < |rest| / InstructionSize
          ensures rest[k * InstructionSize] <= 3
        {
          assert rest[k * InstructionSize] == bytes[(k + 1) * InstructionSize];
        }
      } else if |DecodeChunks(bytes)| == |bytes| / InstructionSize {
        assert bytes[0] <= 3;
        forall k | 0 <= k < |bytes| / InstructionSize
          ensures bytes[k * InstructionSize] <= 3
        {
          if k > 0 {
            assert bytes[k * InstructionSize] == rest[(k - 1) * InstructionSize];
          }
        }
      }
    }
  }

  /** Chunks decode independently: a decoded prefix of whole chunks is followed by the decoding of the rest. */
  lemma {:induction false} DecodeChunksAppend(a: seq<byte>, b: seq<byte>)
    requires |a| % InstructionSize == 0
    ensures DecodeChunks(a + b) == DecodeChunks(a) + DecodeChunks(b)
    decreases |a|
  {
    if |a| > 0 {
      assert (a + b)[..InstructionSize] == a[..InstructionSize];
      assert (a + b)[InstructionSize..] == a[InstructionSize..] + b;
      DecodeChunksAppend(a[InstructionSize..], b);
    } else {
      assert a + b == b;
    }
  }

  /** A chunk with an invalid type byte is skipped, and the chunks after it are still decoded. */
  lemma InvalidChunkSkipped(chunk: seq<byte>, rest: seq<byte>)
    requires |chunk| == InstructionSize && chunk[0] > 3
    ensures DecodeChunks(chunk + rest) == DecodeChunks(rest)
  {
    DecodeChunksAppend(chunk, rest);
    assert chunk[InstructionSize..] == [];
    assert chunk[..InstructionSize] == chunk;
  }

  /** A trailing partial chunk produces no instruction. */
  lemma PartialTailIgnored(whole: seq<byte>, tail: seq<byte>)
    requires |whole| % InstructionSize == 0 && |tail| < InstructionSize
    ensures DecodeChunks(whole + tail) == DecodeChunks(whole)
  {
    DecodeChunksAppend(whole, tail);
  }

  /** A list of instructions written back to back, one record each. */
  function Encode(xs: seq<Instruction>): (s: seq<byte>)
    ensures |s| == InstructionSize * |xs|
  {
    if xs == [] then [] else ToBytes(xs[0]) + Encode(xs[1..])
  }

  /** Encoding a list of instructions back to back and decoding the bytes gives the list back. */
  lemma {:induction false} DecodeEncode(xs: seq<Instruction>)
    ensures DecodeChunks(Encode(xs)) == xs
  {
    if xs != [] {
      DecodeChunksAppend(ToBytes(xs[0]), Encode(xs[1..]));
      DecodeEncode(xs[1..]);
      FromBytesToBytes(xs[0]);
      var t := ToBytes(xs[0]);
      assert t[..InstructionSize] == t;
      assert t[InstructionSize..] == [];
    }
  }
}
