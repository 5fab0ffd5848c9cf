/**
 * The C tree's file-offset pipe reader (`source/pipe.c`): the pipe is a file
 * that only grows, and the reader keeps the index of the next 5-byte record.
 * The file is a byte sequence; the record is returned as its raw bytes.
 */
module CPipe {
  import opened Wrappers
  import opened Bytes

  /** `MV_INSTRUCTION_SIZE`. */
  const InstructionSize: nat := 5

  /** `index` counts the records consumed so far. */
  datatype Pipe = Pipe(index: nat)

  /** `mv_create_pipe`: reading starts at the first record. */
  function Create(): (p: Pipe)
    ensures p.index == 0
  {
    Pipe(0)
  }

  /** `ftell` stored into a `uint32_t`: the size modulo 2^32. */
  function ObservedSize(file: seq<byte>): (n: u32)
    ensures n <= |file|
    ensures |file| < 0x1_0000_0000 ==> n == |file|
  {
    |file| % 0x1_0000_0000
  }

  /** The record at position `index` of the file. */
  function Record(file: seq<byte>, index: nat): seq<byte>
    requires (index + 1) * InstructionSize <= |file|
  {
    file[index * InstructionSize..(index + 1) * InstructionSize]
  }

  /**
   * `mv_pipe_read_instruction`: no record (NULL) while the observed size is
   * below the end of the next record; otherwise that record, and the index
   * moves on by one.
   */
  function ReadInstruction(p: Pipe, file: seq<byte>): (r: (Pipe, Option<seq<byte>>))
    ensures r.1.None? <==> ObservedSize(file) < (p.index + 1) * InstructionSize
    ensures r.1.None? ==> r.0 == p
    ensures r.1.Some? ==> r.0.index == p.index + 1 && r.0.index * InstructionSize <= ObservedSize(file)
    ensures r.1.Some? ==> |r.1.value| == InstructionSize && r.1.value == Record(file, p.index)
  {
    var size := ObservedSize(file);
    if size < p.index * InstructionSize then (p, None)
    else if size < (p.index + 1) * InstructionSize then (p, None)
    else (Pipe(p.index + 1), Some(Record(file, p.index)))
  }

  /**
   * Up to n reads in a row from a fresh pipe, stopping at the first NULL.
   * For a file below 4 GiB they return the file's records in order, none
   * skipped or repeated, as many as are complete.
   */
  method ReadRecords(file: seq<byte>, n: nat) returns (records: seq<seq<byte>>, p: Pipe)
    requires |file| < 0x1_0000_0000
    ensures p.index == |records|
    ensures |records| == if n < |file| / InstructionSize then n else |file| / InstructionSize
    ensures forall j :: 0 <= j < |records| ==> (j + 1) * InstructionSize <= |file| && records[j] == Record(file, j)
  {
    p := Create();
    records := [];
    while |records| < n
      invariant p.index == |records| <= n
      invariant |records| <= |file| / InstructionSize
      invariant forall j :: 0 <= j < |records| ==> (j + 1) * InstructionSize <= |file| && records[j] == Record(file, j)
      decreases n - |records|
    {
      var next := ReadInstruction(p, file);
      if next.1.None? {
        break;
      }
      records := records + [next.1.value];
      p := next.0;
    }
  }
}
