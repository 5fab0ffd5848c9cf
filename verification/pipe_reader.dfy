/**
 * The unix `NamedPipeReader::read` of the Rust renderer: byte-at-a-time reads
 * from a non-blocking pipe, capped at a frame's worth of records, split at the
 * last whole record.
 */
module PipeReader {
  import opened Wrappers
  import opened Bytes
  import Instruction

  /**
   * What one single-byte `read(2)` on the non-blocking pipe reports. Running
   * off the end of a stream means no writer has produced more yet, which the
   * pipe reports as EAGAIN.
   */
  datatype ReadOutcome = Byte(b: byte) | EndOfFile | Again | Failure(errno: nat)

  datatype ReadError = ReadFailed(errno: nat)

  datatype Reader = Reader(instructionsPerFrame: nat, leftOver: seq<byte>)

  /** The byte cap of one call; none when instructions_per_frame is 0. */
  function Cap(instructionsPerFrame: nat): (c: nat)
    ensures instructionsPerFrame > 0 ==> c >= Instruction.InstructionSize
  {
    instructionsPerFrame * Instruction.InstructionSize
  }

  /** The payload bytes of a run of successful reads. */
  function Payload(outcomes: seq<ReadOutcome>): (s: seq<byte>)
    requires forall k :: 0 <= k < |outcomes| ==> outcomes[k].Byte?
    ensures |s| == |outcomes|
    ensures forall k :: 0 <= k < |s| ==> s[k] == outcomes[k].b
  {
    seq(|outcomes|, k requires 0 <= k < |outcomes| => outcomes[k].b)
  }

  /**
   * `NamedPipeReader::read` on the pipe's upcoming read outcomes. `used` is
   * the number of bytes taken from the pipe; the call stops at the capacity,
   * at end of file, at EAGAIN, or at another error, which it returns.
   */
  method Read(r: Reader, pipe: seq<ReadOutcome>) returns (res: Result<seq<byte>, ReadError>, r': Reader, used: nat)
    ensures used <= |pipe|
    ensures forall k :: 0 <= k < used ==> pipe[k].Byte?
    ensures r.instructionsPerFrame > 0 ==> used <= Cap(r.instructionsPerFrame)
    // It stops at the first non-byte outcome or at the cap, never earlier.
    ensures used == |pipe| || !pipe[used].Byte? || (r.instructionsPerFrame > 0 && used == Cap(r.instructionsPerFrame))
    ensures r'.instructionsPerFrame == r.instructionsPerFrame
    // A failed read other than EAGAIN is an error and leaves the left-over bytes alone.
    ensures res.Err? <==> (used < |pipe| && pipe[used].Failure?
      && !(r.instructionsPerFrame > 0 && used == Cap(r.instructionsPerFrame)))
    ensures res.Err? ==> res.error == ReadFailed(pipe[used].errno) && r' == r
    // Otherwise: whole records are returned and the remainder replaces left_over;
    // the earlier left_over is not part of either.
    ensures res.Ok? ==> |res.value| % Instruction.InstructionSize == 0
    ensures res.Ok? ==> |r'.leftOver| < Instruction.InstructionSize
    ensures res.Ok? ==> res.value + r'.leftOver == Payload(pipe[..used])
  {
    var cap := Cap(r.instructionsPerFrame);
    var bytes: seq<byte> := [];
    used := 0;
    while true
      invariant used <= |pipe|
      invariant forall k :: 0 <= k < used ==> pipe[k].Byte?
      invariant bytes == Payload(pipe[..used])
      invariant r.instructionsPerFrame > 0 ==> used < cap
      decreases |pipe| - used
    {
      if used == |pipe| {
        // Nothing more is available: EAGAIN.
        break;
      }
      match pipe[used]
      case EndOfFile =>
        break;
      case Again =>
        break;
      case Failure(errno) =>
        return Err(ReadFailed(errno)), r, used;
      case Byte(b) =>
        assert pipe[..used + 1] == pipe[..used] + [pipe[used]];
        bytes := bytes + [b];
        used := used + 1;
        if r.instructionsPerFrame > 0 && used >= cap {
          break;
        }
    }
    var splitPoint := |bytes| - |bytes| % Instruction.InstructionSize;
    res := Ok(bytes[..splitPoint]);
    r' := r.(leftOver := bytes[splitPoint..]);
  }
}
