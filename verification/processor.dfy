/**
 * The Rust `InstructionProcessor`: a FIFO of decoded instructions of which
 * each frame consumes a bounded batch, tracking the gun's power state and
 * turning every MoveTo into a point.
 */
module Processor {
  import Instruction
  import GfxPoint

  type Instr = Instruction.Instruction
  type Point = GfxPoint.Point

  datatype Processor = Processor(
    buffer: seq<Instr>,
    points: seq<Point>,
    power: bool,
    shouldClear: bool,
    instructionsPerFrame: nat)

  /** `InstructionProcessor::new`. */
  function New(instructionsPerFrame: nat): (p: Processor)
    ensures p.buffer == [] && p.points == []
    ensures p.power && !p.shouldClear
    ensures p.instructionsPerFrame == instructionsPerFrame
  {
    Processor([], [], true, false, instructionsPerFrame)
  }

  /** `push_instructions`: the new instructions queue behind the ones already waiting. */
  function PushInstructions(p: Processor, instructions: seq<Instr>): (p': Processor)
    ensures |p'.buffer| == |p.buffer| + |instructions|
    ensures p'.buffer[..|p.buffer|] == p.buffer && p'.buffer[|p.buffer|..] == instructions
    ensures p'.points == p.points && p'.power == p.power
    ensures p'.shouldClear == p.shouldClear && p'.instructionsPerFrame == p.instructionsPerFrame
  {
    p.(buffer := p.buffer + instructions)
  }

  /** How many queued instructions one frame consumes. */
  function BatchSize(instructionsPerFrame: nat, queued: nat): (n: nat)
    ensures n <= queued
    ensures instructionsPerFrame == 0 ==> n == queued
    ensures instructionsPerFrame > 0 ==> n == queued || n == instructionsPerFrame
    ensures instructionsPerFrame > 0 ==> n <= instructionsPerFrame
  {
    if instructionsPerFrame > 0 then
      if instructionsPerFrame < queued then instructionsPerFrame else queued
    else queued
  }

  /** The point a MoveTo produces: `Point::from(data)` with the current power as 0 or 1. */
  function MovePoint(data: Instruction.Bytes.u32, power: bool): (pt: Point)
  {
    GfxPoint.FromU32(data).(power := if power then 1 else 0)
  }

  /** `process_instruction` on the batch-local power and point list. */
  function Step(i: Instr, power: bool, points: seq<Point>): (r: (bool, seq<Point>))
    ensures i.kind == Instruction.PowerOn ==> r == (true, points)
    ensures i.kind == Instruction.PowerOff ==> r == (false, points)
    ensures i.kind == Instruction.Clear ==> r == (power, points)
    ensures i.kind == Instruction.MoveTo ==> r.0 == power && r.1 == points + [MovePoint(i.data, power)]
  {
    match i.kind
    case Clear => (power, points)
    case MoveTo => (power, points + [MovePoint(i.data, power)])
    case PowerOn => (true, points)
    case PowerOff => (false, points)
  }

  /** The for-loop over the drained batch, as a left fold. */
  function RunBatch(xs: seq<Instr>, power: bool): (bool, seq<Point>)
  {
    if |xs| == 0 then (power, [])
    else
      var prev := RunBatch(xs[..|xs| - 1], power);
      Step(xs[|xs| - 1], prev.0, prev.1)
  }

  /** `process`. */
  function Process(p: Processor): (p': Processor)
    ensures p'.instructionsPerFrame == p.instructionsPerFrame && p'.shouldClear == p.shouldClear
  {
    var n := BatchSize(p.instructionsPerFrame, |p.buffer|);
    var batch := RunBatch(p.buffer[..n], p.power);
    p.(buffer := p.buffer[n..], points := Carried(p.points) + batch.1, power := batch.0)
  }

  /** `should_clear`: returns the flag and lowers it. */
  function ShouldClear(p: Processor): (r: (bool, Processor))
    ensures r.0 == p.shouldClear
    ensures !r.1.shouldClear
    ensures r.1 == p.(shouldClear := false)
  {
    (p.shouldClear, p.(shouldClear := false))
  }

  // ----- Reference definitions -----

  /** The power state set by the latest PowerOn/PowerOff in xs, or `initial` if there is none. */
  function LatestPower(initial: bool, xs: seq<Instr>): bool
  {
    if |xs| == 0 then initial
    else if xs[|xs| - 1].kind == Instruction.PowerOn then true
    else if xs[|xs| - 1].kind == Instruction.PowerOff then false
    else LatestPower(initial, xs[..|xs| - 1])
  }

  /** The number of MoveTo instructions in xs. */
  function MoveCount(xs: seq<Instr>): nat
  {
    if |xs| == 0 then 0
    else MoveCount(xs[..|xs| - 1]) + (if xs[|xs| - 1].kind == Instruction.MoveTo then 1 else 0)
  }

  /**
   * The batch fold ends with the latest power state, emits one point per
   * MoveTo, and the point of the MoveTo at index j sits at position
   * MoveCount(xs[..j]) with power 1 iff the latest power instruction before j
   * was PowerOn.
   */
  lemma {:induction false} RunBatchSpec(xs: seq<Instr>, power: bool)
    ensures RunBatch(xs, power).0 == LatestPower(power, xs)
    ensures |RunBatch(xs, power).1| == MoveCount(xs)
    ensures forall j :: 0 <= j < |xs| && xs[j].kind == Instruction.MoveTo ==>
      MoveCount(xs[..j]) < |RunBatch(xs, power).1| &&
      RunBatch(xs, power).1[MoveCount(xs[..j])] == MovePoint(xs[j].data, LatestPower(power, xs[..j]))
  {
    if |xs| > 0 {
      var init := xs[..|xs| - 1];
      RunBatchSpec(init, power);
      assert forall j :: 0 <= j < |init| ==> xs[..j] == init[..j];
      assert xs[..|xs| - 1] == init;
      MoveCountPrefix(xs);
    }
  }

  lemma MoveCountPrefix(xs: seq<Instr>)
    requires |xs| > 0
    ensures forall j :: 0 <= j < |xs| - 1 ==> MoveCount(xs[..j]) <= MoveCount(xs[..|xs| - 1])
  {
    forall j | 0 <= j < |xs| - 1
      ensures MoveCount(xs[..j]) <= MoveCount(xs[..|xs| - 1])
    {
      MoveCountMonotone(xs[..|xs| - 1], j);
      assert xs[..|xs| - 1][..j] == xs[..j];
    }
  }

  lemma {:induction false} MoveCountMonotone(xs: seq<Instr>, j: nat)
    requires j <= |xs|
    ensures MoveCount(xs[..j]) <= MoveCount(xs)
    decreases |xs|
  {
    if j < |xs| {
      MoveCountMonotone(xs[..|xs| - 1], j);
      assert xs[..|xs| - 1][..j] == xs[..j];
    } else {
      assert xs[..j] == xs;
    }
  }

  /** The previous frame's last point, if any, that `process` keeps at the front. */
  function Carried(points: seq<Point>): (c: seq<Point>)
    ensures |c| == (if |points| > 0 then 1 else 0)
    ensures |points| > 0 ==> c[0] == points[|points| - 1]
  {
    if |points| > 0 then [points[|points| - 1]] else []
  }

  lemma ProcessUnfold(p: Processor)
    ensures var n := BatchSize(p.instructionsPerFrame, |p.buffer|);
      var batch := RunBatch(p.buffer[..n], p.power);
      Process(p) == p.(buffer := p.buffer[n..], points := Carried(p.points) + batch.1, power := batch.0)
  {
  }

  /** The j-th consumed MoveTo lands after the carried point, at its MoveCount position. */
  lemma ProcessPoints(p: Processor, j: nat)
    requires j < BatchSize(p.instructionsPerFrame, |p.buffer|) && p.buffer[j].kind == Instruction.MoveTo
    ensures |Carried(p.points)| + MoveCount(p.buffer[..j]) < |Process(p).points|
    ensures Process(p).points[|Carried(p.points)| + MoveCount(p.buffer[..j])]
      == MovePoint(p.buffer[j].data, LatestPower(p.power, p.buffer[..j]))
  {
    var n := BatchSize(p.instructionsPerFrame, |p.buffer|);
    var xs := p.buffer[..n];
    var batch := RunBatch(xs, p.power);
    RunBatchSpec(xs, p.power);
    ProcessUnfold(p);
    assert xs[j] == p.buffer[j] && xs[..j] == p.buffer[..j];
    var k := MoveCount(xs[..j]);
    var c := Carried(p.points);
    assert (c + batch.1)[|c| + k] == batch.1[k];
  }

  /**
   * One frame: the first BatchSize instructions are consumed, the rest stay
   * queued in order, and the new points are the previous frame's last point
   * (if any) followed by one point per consumed MoveTo, each built with the
   * power in force when it is reached.
   */
  lemma ProcessSpec(p: Processor)
    ensures var n := BatchSize(p.instructionsPerFrame, |p.buffer|);
      var p' := Process(p);
      && p'.buffer == p.buffer[n..]
      && p'.power == LatestPower(p.power, p.buffer[..n])
      && |p'.points| == (if |p.points| > 0 then 1 else 0) + MoveCount(p.buffer[..n])
      && (|p.points| > 0 ==> p'.points[0] == p.points[|p.points| - 1])
    ensures var n := BatchSize(p.instructionsPerFrame, |p.buffer|);
      var p' := Process(p);
      var c := if |p.points| > 0 then 1 else 0;
      forall j :: 0 <= j < n && p.buffer[j].kind == Instruction.MoveTo ==>
        c + MoveCount(p.buffer[..j]) < |p'.points| &&
        p'.points[c + MoveCount(p.buffer[..j])] == MovePoint(p.buffer[j].data, LatestPower(p.power, p.buffer[..j]))
  {
    var n := BatchSize(p.instructionsPerFrame, |p.buffer|);
    RunBatchSpec(p.buffer[..n], p.power);
    ProcessUnfold(p);
    forall j | 0 <= j < n && p.buffer[j].kind == Instruction.MoveTo
      ensures |Carried(p.points)| + MoveCount(p.buffer[..j]) < |Process(p).points|
      ensures Process(p).points[|Carried(p.points)| + MoveCount(p.buffer[..j])]
        == MovePoint(p.buffer[j].data, LatestPower(p.power, p.buffer[..j]))
    {
      ProcessPoints(p, j);
    }
  }

  /** A Clear instruction changes neither the power nor the points. */
  lemma ClearIsNoOp(data: Instruction.Bytes.u32, power: bool, points: seq<Point>)
    ensures Step(Instruction.Instruction(Instruction.Clear, data), power, points) == (power, points)
  {
  }

  /** The invariant of every reachable processor: nothing ever raises the clear flag. */
  ghost predicate Reachable(p: Processor)
  {
    !p.shouldClear
  }

  /** New, push_instructions and process keep the clear flag down, so `should_clear` always answers false. */
  lemma ShouldClearAlwaysFalse(p: Processor, instructions: seq<Instr>)
    requires Reachable(p)
    ensures Reachable(New(p.instructionsPerFrame))
    ensures Reachable(PushInstructions(p, instructions))
    ensures Reachable(Process(p))
    ensures ShouldClear(p) == (false, p)
  {
  }
}
