/**
 * The instruction builders of the test writer (`test/write.py`): each helper
 * appends one record to the module-level `instruction_dump`, which is
 * threaded through here as a value. `circle` is given the points it draws,
 * already passed through `int`; the trigonometry that produces them is left
 * out.
 */
module WriteScript {
  import opened Wrappers
  import opened PyWire
  import Decoder = Instruction

  /** `clear_screen`. */
  function ClearScreen(dump: seq<Instruction>): seq<Instruction>
  {
    dump + [Instruction(ClearType, 0)]
  }

  /** `write_coords(x, y)`. */
  function WriteCoords(dump: seq<Instruction>, x: int, y: int): seq<Instruction>
  {
    dump + [Instruction(CoordsType, Pack(x, y))]
  }

  /** `power_off`. */
  function PowerOff(dump: seq<Instruction>): seq<Instruction>
  {
    dump + [Instruction(PowerOffType, 0)]
  }

  /** `power_on`. */
  function PowerOn(dump: seq<Instruction>): seq<Instruction>
  {
    dump + [Instruction(PowerOnType, 0)]
  }

  /**
   * Each helper appends exactly one record, and the renderer's decoder reads
   * it as the intended kind: clear, power off and power on with value 0, a
   * move to (x, y) for coordinates of up to 16 bits.
   */
  lemma HelpersDecode(dump: seq<Instruction>, x: int, y: int)
    requires 0 <= x < 0x1_0000 && 0 <= y < 0x1_0000
    ensures var d := [ClearScreen(dump), PowerOff(dump), PowerOn(dump), WriteCoords(dump, x, y)];
      forall k :: 0 <= k < 4 ==> |d[k]| == |dump| + 1 && d[k][..|dump|] == dump
    ensures 0 <= Pack(x, y) < 0x1_0000_0000
    ensures Decoder.FromBytes(ToBytes(ClearScreen(dump)[|dump|]).value) == Ok(Decoder.Instruction(Decoder.Clear, 0))
    ensures Decoder.FromBytes(ToBytes(PowerOff(dump)[|dump|]).value) == Ok(Decoder.Instruction(Decoder.PowerOff, 0))
    ensures Decoder.FromBytes(ToBytes(PowerOn(dump)[|dump|]).value) == Ok(Decoder.Instruction(Decoder.PowerOn, 0))
    ensures Decoder.FromBytes(ToBytes(WriteCoords(dump, x, y)[|dump|]).value) == Ok(Decoder.Instruction(Decoder.MoveTo, x * 0x1_0000 + y))
    ensures var v := Decoder.FromBytes(ToBytes(WriteCoords(dump, x, y)[|dump|]).value).value.data;
      v / 0x1_0000 == x && v % 0x1_0000 == y
  {
    PackHalves(x, y);
    ToBytesDecodes(Instruction(ClearType, 0));
    ToBytesDecodes(Instruction(PowerOffType, 0));
    ToBytesDecodes(Instruction(PowerOnType, 0));
    ToBytesDecodes(Instruction(CoordsType, Pack(x, y)));
  }

  /** A point too wide for 16 bits makes `bytes()` of its record raise. */
  lemma WideCoordsOverflow(dump: seq<Instruction>, x: int, y: int)
    requires x >= 0x1_0000 && 0 <= y < 0x1_0000
    ensures ToBytes(WriteCoords(dump, x, y)[|dump|]).Err?
  {
    PackTooWide(x, y);
  }

  /** The records the loop of `circle` appends from the current point on; `first` is the flag the loop keeps. */
  function Segments(points: seq<(int, int)>, first: bool): (s: seq<Instruction>)
    ensures |s| == 2 * |points|
    decreases |points|
  {
    if points == [] then []
    else
      var power := if first then Instruction(PowerOffType, 0) else Instruction(PowerOnType, 0);
      [power, Instruction(CoordsType, Pack(points[0].0, points[0].1))] + Segments(points[1..], false)
  }

  /** Point i contributes a power record and then its coordinates; only the very first power record is a power-off. */
  lemma {:induction false} SegmentsAt(points: seq<(int, int)>, first: bool, i: nat)
    requires i < |points|
    ensures Segments(points, first)[2 * i] == (if i == 0 && first then Instruction(PowerOffType, 0) else Instruction(PowerOnType, 0))
    ensures Segments(points, first)[2 * i + 1] == Instruction(CoordsType, Pack(points[i].0, points[i].1))
    decreases |points|
  {
    if i > 0 {
      SegmentsAt(points[1..], false, i - 1);
    }
  }

  /** `circle(cx, cy, r, n)` for the n points it computes: a power-off and the first point, then a power-on before each later point. */
  function Circle(dump: seq<Instruction>, points: seq<(int, int)>): (r: seq<Instruction>)
    ensures |r| == |dump| + 2 * |points| && r[..|dump|] == dump
    ensures |points| > 0 ==> r[|dump|] == Instruction(PowerOffType, 0)
    ensures forall i :: 1 <= i < |points| ==> r[|dump| + 2 * i] == Instruction(PowerOnType, 0)
    ensures forall i :: 0 <= i < |points| ==> r[|dump| + 2 * i + 1] == Instruction(CoordsType, Pack(points[i].0, points[i].1))
  {
    var r := dump + Segments(points, true);
    forall i | 0 <= i < |points|
      ensures r[|dump| + 2 * i] == (if i == 0 then Instruction(PowerOffType, 0) else Instruction(PowerOnType, 0))
      ensures r[|dump| + 2 * i + 1] == Instruction(CoordsType, Pack(points[i].0, points[i].1))
    {
      SegmentsAt(points, true, i);
    }
    r
  }
}
