/**
 * The C tree's instruction handling (`source/instruction.c`): packing two
 * 16-bit signed coordinates into one u32, and applying a CLEAR or SET_POINT
 * instruction to the list of points on the display.
 */
module CInstruction {
  import opened Bytes
  import opened Bits

  const ClearKind: byte := 0
  const SetPointKind: byte := 1

  datatype Instruction = Instruction(kind: byte, data: u32)

  /** C's conversion of a value in [0, 65536) to `int16_t`: the upper half wraps to negatives. */
  function ToInt16(v: nat): (r: i16)
    requires v < 0x1_0000
    ensures r % 0x1_0000 == v
  {
    if v >= 0x8000 then v - 0x1_0000 else v
  }

  /** `data >> 16`, passed on as the x coordinate of `mv_add_point`. */
  function HighHalf(d: u32): i16
  {
    ToInt16(d / 0x1_0000)
  }

  /** `data & 0xFFFF`, passed on as the y coordinate of `mv_add_point`. */
  function LowHalf(d: u32): i16
  {
    ToInt16(d % 0x1_0000)
  }

  /**
   * `mv_coords_to_u32` as written: both operands are promoted to `int`, so a
   * negative `y` is sign-extended and its high bits cover `x << 16`; the
   * result is then converted to `uint32_t`. `x << 16` on a negative `x` is
   * taken as the two's-complement product.
   */
  function CoordsToU32(x: i16, y: i16): u32
  {
    Or(x * 0x1_0000, y) % 0x1_0000_0000
  }

  /** With a non-negative y the halves give back both coordinates, whatever x's sign. */
  lemma CoordsRoundTrip(x: i16, y: i16)
    requires y >= 0
    ensures HighHalf(CoordsToU32(x, y)) == x && LowHalf(CoordsToU32(x, y)) == y
  {
    Pow2Values();
    OrDisjoint(x, y, 16);
    var hi := if x >= 0 then x else x + 0x1_0000;
    var d := hi * 0x1_0000 + y;
    assert CoordsToU32(x, y) == d by {
      DivModUnique(if x >= 0 then 0 else -1, d, 0x1_0000_0000);
    }
    DivModUnique(hi, y, 0x1_0000);
  }

  /** With a negative y the sign extension wins: x always comes back as -1. */
  lemma NegativeYOverwritesX(x: i16, y: i16)
    requires y < 0
    ensures HighHalf(CoordsToU32(x, y)) == -1 && LowHalf(CoordsToU32(x, y)) == y
  {
    Pow2Values();
    OrNegativeLow(x, y, 16);
    var d := 0xFFFF * 0x1_0000 + (y + 0x1_0000);
    DivModUnique(-1, d, 0x1_0000_0000);
    assert CoordsToU32(x, y) == d;
    DivModUnique(0xFFFF, y + 0x1_0000, 0x1_0000);
  }

  /** The smallest case: the point (1, -1) is packed as 0xFFFFFFFF and read back as (-1, -1). */
  lemma CoordsCounterexample()
    ensures CoordsToU32(1, -1) == 0xFFFF_FFFF
    ensures HighHalf(CoordsToU32(1, -1)) == -1 && LowHalf(CoordsToU32(1, -1)) == -1
  {
    NegativeYOverwritesX(1, -1);
    Pow2Values();
    OrNegativeLow(1, -1, 16);
  }

  /** The packing with `y` masked to its 16 bits, `(x << 16) | (uint16_t)y`: x's low half above y's. */
  function CoordsToU32Masked(x: i16, y: i16): u32
  {
    (x % 0x1_0000) * 0x1_0000 + y % 0x1_0000
  }

  /** The masked packing is the 32-bit `(x << 16) | (uint16_t)y`. */
  lemma MaskedIsShiftOr(x: i16, y: i16)
    ensures CoordsToU32Masked(x, y) == Or((x * 0x1_0000) % 0x1_0000_0000, y % 0x1_0000)
  {
    Pow2Values();
    assert (x * 0x1_0000) % 0x1_0000_0000 == (x % 0x1_0000) * 0x1_0000 by {
      Int16OfLowBits(x);
      DivModUnique(if x >= 0 then 0 else -1, (x % 0x1_0000) * 0x1_0000, 0x1_0000_0000);
    }
    OrDisjoint(x % 0x1_0000, y % 0x1_0000, 16);
  }

  /** A 16-bit value's low 16 bits read back as `int16_t` give the value. */
  lemma Int16OfLowBits(x: i16)
    ensures 0 <= x % 0x1_0000 < 0x1_0000 && ToInt16(x % 0x1_0000) == x
  {
    DivModUnique(if x >= 0 then 0 else -1, if x >= 0 then x else x + 0x1_0000, 0x1_0000);
  }

  /** The masked packing round-trips every pair of 16-bit coordinates. */
  lemma CoordsMaskedRoundTrip(x: i16, y: i16)
    ensures HighHalf(CoordsToU32Masked(x, y)) == x && LowHalf(CoordsToU32Masked(x, y)) == y
    ensures y >= 0 ==> CoordsToU32Masked(x, y) == CoordsToU32(x, y)
  {
    var h, l := x % 0x1_0000, y % 0x1_0000;
    Int16OfLowBits(x);
    Int16OfLowBits(y);
    var d := CoordsToU32Masked(x, y);
    assert d == h * 0x1_0000 + l;
    DivModUnique(h, l, 0x1_0000);
    if y >= 0 {
      MaskedAgreesForNonNegativeY(x, y);
    }
  }

  /** For a non-negative y there is nothing to mask, and both packings agree. */
  lemma MaskedAgreesForNonNegativeY(x: i16, y: i16)
    requires y >= 0
    ensures CoordsToU32Masked(x, y) == CoordsToU32(x, y)
  {
    Pow2Values();
    OrDisjoint(x, y, 16);
    Int16OfLowBits(x);
    var k := if x >= 0 then 0 else -1;
    var hi := x % 0x1_0000;
    assert hi == x - k * 0x1_0000;
    assert y % 0x1_0000 == y;
    var d := hi * 0x1_0000 + y;
    assert x * 0x1_0000 + y == k * 0x1_0000_0000 + d;
    DivModUnique(k, d, 0x1_0000_0000);
  }

  /** The coordinates SET_POINT and CLEAR add. */
  function PointOf(d: u32): (i16, i16)
  {
    (HighHalf(d), LowHalf(d))
  }

  /**
   * `mv_process_instruction` on the display's list of points: CLEAR empties it
   * and, because its case has no `break`, falls through to SET_POINT, which
   * appends the decoded point; any other type is ignored.
   */
  function Process(i: Instruction, points: seq<(i16, i16)>): (r: seq<(i16, i16)>)
    ensures i.kind == SetPointKind ==> |r| == |points| + 1 && r[..|points|] == points
    ensures i.kind == ClearKind ==> |r| == 1
    ensures i.kind != SetPointKind && i.kind != ClearKind ==> r == points
    ensures |r| > 0 ==> r[|r| - 1] == PointOf(i.data) || r == points
  {
    match i.kind
    case 0 => [PointOf(i.data)]
    case 1 => points + [PointOf(i.data)]
    case _ => points
  }

  /** A SET_POINT carrying masked coordinates adds exactly that point. */
  lemma SetPointAddsCoords(x: i16, y: i16, points: seq<(i16, i16)>)
    ensures Process(Instruction(SetPointKind, CoordsToU32Masked(x, y)), points) == points + [(x, y)]
    ensures Process(Instruction(ClearKind, CoordsToU32Masked(x, y)), points) == [(x, y)]
  {
    CoordsMaskedRoundTrip(x, y);
  }
}
