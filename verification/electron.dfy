/**
 * Data preparation of the Rust electron renderer: the 14+14-bit point packing
 * uploaded to the lookup texture, the texture size limit, the workgroup count
 * and the point bookkeeping of `set_points`.
 */
module Electron {
  import opened Bytes
  import opened Bits
  import opened GfxPoint

  /** Threads per workgroup of the compute shader. */
  const ComputeWorkgroupSize: nat := 8

  /** Largest number of packed points the one-dimensional lookup texture holds. */
  const MaxLookupSize: nat := 8192

  /** 14 bits set: the largest scaled coordinate. */
  const Max14: nat := 0x3FFF

  /** A coordinate divided by the screen extent and clamped to [0, 1]. */
  function Normalized(v: real, size: real): (n: real)
    ensures 0.0 <= n <= 1.0
    ensures size != 0.0 && 0.0 <= v / size <= 1.0 ==> n == v / size
  {
    if size == 0.0 then
      // v / 0 is +inf (clamped to 1), -inf (clamped to 0) or NaN (cast to 0 below)
      (if v > 0.0 then 1.0 else 0.0)
    else if v / size < 0.0 then 0.0
    else if v / size > 1.0 then 1.0
    else v / size
  }

  /** The 14-bit scaled coordinate: `(normalized * 0x3FFF as f32) as u32`. */
  function Scaled(v: real, size: real): (s: nat)
    ensures s <= Max14
  {
    var n := Normalized(v, size);
    assert n * Max14 as real <= Max14 as real;
    SaturatingU32(n * Max14 as real)
  }

  /** The packing of scaled fields: x in bits 18-31, y in bits 4-17, power OR-ed into the low bits. */
  function PackFields(xs: nat, ys: nat, power: u32): (r: u32)
    requires xs <= Max14 && ys <= Max14
  {
    Pow2Values();
    OrBound(xs * 0x4_0000, ys * 0x10, 32);
    var fields := Or(xs * 0x4_0000, ys * 0x10);
    OrBound(fields, power, 32);
    Or(fields, power)
  }

  /** `pack_point`. */
  function PackPoint(x: real, y: real, power: u32, screenWidth: real, screenHeight: real): u32
  {
    PackFields(Scaled(x, screenWidth), Scaled(y, screenHeight), power)
  }

  datatype Fields = Fields(xs: nat, ys: nat, power: nat)

  /** The integer part of `unpack_point`: `(d >> 18) & 0x3FFF`, `(d >> 4) & 0x3FFF`, `d & 0x1`. */
  function UnpackFields(data: u32): (f: Fields)
    ensures f.xs <= Max14 && f.ys <= Max14 && f.power <= 1
  {
    Fields((data / 0x4_0000) % 0x4000, (data / 0x10) % 0x4000, data % 2)
  }

  /** `unpack_point`: the scaled fields mapped back onto the screen. */
  function UnpackPoint(data: u32, screenWidth: real, screenHeight: real): (real, real, nat)
  {
    var f := UnpackFields(data);
    (Dequantise(f.xs, screenWidth), Dequantise(f.ys, screenHeight), f.power)
  }

  /** A 14-bit scaled coordinate mapped back onto a screen extent. */
  function Dequantise(s: nat, size: real): real
  {
    s as real / Max14 as real * size
  }

  /** With a power below 16 the three fields occupy disjoint bits. */
  lemma PackFieldsDisjoint(xs: nat, ys: nat, power: u32)
    requires xs <= Max14 && ys <= Max14 && power < 0x10
    ensures PackFields(xs, ys, power) == xs * 0x4_0000 + ys * 0x10 + power
  {
    Pow2Values();
    OrDisjoint(xs, ys * 0x10, 18);
    assert xs * 0x4_0000 == (xs * 0x4000) * 0x10;
    OrDisjoint(xs * 0x4000 + ys, power, 4);
  }

  /** For power 0 or 1 the packing is undone exactly by the unpacking. */
  lemma UnpackPackFields(xs: nat, ys: nat, power: u32)
    requires xs <= Max14 && ys <= Max14 && power <= 1
    ensures UnpackFields(PackFields(xs, ys, power)) == Fields(xs, ys, power)
  {
    PackFieldsDisjoint(xs, ys, power);
    var d := xs * 0x4_0000 + ys * 0x10 + power;
    assert d == xs * 0x4_0000 + (ys * 0x10 + power);
    DivModUnique(xs, ys * 0x10 + power, 0x4_0000);
    var high := xs * 0x4000 + ys;
    assert d == high * 0x10 + power;
    DivModUnique(high, power, 0x10);
    DivModUnique(xs, ys, 0x4000);
    DivModUnique(0, xs, 0x4000);
    assert d == (xs * 0x2_0000 + ys * 8) * 2 + power;
    DivModUnique(xs * 0x2_0000 + ys * 8, power, 2);
  }

  /** A power of 16 is not kept clear of y's bits: it reads back as y = 1 and power 0. */
  lemma PowerSixteenAliasesY()
    ensures PackFields(0, 0, 16) == PackFields(0, 1, 0)
    ensures UnpackFields(PackFields(0, 0, 16)) == Fields(0, 1, 0)
  {
    Pow2Values();
    OrDisjoint(0, 0x10, 18);
    OrDisjoint(0, 0, 18);
    assert Or(0, 16) == 16;
  }

  /** An on-screen x comes back at most one quantisation step (width / 0x3FFF) below itself. */
  lemma UnpackPackCloseX(x: real, y: real, power: u32, width: real, height: real)
    requires power <= 1 && width > 0.0 && 0.0 <= x <= width
    ensures x - width / Max14 as real < UnpackPoint(PackPoint(x, y, power, width, height), width, height).0 <= x
  {
    var xs, ys := Scaled(x, width), Scaled(y, height);
    var d := PackPoint(x, y, power, width, height);
    assert d == PackFields(xs, ys, power);
    UnpackPackFields(xs, ys, power);
    assert UnpackFields(d).xs == xs;
    assert UnpackPoint(d, width, height).0 == Dequantise(xs, width);
    DequantiseScaled(x, width);
  }

  lemma DequantiseScaled(x: real, width: real)
    requires width > 0.0 && 0.0 <= x <= width
    ensures x - width / Max14 as real < Dequantise(Scaled(x, width), width) <= x
  {
    ScaledOnScreen(x, width);
    var u := x / width;
    QuantiseBound(u, Scaled(x, width), width);
    DivideMultiply(x, width);
  }

  lemma DivideMultiply(x: real, width: real)
    requires width != 0.0
    ensures x / width * width == x
  {
  }

  lemma ScaledOnScreen(x: real, width: real)
    requires width > 0.0 && 0.0 <= x <= width
    ensures Scaled(x, width) == (x / width * Max14 as real).Floor
  {
    DivideBounds(x, width);
    var u := x / width;
    assert Normalized(x, width) == u;
    assert 0.0 <= u * Max14 as real <= Max14 as real;
  }

  lemma DivideBounds(x: real, width: real)
    requires width > 0.0 && 0.0 <= x <= width
    ensures 0.0 <= x / width <= 1.0
  {
  }

  /** If xs is the floor of u * 0x3FFF, xs / 0x3FFF * width lies in (u * width - step, u * width]. */
  lemma QuantiseBound(u: real, xs: nat, width: real)
    requires width > 0.0 && xs == (u * Max14 as real).Floor
    ensures u * width - width / Max14 as real < Dequantise(xs, width) <= u * width
  {
    var m := Max14 as real;
    var t := u * m;
    assert xs as real <= t < xs as real + 1.0;
    assert xs as real / m <= u < xs as real / m + 1.0 / m;
    assert xs as real / m * width <= u * width;
    assert u * width < (xs as real / m + 1.0 / m) * width;
    assert (xs as real / m + 1.0 / m) * width == xs as real / m * width + width / m;
  }

  /**
   * The data of `create_point_lookup_texture`: one packed point per input
   * point, a single 0 for no points, and at most the first 8192 entries.
   */
  function LookupData(points: seq<Point>, screenWidth: real, screenHeight: real): (data: seq<u32>)
    ensures |points| == 0 ==> data == [0]
    ensures |data| == if |points| == 0 then 1 else if |points| > MaxLookupSize then MaxLookupSize else |points|
    ensures forall i :: 0 <= i < |data| && i < |points| ==>
      data[i] == PackPoint(points[i].x, points[i].y, points[i].power, screenWidth, screenHeight)
  {
    var packed := seq(|points|, i requires 0 <= i < |points| =>
      PackPoint(points[i].x, points[i].y, points[i].power, screenWidth, screenHeight));
    var padded := if |packed| <= 0 then [0] else packed;
    if |padded| > MaxLookupSize then padded[..MaxLookupSize] else padded
  }

  /** `compute_workgroup_count`: `(size + 7) / 8` on u32, with the wrapping add of a release build. */
  function ComputeWorkgroupCount(size: u32): (r: u32)
    ensures size <= 0xFFFF_FFF8 ==> r * ComputeWorkgroupSize >= size && (r - 1) * ComputeWorkgroupSize < size
    ensures size > 0xFFFF_FFF8 ==> r == 0
  {
    ((size + ComputeWorkgroupSize - 1) % 0x1_0000_0000) / ComputeWorkgroupSize
  }

  /** The renderer-side bookkeeping `set_points` updates. */
  datatype PointState = PointState(
    lookup: seq<u32>,
    pointAmount: u32,
    currentPoint: (real, real),
    screenSize: (real, real))

  /**
   * `ElectronRenderer::set_points`: rebuilds the lookup data, writes
   * `points.len() as u32` as the point amount even when the lookup data was
   * truncated, and moves the current point to the last point, if any.
   */
  function SetPoints(s: PointState, points: seq<Point>): (s': PointState)
    ensures s'.lookup == LookupData(points, s.screenSize.0, s.screenSize.1)
    ensures |points| < 0x1_0000_0000 ==> s'.pointAmount == |points|
    ensures |points| > 0 ==> s'.currentPoint == (points[|points| - 1].x, points[|points| - 1].y)
    ensures |points| == 0 ==> s'.currentPoint == s.currentPoint
    ensures s'.screenSize == s.screenSize
  {
    var lookup := LookupData(points, s.screenSize.0, s.screenSize.1);
    var amount := |points| % 0x1_0000_0000;
    var current := if |points| > 0 then (points[|points| - 1].x, points[|points| - 1].y) else s.currentPoint;
    PointState(lookup, amount, current, s.screenSize)
  }

  /** More than 8192 points are counted in full but only 8192 reach the texture. */
  lemma SetPointsTruncates(s: PointState, points: seq<Point>)
    requires MaxLookupSize < |points| < 0x1_0000_0000
    ensures SetPoints(s, points).pointAmount > |SetPoints(s, points).lookup|
  {
  }
}
