/** The beam point of the Rust renderer and its 16+16-bit coordinate packing. */
module GfxPoint {
  import opened Bytes
  import opened Bits

  /** A point drawn by the electron gun; `x` and `y` are f32 in the source. */
  datatype Point = Point(x: real, y: real, power: u32)

  const U32Max: u32 := 0xFFFF_FFFF

  /** `Point::new`: power is stored as 1 for true and 0 for false. */
  function New(x: real, y: real, power: bool): (p: Point)
    ensures p.x == x && p.y == y
    ensures p.power == 1 <==> power
    ensures p.power == 0 <==> !power
  {
    Point(x, y, if power then 1 else 0)
  }

  /** Rust's saturating `f32 as u32`: the fraction is dropped and out-of-range values stick to the bounds. */
  function SaturatingU32(r: real): (n: u32)
    ensures r < 0.0 ==> n == 0
    ensures 0.0 <= r < 0x1_0000_0000 as real ==> n == r.Floor
    ensures r >= 0x1_0000_0000 as real ==> n == U32Max
  {
    if r < 0.0 then 0 else if r >= 0x1_0000_0000 as real then U32Max else r.Floor
  }

  /** `Point::encode`: `(x as u32) << 16 | (y as u32)` on u32, so the shift drops x's high bits. */
  function Encode(p: Point): u32
  {
    var sx := SaturatingU32(p.x);
    var sy := SaturatingU32(p.y);
    var hi := (sx * 0x1_0000) % 0x1_0000_0000;
    Pow2Values();
    OrBound(hi, sy, 32);
    Or(hi, sy)
  }

  /** `From<u32> for Point`: x from the high half, y from the low half, power 0. */
  function FromU32(d: u32): (p: Point)
    ensures p.x.Floor as real == p.x && p.y.Floor as real == p.y
    ensures 0.0 <= p.x <= 65535.0 && 0.0 <= p.y <= 65535.0
    ensures p.power == 0
  {
    var hi, lo := d / 0x1_0000, d % 0x1_0000;
    assert 0 <= hi <= 65535 && 0 <= lo <= 65535;
    Point(hi as real, lo as real, 0)
  }

  /** Every u32 survives decoding into a point and encoding it again. */
  lemma EncodeFromU32(d: u32)
    ensures Encode(FromU32(d)) == d
  {
    var p := FromU32(d);
    assert SaturatingU32(p.x) == d / 0x1_0000;
    assert SaturatingU32(p.y) == d % 0x1_0000;
    Pow2Values();
    OrDisjoint(d / 0x1_0000, d % 0x1_0000, 16);
  }

  /** Integral coordinates in [0, 65535] survive encoding and decoding; power is not carried. */
  lemma FromU32Encode(p: Point)
    requires p.x.Floor as real == p.x && p.y.Floor as real == p.y
    requires 0.0 <= p.x <= 65535.0 && 0.0 <= p.y <= 65535.0
    ensures FromU32(Encode(p)) == Point(p.x, p.y, 0)
  {
    var sx, sy := p.x.Floor, p.y.Floor;
    assert 0 <= sx <= 65535 && 0 <= sy <= 65535;
    assert SaturatingU32(p.x) == sx && SaturatingU32(p.y) == sy;
    var d := sx * 0x1_0000 + sy;
    assert (sx * 0x1_0000) % 0x1_0000_0000 == sx * 0x1_0000;
    Pow2Values();
    OrDisjoint(sx, sy, 16);
    assert Encode(p) == d;
    assert d / 0x1_0000 == sx && d % 0x1_0000 == sy;
  }
}
