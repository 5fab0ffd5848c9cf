/**
 * The per-pixel rule of the C electron compute shader
 * (`MV_ELECTRON_RENDERER_COMPUTE_SHADER` in `source/renderer.h`). One
 * invocation sees one pixel: it is lit when it is the pixel under the gun or
 * lies on the segment from the uniform `electron_gun_previous_position` to
 * the gun position. source/renderer.c never uploads that uniform, so at run
 * time it keeps its initial value (0, 0); here it is the parameter
 * `previous`.
 * Square roots (`length`, `distance`) are witnesses constrained by
 * `Vec.IsMagnitude`; `round` is applied by the caller.
 */
module Shader {
  import opened Vec

  datatype Rgb = Rgb(r: real, g: real, b: real)
  datatype Rgba = Rgba(r: real, g: real, b: real, a: real)

  /** GLSL `clamp(x, lo, hi)`. */
  function Clamp(x: real, lo: real, hi: real): (c: real)
    requires lo <= hi
    ensures lo <= c <= hi
    ensures lo <= x <= hi ==> c == x
    ensures x < lo ==> c == lo
    ensures x > hi ==> c == hi
  {
    if x < lo then lo else if x > hi then hi else x
  }

  /** The three distances `is_point_between_two_points` computes, as witnesses. */
  predicate BetweenWitnesses(point: Vec, a: Vec, b: Vec, d: real, d1: real, d2: real)
  {
    IsDistance(a, b, d) && IsDistance(a, point, d1) && IsDistance(b, point, d2)
  }

  /** `is_point_between_two_points`: the detour through `point` is shorter than 0.1. */
  predicate IsBetween(point: Vec, a: Vec, b: Vec, d: real, d1: real, d2: real)
    requires BetweenWitnesses(point, a, b, d, d1, d2)
  {
    Abs(d - (d1 + d2)) < 0.1
  }

  /** Both ends of the segment count as lying between them, whatever witnesses the test is given. */
  lemma EndpointsAreBetween(a: Vec, b: Vec, d: real, d1: real, d2: real, e1: real, e2: real)
    requires BetweenWitnesses(a, a, b, d, d1, d2) && BetweenWitnesses(b, a, b, d, e1, e2)
    ensures IsBetween(a, a, b, d, d1, d2) && IsBetween(b, a, b, d, e1, e2)
  {
    SelfDistanceIsZero(a, d1);
    SelfDistanceIsZero(b, e2);
    DistanceSymmetric(a, b, d);
    DistanceSymmetric(b, a, d2);
    MagnitudeFacts(Subtract(a, b), d, d2);
    SquareRootUnique(d, e1);
  }

  /** The distance from a point to itself is zero. */
  lemma SelfDistanceIsZero(a: Vec, m: real)
    requires IsDistance(a, a, m)
    ensures m == 0.0
  {
    SquareZero(m);
  }

  /** `vec2(pixel_coords) - round(electron_gun_position)` for integer pixel and rounded gun coordinates. */
  function PixelOffset(px: int, py: int, rx: int, ry: int): (v: Vec)
    ensures v.x == (px - rx) as real && v.y == (py - ry) as real
  {
    Vec((px - rx) as real, (py - ry) as real)
  }

  /** On the integer grid, the `distance < 1` test lights exactly the pixel under the rounded gun position. */
  lemma {:induction false} NearOnlyAtRounded(px: int, py: int, rx: int, ry: int, m: real)
    requires IsMagnitude(PixelOffset(px, py, rx, ry), m)
    ensures m < 1.0 <==> px == rx && py == ry
  {
    var v := PixelOffset(px, py, rx, ry);
    if px == rx && py == ry {
      assert v == Origin;
      MagnitudeFacts(v, m, m);
    } else {
      assert SquaredLength(v) >= 1.0 by {
        IntSquareAtLeastOne(px - rx);
        IntSquareAtLeastOne(py - ry);
        SquareNonNegative(v.x);
        SquareNonNegative(v.y);
      }
      SquareBelowOne(m);
    }
  }

  lemma SquareBelowOne(m: real)
    ensures 0.0 <= m < 1.0 ==> m * m < 1.0
  {
    if 0.0 < m < 1.0 {
      MulStrict(m, 1.0, m);
    }
  }

  /** A non-zero integer has a square of at least one, also as a real. */
  lemma IntSquareAtLeastOne(k: int)
    ensures k != 0 ==> (k as real) * (k as real) >= 1.0
  {
    if k != 0 {
      assert k * k >= 1 by {
        if k > 0 {
          assert k * k >= k;
        } else {
          assert k * k == (-k) * (-k) >= -k;
        }
      }
      assert (k * k) as real == (k as real) * (k as real);
    }
  }

  /** The colour the shader stores for a lit pixel: the current colour plus secondary scaled by power/100, clamped. */
  function Lit(current: Rgba, secondary: Rgb, power: real): (c: Rgba)
    ensures 0.0 <= c.r <= 1.0 && 0.0 <= c.g <= 1.0 && 0.0 <= c.b <= 1.0
    ensures c.a == 1.0
  {
    var k := power / 100.0;
    Rgba(Clamp(current.r + secondary.r * k, 0.0, 1.0),
         Clamp(current.g + secondary.g * k, 0.0, 1.0),
         Clamp(current.b + secondary.b * k, 0.0, 1.0),
         1.0)
  }

  /**
   * `main` for one pixel. `m` is the length of the offset from the rounded gun
   * position, `d`, `d1`, `d2` the distances of the segment test. A pixel
   * that is not hit is never stored to.
   */
  function Pixel(current: Rgba, px: int, py: int, rx: int, ry: int, previous: Vec, position: Vec,
                 secondary: Rgb, power: real, m: real, d: real, d1: real, d2: real): (c: Rgba)
    requires IsMagnitude(PixelOffset(px, py, rx, ry), m)
    requires BetweenWitnesses(Vec(px as real, py as real), previous, position, d, d1, d2)
    ensures var hit := (px == rx && py == ry) || IsBetween(Vec(px as real, py as real), previous, position, d, d1, d2);
      (hit ==> c == Lit(current, secondary, power)) && (!hit ==> c == current)
  {
    NearOnlyAtRounded(px, py, rx, ry, m);
    if m < 1.0 || IsBetween(Vec(px as real, py as real), previous, position, d, d1, d2) then
      Lit(current, secondary, power)
    else
      current
  }

  /** With a non-negative colour and power, lighting never darkens a channel that was in range. */
  lemma LitNeverDarkens(current: Rgba, secondary: Rgb, power: real)
    requires 0.0 <= current.r <= 1.0 && 0.0 <= current.g <= 1.0 && 0.0 <= current.b <= 1.0
    requires secondary.r >= 0.0 && secondary.g >= 0.0 && secondary.b >= 0.0 && power >= 0.0
    ensures var c := Lit(current, secondary, power);
      c.r >= current.r && c.g >= current.g && c.b >= current.b
  {
    var k := power / 100.0;
    NonNegativeProduct(secondary.r, k);
    NonNegativeProduct(secondary.g, k);
    NonNegativeProduct(secondary.b, k);
  }

  /** With no power, a lit pixel keeps its in-range colour and only becomes opaque. */
  lemma LitAtZeroPower(current: Rgba, secondary: Rgb)
    requires 0.0 <= current.r <= 1.0 && 0.0 <= current.g <= 1.0 && 0.0 <= current.b <= 1.0
    ensures Lit(current, secondary, 0.0) == current.(a := 1.0)
  {
  }
}
