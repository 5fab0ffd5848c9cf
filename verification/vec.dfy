/**
 * The C tree's two-dimensional vector helpers over reals. `sqrtf` has no
 * counterpart in Dafny's reals, so every magnitude is supplied by the caller
 * together with the fact that it is the non-negative square root of the
 * squared length (`IsMagnitude`).
 */
module Vec {

  datatype Vec = Vec(x: real, y: real)

  const Origin: Vec := Vec(0.0, 0.0)

  /** `mv_create_point`. */
  function Create(x: real, y: real): (v: Vec)
    ensures v.x == x && v.y == y
  {
    Vec(x, y)
  }

  /** `mv_add_points`. */
  function Add(a: Vec, b: Vec): Vec
  {
    Vec(a.x + b.x, a.y + b.y)
  }

  /** `mv_subtract_points`: a - b. */
  function Subtract(a: Vec, b: Vec): Vec
  {
    Vec(a.x - b.x, a.y - b.y)
  }

  /** `mv_multiply_point`. */
  function Multiply(v: Vec, s: real): Vec
  {
    Vec(v.x * s, v.y * s)
  }

  /** `mv_divide_point`. */
  function Divide(v: Vec, s: real): Vec
    requires s != 0.0
  {
    Vec(v.x / s, v.y / s)
  }

  function Abs(r: real): (a: real)
    ensures a >= 0.0 && (a == r || a == -r)
  {
    if r >= 0.0 then r else -r
  }

  /** x² + y², the quantity under the square root of `mv_magnitude_point`. */
  function SquaredLength(v: Vec): (r: real)
    ensures r >= 0.0
  {
    v.x * v.x + v.y * v.y
  }

  /** m is what `mv_magnitude_point(v)` returns: the non-negative root of x² + y². */
  predicate IsMagnitude(v: Vec, m: real)
  {
    m >= 0.0 && m * m == SquaredLength(v)
  }

  /** Subtracting then adding back the same vector is the identity. */
  lemma AddSubtract(a: Vec, b: Vec)
    ensures Add(Subtract(a, b), b) == a
    ensures Subtract(Add(a, b), b) == a
  {
  }

  /** Division undoes multiplication by a non-zero scalar. */
  lemma DivideMultiply(p: Vec, s: real)
    requires s != 0.0
    ensures Divide(Multiply(p, s), s) == p
  {
  }

  /** A magnitude is unique, and it is zero exactly at the origin. */
  lemma MagnitudeFacts(v: Vec, m: real, m': real)
    requires IsMagnitude(v, m) && IsMagnitude(v, m')
    ensures m == m'
    ensures m == 0.0 <==> v == Origin
  {
    SquareRootUnique(m, m');
    SquareZero(m);
    SumOfSquaresZero(v.x, v.y);
  }

  // ----- Real arithmetic the solver needs spelled out, one fact at a time -----

  lemma ProductZero(a: real, b: real)
    ensures a * b == 0.0 && b != 0.0 ==> a == 0.0
  {
  }

  lemma SquareZero(a: real)
    ensures a * a == 0.0 <==> a == 0.0
  {
    ProductZero(a, a);
  }

  lemma SquarePositive(a: real)
    ensures a != 0.0 ==> a * a > 0.0
  {
    if a < 0.0 {
      assert a * a == (-a) * (-a);
    }
  }

  lemma SquareNonNegative(a: real)
    ensures a * a >= 0.0
  {
    SquarePositive(a);
    SquareZero(a);
  }

  lemma MulStrict(a: real, b: real, c: real)
    requires c > 0.0 && a < b
    ensures a * c < b * c
  {
  }

  lemma SquareMonotone(a: real, b: real)
    requires 0.0 < a < b
    ensures a * a < b * b
  {
    MulStrict(a, b, a);
    MulStrict(a, b, b);
  }

  lemma SquareRootUnique(m: real, m': real)
    requires m >= 0.0 && m' >= 0.0 && m * m == m' * m'
    ensures m == m'
  {
    SquareZero(m);
    SquareZero(m');
    if 0.0 < m < m' {
      SquareMonotone(m, m');
    } else if 0.0 < m' < m {
      SquareMonotone(m', m);
    }
  }

  lemma SumOfSquaresZero(x: real, y: real)
    ensures x * x + y * y == 0.0 <==> x == 0.0 && y == 0.0
  {
    SquareNonNegative(x);
    SquareNonNegative(y);
    SquareZero(x);
    SquareZero(y);
  }

  lemma DivideTimes(a: real, m: real)
    requires m != 0.0
    ensures (a / m) * m == a
  {
  }

  lemma SquareOfEqual(u: real, w: real)
    requires u == w
    ensures u * u == w * w
  {
  }

  lemma ExpandScaledSquares(p: real, q: real, m: real)
    ensures (p * p + q * q) * (m * m) == (p * m) * (p * m) + (q * m) * (q * m)
  {
  }

  lemma ScaledSquares(p: real, q: real, x: real, y: real, m: real)
    requires p * m == x && q * m == y
    ensures (p * p + q * q) * (m * m) == x * x + y * y
  {
    ExpandScaledSquares(p, q, m);
    SquareOfEqual(p * m, x);
    SquareOfEqual(q * m, y);
  }

  lemma ReciprocalTimes(x: real, m: real)
    requires m > 0.0
    ensures x * (1.0 / m) == x / m
    ensures 1.0 / m > 0.0 && (1.0 / m) * m == 1.0
  {
  }

  lemma NonNegativeProduct(a: real, b: real)
    requires a >= 0.0 && b >= 0.0
    ensures a * b >= 0.0
  {
  }

  lemma SquareOfProduct(a: real, m: real)
    ensures (a * m) * (a * m) == (a * a) * (m * m)
  {
  }

  lemma AbsSquare(s: real)
    ensures Abs(s) * Abs(s) == s * s
  {
    if s < 0.0 {
      assert (-s) * (-s) == s * s;
    }
  }

  /** `mv_distance_points(a, b)`: the magnitude of b - a, given as d. */
  predicate IsDistance(a: Vec, b: Vec, d: real)
  {
    d >= 0.0 && d * d == (b.x - a.x) * (b.x - a.x) + (b.y - a.y) * (b.y - a.y)
  }

  /** Distance is the magnitude of the difference, in either order. */
  lemma DistanceSymmetric(a: Vec, b: Vec, d: real)
    ensures IsDistance(a, b, d) <==> IsMagnitude(Subtract(b, a), d)
    ensures IsDistance(a, b, d) <==> IsDistance(b, a, d)
  {
    assert (a.x - b.x) * (a.x - b.x) == (b.x - a.x) * (b.x - a.x);
    assert (a.y - b.y) * (a.y - b.y) == (b.y - a.y) * (b.y - a.y);
  }

  /** `mv_normalize_point`: divides by the magnitude, so the vector must be non-zero. */
  function Normalize(v: Vec, m: real): (n: Vec)
    requires IsMagnitude(v, m) && v != Origin
    ensures m > 0.0
    ensures IsMagnitude(n, 1.0)
    ensures Multiply(n, m) == v
  {
    MagnitudeFacts(v, m, m);
    MultiplyLength(v, m, 1.0 / m);
    ReciprocalTimes(v.x, m);
    ReciprocalTimes(v.y, m);
    DivideTimes(v.x, m);
    DivideTimes(v.y, m);
    Divide(v, m)
  }

  /** `mv_scale_point(v, k)`: v's direction with length |k|. */
  function Scale(v: Vec, m: real, k: real): (r: Vec)
    requires IsMagnitude(v, m) && v != Origin
    ensures IsMagnitude(r, Abs(k))
    ensures m > 0.0 && r == Multiply(v, k / m)
  {
    var n := Normalize(v, m);
    MultiplyLength(n, 1.0, k);
    Multiply(n, k)
  }

  /** Scaling a vector of magnitude m by s gives magnitude |s|·m. */
  lemma MultiplyLength(v: Vec, m: real, s: real)
    requires IsMagnitude(v, m)
    ensures IsMagnitude(Multiply(v, s), Abs(s) * m)
  {
    var r := Multiply(v, s);
    var a := Abs(s);
    ScaledSquares(v.x, v.y, r.x, r.y, s);
    AbsSquare(s);
    SquareOfProduct(a, m);
    NonNegativeProduct(a, m);
  }
}
