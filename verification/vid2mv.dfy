/**
 * The video converter (`tools/vid2mv/vid2mv.py`) after OpenCV has found
 * each frame's contours: flipping y, thinning long contours, scaling, and
 * turning a frame into records padded to the configured length. The
 * per-contour conversion is the image converter's.
 */
module VideoConverter {
  import opened Wrappers
  import opened PyWire
  import opened Bits
  import Image = ImageConverter

  type Point = Image.Point
  type Contour = Image.Contour
  type Frame = seq<Contour>

  /** The exceptions the thinning step can raise for a limit that is not positive. */
  datatype PyError = ZeroDivisionError | ValueError

  /** `flatten_frames`: the image converter's flip applied to every frame; frames, contours and points keep their counts. */
  function FlattenFrames(frames: seq<Frame>, height: int): (r: seq<Frame>)
    ensures |r| == |frames|
    ensures forall f :: 0 <= f < |r| ==> |r[f]| == |frames[f]|
    ensures forall f, i :: 0 <= f < |r| && 0 <= i < |r[f]| ==> |r[f][i]| == |frames[f][i]|
    ensures forall f, i, j :: 0 <= f < |r| && 0 <= i < |r[f]| && 0 <= j < |r[f][i]| ==>
      r[f][i][j].0 == frames[f][i][j].0 && r[f][i][j].1 == height - frames[f][i][j].1
  {
    seq(|frames|, f requires 0 <= f < |frames| => Image.Flatten(frames[f], height))
  }

  /** Python's `//`: division rounding toward minus infinity. */
  function FloorDiv(a: int, b: int): (q: int)
    requires b != 0
    ensures b > 0 ==> b * q <= a < b * q + b
    ensures b < 0 ==> b * q >= a > b * q + b
  {
    if b > 0 then a / b else (-a) / (-b)
  }

  /** Every k-th element from index 0: `c[::k]` for k > 0. */
  function Every(c: Contour, k: nat): (r: Contour)
    requires k > 0
    ensures |r| == (|c| + k - 1) / k
    decreases |c|
  {
    if c == [] then []
    else
      var next := if k < |c| then k else |c|;
      var rest := Every(c[next..], k);
      assert |rest| == (|c| - next + k - 1) / k;
      Stride1(|c|, k, next);
      [c[0]] + rest
  }

  /** The length step of `Every`: one kept element plus the rest after k more. */
  lemma Stride1(n: nat, k: nat, next: nat)
    requires k > 0 && n > 0 && next == (if k < n then k else n)
    ensures 1 + (n - next + k - 1) / k == (n + k - 1) / k
  {
    if k < n {
      var d, r := (n - 1) / k, (n - 1) % k;
      assert n - 1 == d * k + r;
      assert n + k - 1 == (d + 1) * k + r;
      DivModUnique(d + 1, r, k);
    } else {
      DivModUnique(0, k - 1, k);
      assert n + k - 1 == 1 * k + (n - 1);
      DivModUnique(1, n - 1, k);
    }
  }

  /** Element i of `c[::k]` is `c[i * k]`. */
  lemma {:induction false} EveryAt(c: Contour, k: nat, i: nat)
    requires k > 0 && i < |Every(c, k)|
    ensures i * k < |c| && Every(c, k)[i] == c[i * k]
    decreases |c|
  {
    if i > 0 {
      var next := if k < |c| then k else |c|;
      EveryAt(c[next..], k, i - 1);
      assert next == k;
      assert (i - 1) * k + k == i * k;
    }
  }

  function Reverse(c: Contour): (r: Contour)
    ensures |r| == |c| && forall i :: 0 <= i < |c| ==> r[i] == c[|c| - 1 - i]
  {
    seq(|c|, i requires 0 <= i < |c| => c[|c| - 1 - i])
  }

  /** Python's slice `c[::step]`: forwards from the first element, or backwards from the last for a negative step. */
  function Stride(c: Contour, step: int): Contour
    requires step != 0
  {
    if step > 0 then Every(c, step) else Every(Reverse(c), -step)
  }

  /**
   * One contour of `limit_frames`: a contour longer than `limit` keeps every
   * (len // limit)-th point. A limit of 0 divides by zero, and a negative
   * limit gives a step of zero on an empty contour and a backwards step otherwise.
   */
  function LimitContour(c: Contour, limit: int): (r: Result<Contour, PyError>)
    ensures |c| <= limit ==> r == Ok(c)
    ensures r.Err? <==> |c| > limit && (limit == 0 || (limit < 0 && c == []))
  {
    if |c| > limit then
      if limit == 0 then Err(ZeroDivisionError)
      else
        var step := FloorDiv(|c|, limit);
        if step == 0 then Err(ValueError) else Ok(Stride(c, step))
    else Ok(c)
  }

  /** Point i of r is point i · step of c. */
  predicate Samples(r: Contour, c: Contour, step: nat)
  {
    forall i :: 0 <= i < |r| ==> i * step < |c| && r[i] == c[i * step]
  }

  /** Multiplying by a non-negative factor keeps order. */
  lemma MulMonotone(a: int, b: int, q: int)
    ensures q >= 0 && a <= b ==> a * q <= b * q
  {
    if q >= 0 && a <= b {
      assert b * q - a * q == (b - a) * q;
    }
  }

  /** A positive product with a positive factor has a positive other factor. */
  lemma PositiveFactor(a: int, q: int)
    ensures q > 0 && a * q > 0 ==> a > 0
  {
    MulMonotone(a, 0, q);
  }

  /** `x / q <= m` whenever `x < (m + 1) * q`. */
  lemma DivBelow(x: nat, q: nat, m: nat)
    requires q > 0 && x < (m + 1) * q
    ensures x / q <= m
  {
    assert x == (x / q) * q + x % q;
    MulMonotone(m + 1, x / q, q);
  }

  /** The arithmetic of `limit_frames`' step: at least 1, and it keeps at most 2 · limit − 1 and at most n points. */
  lemma ThinnedLength(n: nat, limit: nat)
    requires n > limit > 0
    ensures n / limit >= 1
    ensures (n + n / limit - 1) / (n / limit) <= 2 * limit - 1
    ensures (n + n / limit - 1) / (n / limit) <= n
  {
    var q := n / limit;
    assert n == q * limit + n % limit;
    PositiveFactor(q, limit);
    MulMonotone(0, limit - 1, q - 1);
    assert (limit - 1) * (q - 1) == limit * q - limit - q + 1;
    assert n + q - 1 < (2 * limit - 1 + 1) * q;
    DivBelow(n + q - 1, q, 2 * limit - 1);
    MulMonotone(1, q, n);
    assert n + q - 1 < (n + 1) * q;
    DivBelow(n + q - 1, q, n);
  }

  /** The arithmetic of the corrected step ⌈n / limit⌉: at least 1, and it keeps at most limit and at most n points. */
  lemma IntendedLength(n: nat, limit: nat)
    requires n > limit > 0
    ensures (n + limit - 1) / limit >= 1
    ensures var s := (n + limit - 1) / limit; (n + s - 1) / s <= limit && (n + s - 1) / s <= n
  {
    var s := (n + limit - 1) / limit;
    assert n + limit - 1 == s * limit + (n + limit - 1) % limit;
    assert s * limit >= n;
    PositiveFactor(s, limit);
    assert n + s - 1 < (limit + 1) * s;
    DivBelow(n + s - 1, s, limit);
    MulMonotone(1, s, n);
    assert n + s - 1 < (n + 1) * s;
    DivBelow(n + s - 1, s, n);
  }

  /**
   * What `limit_frames` actually guarantees for a positive limit: no point
   * is invented, the first is kept, point i is the (i · step)-th, and at
   * most 2 · limit − 1 points remain, not `limit`.
   */
  lemma LimitContourBound(c: Contour, limit: int)
    requires limit > 0
    ensures LimitContour(c, limit).Ok?
    ensures var r := LimitContour(c, limit).value;
      |r| <= |c| && (|c| > limit ==> |r| <= 2 * limit - 1)
    ensures var r := LimitContour(c, limit).value;
      |c| > limit ==> Samples(r, c, |c| / limit)
  {
    var n := |c|;
    if n > limit {
      ThinnedLength(n, limit);
      var q := n / limit;
      var r := Every(c, q);
      assert LimitContour(c, limit) == Ok(r);
      forall i | 0 <= i < |r| ensures i * q < |c| && r[i] == c[i * q] {
        EveryAt(c, q, i);
      }
    }
  }

  /** The bound is reached: 2 · limit − 1 points are all kept, since the step is 1. */
  lemma LimitKeepsAlmostTwice(c: Contour, limit: int)
    requires limit >= 2 && |c| == 2 * limit - 1
    ensures |c| > limit && LimitContour(c, limit) == Ok(c)
  {
    assert FloorDiv(|c|, limit) == 1 by {
      assert |c| == 1 * limit + (limit - 1);
      DivModUnique(1, limit - 1, limit);
    }
    EveryOne(c);
  }

  /** A stride of one keeps everything. */
  lemma {:induction false} EveryOne(c: Contour)
    ensures Every(c, 1) == c
    decreases |c|
  {
    if c != [] {
      EveryOne(c[1..]);
    }
  }

  /** Three points against a limit of two: all three survive. */
  lemma LimitCounterexample()
    ensures LimitContour([(0, 0), (1, 1), (2, 2)], 2) == Ok([(0, 0), (1, 1), (2, 2)])
  {
    LimitKeepsAlmostTwice([(0, 0), (1, 1), (2, 2)], 2);
  }

  /**
   * The thinning the docstring and the `points_per_frame` option describe:
   * a step of ⌈len / limit⌉, so that at most `limit` points remain. Limits
   * that are not positive behave as in `limit_frames`.
   */
  function LimitContourIntended(c: Contour, limit: int): (r: Result<Contour, PyError>)
    ensures |c| <= limit ==> r == Ok(c)
    ensures r.Err? <==> |c| > limit && (limit == 0 || (limit < 0 && c == []))
  {
    if |c| > limit && limit > 0 then Ok(Every(c, (|c| + limit - 1) / limit))
    else LimitContour(c, limit)
  }

  /** With the corrected step, a positive limit is never exceeded, the first point is kept, and point i is the (i · step)-th. */
  lemma LimitIntendedBound(c: Contour, limit: int)
    requires limit > 0
    ensures LimitContourIntended(c, limit).Ok?
    ensures var r := LimitContourIntended(c, limit).value;
      |r| <= limit && |r| <= |c| && (c != [] ==> r != [] && r[0] == c[0])
    ensures var r := LimitContourIntended(c, limit).value;
      |c| > limit ==> Samples(r, c, (|c| + limit - 1) / limit)
  {
    var n := |c|;
    if n > limit {
      IntendedLength(n, limit);
      var s := (n + limit - 1) / limit;
      var r := Every(c, s);
      forall i | 0 <= i < |r| ensures i * s < |c| && r[i] == c[i * s] {
        EveryAt(c, s, i);
      }
      EveryAt(c, s, 0);
    }
  }

  /** `limit_frames` on one frame: every contour thinned; the first failure is raised. */
  function LimitFrame(frame: Frame, limit: int): (r: Result<Frame, PyError>)
    ensures r.Ok? <==> forall i :: 0 <= i < |frame| ==> LimitContour(frame[i], limit).Ok?
    ensures r.Ok? ==> |r.value| == |frame| && forall i :: 0 <= i < |frame| ==> r.value[i] == LimitContour(frame[i], limit).value
    decreases |frame|
  {
    if frame == [] then Ok([])
    else
      match LimitContour(frame[0], limit)
      case Err(e) => Err(e)
      case Ok(head) =>
        match LimitFrame(frame[1..], limit)
        case Err(e) => Err(e)
        case Ok(tail) =>
          assert forall i :: 1 <= i < |frame| ==> frame[i] == frame[1..][i - 1];
          Ok([head] + tail)
  }

  /** `limit_frames`: every frame in turn. */
  function LimitFrames(frames: seq<Frame>, limit: int): (r: Result<seq<Frame>, PyError>)
    ensures r.Ok? <==> forall f :: 0 <= f < |frames| ==> LimitFrame(frames[f], limit).Ok?
    ensures r.Ok? ==> |r.value| == |frames| && forall f :: 0 <= f < |frames| ==> r.value[f] == LimitFrame(frames[f], limit).value
    decreases |frames|
  {
    if frames == [] then Ok([])
    else
      match LimitFrame(frames[0], limit)
      case Err(e) => Err(e)
      case Ok(head) =>
        match LimitFrames(frames[1..], limit)
        case Err(e) => Err(e)
        case Ok(tail) =>
          assert forall f :: 1 <= f < |frames| ==> frames[f] == frames[1..][f - 1];
          Ok([head] + tail)
  }

  /** With a positive limit nothing is raised, no contour of any frame gains points, and a thinned one keeps at most 2 · limit − 1. */
  lemma LimitFramesBound(frames: seq<Frame>, limit: int)
    requires limit > 0
    ensures LimitFrames(frames, limit).Ok?
    ensures var r := LimitFrames(frames, limit).value;
      forall f, i :: 0 <= f < |frames| && 0 <= i < |frames[f]| ==>
        |r[f][i]| <= |frames[f][i]| && (|frames[f][i]| > limit ==> |r[f][i]| <= 2 * limit - 1)
  {
    forall f, i | 0 <= f < |frames| && 0 <= i < |frames[f]|
      ensures LimitContour(frames[f][i], limit).Ok?
      ensures |LimitContour(frames[f][i], limit).value| <= |frames[f][i]|
      ensures |frames[f][i]| > limit ==> |LimitContour(frames[f][i], limit).value| <= 2 * limit - 1
    {
      LimitContourBound(frames[f][i], limit);
    }
  }

  /** `upscale_image`: every coordinate multiplied by the factor; an empty frame stays empty. */
  function Upscale(contours: Frame, factor: int): (r: Frame)
    ensures |r| == |contours| && forall i :: 0 <= i < |r| ==> |r[i]| == |contours[i]|
    ensures forall i, j :: 0 <= i < |r| && 0 <= j < |r[i]| ==>
      r[i][j] == (contours[i][j].0 * factor, contours[i][j].1 * factor)
  {
    if |contours| == 0 then []
    else
      seq(|contours|, i requires 0 <= i < |contours| =>
        seq(|contours[i]|, j requires 0 <= j < |contours[i]| => (contours[i][j].0 * factor, contours[i][j].1 * factor)))
  }

  /** A non-zero factor loses nothing: different frames stay different after scaling. */
  lemma UpscaleInjective(a: Frame, b: Frame, factor: int)
    requires factor != 0 && Upscale(a, factor) == Upscale(b, factor)
    ensures a == b
  {
    var ra, rb := Upscale(a, factor), Upscale(b, factor);
    forall i | 0 <= i < |a| ensures a[i] == b[i] {
      forall j | 0 <= j < |a[i]| ensures a[i][j] == b[i][j] {
        assert ra[i][j] == rb[i][j];
        assert a[i][j].0 * factor == b[i][j].0 * factor;
        assert a[i][j].1 * factor == b[i][j].1 * factor;
        CancelFactor(a[i][j].0, b[i][j].0, factor);
        CancelFactor(a[i][j].1, b[i][j].1, factor);
      }
    }
  }

  lemma CancelFactor(x: int, y: int, factor: int)
    requires factor != 0 && x * factor == y * factor
    ensures x == y
  {
    assert (x - y) * factor == 0;
  }

  /**
   * `convert_to_instructions` of vid2mv: the image conversion, then, while
   * the frame is shorter than `instructions_per_frame`, one POWER_OFF and
   * then COORDS records of value 0.
   */
  method ConvertToInstructions(contours: Frame, perFrame: int) returns (r: seq<Instruction>)
    ensures var natural := Image.Convert(contours);
      |r| == (if |natural| < perFrame then perFrame else |natural|) && r[..|natural|] == natural
    ensures var natural := Image.Convert(contours);
      |r| > |natural| ==> r[|natural|] == PowerOffRecord
    ensures var natural := Image.Convert(contours);
      forall k :: |natural| < k < |r| ==> r[k] == Instruction(CoordsType, 0)
  {
    r := Image.Convert(contours);
    var natural := |r|;
    var first := true;
    while |r| < perFrame
      invariant |r| >= natural && r[..natural] == Image.Convert(contours)
      invariant first <==> |r| == natural
      invariant |r| > natural ==> r[natural] == PowerOffRecord
      invariant forall k :: natural < k < |r| ==> r[k] == Instruction(CoordsType, 0)
      invariant |r| <= (if natural < perFrame then perFrame else natural)
      decreases perFrame - |r|
    {
      if first {
        r := r + [PowerOffRecord];
        first := false;
      } else {
        r := r + [Instruction(CoordsType, 0)];
      }
    }
  }
}
