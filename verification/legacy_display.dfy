/**
 * The C tree's legacy point display (`source/legacy/display.c`): a zeroed
 * array of `MV_MAX_DISPLAY_POINTS` points filled by single points and by
 * two-point lines. Writes past the array are an error value.
 */
module LegacyDisplay {
  import opened Wrappers
  import opened Bytes
  import opened Vec

  /** `MV_MAX_DISPLAY_POINTS` of `legacy/display.h`. */
  const MaxPoints: nat := 4096

  datatype Display = Display(points: seq<Vec>, count: nat)

  /** A write to `points[index]` with `index` past the array. */
  datatype Fault = OutOfBounds(index: nat)

  predicate Valid(d: Display)
  {
    |d.points| == MaxPoints && d.count <= MaxPoints
  }

  /** The points added since the last clear. */
  function Live(d: Display): seq<Vec>
    requires Valid(d)
  {
    d.points[..d.count]
  }

  /** What `calloc` returns: every point at the origin. */
  function Zeroed(): (s: seq<Vec>)
    ensures |s| == MaxPoints && forall i :: 0 <= i < MaxPoints ==> s[i] == Origin
  {
    seq(MaxPoints, _ => Origin)
  }

  /** `mv_create_legacy_display`. */
  function Create(): (d: Display)
    ensures Valid(d) && Live(d) == [] && d.points == Zeroed()
  {
    Display(Zeroed(), 0)
  }

  /** `points[point_count++] = p`. */
  function Append(d: Display, p: Vec): (r: Result<Display, Fault>)
    requires Valid(d)
    ensures r.Ok? <==> d.count < MaxPoints
    ensures r.Err? ==> r.error == OutOfBounds(d.count)
    ensures r.Ok? ==> Valid(r.value) && Live(r.value) == Live(d) + [p]
  {
    if d.count < MaxPoints then
      var d' := Display(d.points[d.count := p], d.count + 1);
      assert Live(d') == Live(d) + [p];
      Ok(d')
    else
      Err(OutOfBounds(d.count))
  }

  /** `mv_add_point_legacy`: ignored at capacity, otherwise one point is appended. */
  function AddPoint(d: Display, x: i16, y: i16): (d': Display)
    requires Valid(d)
    ensures Valid(d')
    ensures d.count == MaxPoints ==> d' == d
    ensures d.count < MaxPoints ==> Live(d') == Live(d) + [Vec(x as real, y as real)]
  {
    if d.count >= MaxPoints then d
    else Append(d, Vec(x as real, y as real)).value
  }

  /**
   * `mv_draw_line_legacy` as written: the capacity test only guards the first
   * write, so at count 4095 the second write lands at index 4096.
   */
  function DrawLineAsWritten(d: Display, x0: i16, y0: i16, x1: i16, y1: i16): (r: Result<Display, Fault>)
    requires Valid(d)
    ensures d.count == MaxPoints ==> r == Ok(d)
    ensures r.Err? <==> d.count == MaxPoints - 1
    ensures r.Err? ==> r.error == OutOfBounds(MaxPoints)
    ensures r.Ok? && d.count < MaxPoints ==>
      Valid(r.value) && Live(r.value) == Live(d) + [Vec(x0 as real, y0 as real), Vec(x1 as real, y1 as real)]
  {
    if d.count >= MaxPoints then Ok(d)
    else
      // The capacity check above keeps the first write inside the array.
      var first := Append(d, Vec(x0 as real, y0 as real)).value;
      Append(first, Vec(x1 as real, y1 as real))
  }

  /** `mv_clear_display_legacy`: a fresh zeroed array and count 0. */
  function Clear(d: Display): (d': Display)
    ensures Valid(d') && Live(d') == [] && d' == Create()
  {
    Display(Zeroed(), 0)
  }

  /** The display after n single points at the origin, from a fresh display. */
  function AddPoints(n: nat): (d: Display)
    ensures Valid(d)
  {
    if n == 0 then Create() else AddPoint(AddPoints(n - 1), 0, 0)
  }

  lemma {:induction false} AddPointsCount(n: nat)
    requires n <= MaxPoints
    ensures AddPoints(n).count == n
  {
    if n > 0 {
      AddPointsCount(n - 1);
    }
  }

  /** Single points alone can fill the display but never pass its end. */
  lemma {:induction false} AddPointsSaturate(n: nat)
    ensures AddPoints(n).count == if n <= MaxPoints then n else MaxPoints
  {
    if n > 0 {
      AddPointsSaturate(n - 1);
    }
  }

  /** 4095 single points followed by one line: the line's second write is past the array. */
  lemma DrawLineOverflowReachable()
    ensures AddPoints(MaxPoints - 1).count == MaxPoints - 1
    ensures DrawLineAsWritten(AddPoints(MaxPoints - 1), 0, 0, 0, 0) == Err(OutOfBounds(MaxPoints))
  {
    AddPointsCount(MaxPoints - 1);
  }

  /** `mv_draw_line_legacy` with the capacity test the two writes need: room for both points or no write at all. */
  function DrawLine(d: Display, x0: i16, y0: i16, x1: i16, y1: i16): (d': Display)
    requires Valid(d)
    ensures Valid(d')
    ensures d.count + 2 > MaxPoints ==> d' == d
    ensures d.count + 2 <= MaxPoints ==> Live(d') == Live(d) + [Vec(x0 as real, y0 as real), Vec(x1 as real, y1 as real)]
  {
    if d.count + 2 > MaxPoints then d
    else DrawLineAsWritten(d, x0, y0, x1, y1).value
  }

  /** The two line operations agree everywhere except at count 4095, where only the guarded one stays in bounds. */
  lemma DrawLineAgreesBelowLastSlot(d: Display, x0: i16, y0: i16, x1: i16, y1: i16)
    requires Valid(d) && d.count != MaxPoints - 1
    ensures DrawLineAsWritten(d, x0, y0, x1, y1) == Ok(DrawLine(d, x0, y0, x1, y1))
  {
  }

  /** The operations a caller of the legacy display can issue. */
  datatype Op = Point(x: i16, y: i16) | Line(x0: i16, y0: i16, x1: i16, y1: i16) | ClearOp

  /** The display after a sequence of operations, with the guarded line. */
  function Run(d: Display, ops: seq<Op>): (d': Display)
    requires Valid(d)
    ensures Valid(d')
    decreases |ops|
  {
    if ops == [] then d
    else
      var next := match ops[0]
        case Point(x, y) => AddPoint(d, x, y)
        case Line(x0, y0, x1, y1) => DrawLine(d, x0, y0, x1, y1)
        case ClearOp => Clear(d);
      Run(next, ops[1..])
  }

  /** Without a clear, no live point is ever lost or moved: the live list only grows at its end. */
  lemma {:induction false} RunKeepsPrefix(d: Display, ops: seq<Op>)
    requires Valid(d)
    requires forall k :: 0 <= k < |ops| ==> !ops[k].ClearOp?
    ensures Live(d) <= Live(Run(d, ops))
    decreases |ops|
  {
    if ops != [] {
      var next := match ops[0]
        case Point(x, y) => AddPoint(d, x, y)
        case Line(x0, y0, x1, y1) => DrawLine(d, x0, y0, x1, y1)
        case ClearOp => Clear(d);
      RunKeepsPrefix(next, ops[1..]);
    }
  }
}
