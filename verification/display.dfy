/**
 * The C tree's bounded point display (`source/display.c`): a fixed array of
 * `MV_MAX_DISPLAY_POINTS` points of which the first `point_count` are live.
 * Array writes are explicit so that an index past the array is an error
 * value rather than undefined behaviour.
 */
module Display {
  import opened Wrappers
  import opened Bytes
  import opened Vec

  /** `MV_MAX_DISPLAY_POINTS`. */
  const MaxPoints: nat := 4096

  datatype Display = Display(points: seq<Vec>, count: nat)

  /** A write to `points[index]` with `index` past the array. */
  datatype Fault = OutOfBounds(index: nat)

  /** The array has its fixed size and the count never passes it. */
  predicate Valid(d: Display)
  {
    |d.points| == MaxPoints && d.count <= MaxPoints
  }

  /** The points drawn since the last clear. */
  function Live(d: Display): seq<Vec>
    requires Valid(d)
  {
    d.points[..d.count]
  }

  /** `mv_create_display`: `malloc` leaves the array as it found it, so its contents are a parameter. */
  function Create(memory: seq<Vec>): (d: Display)
    requires |memory| == MaxPoints
    ensures Valid(d) && Live(d) == [] && d.points == memory
  {
    Display(memory, 0)
  }

  /** `points[point_count++] = p`. */
  function Append(d: Display, p: Vec): (r: Result<Display, Fault>)
    requires Valid(d)
    ensures r.Ok? <==> d.count < MaxPoints
    ensures r.Err? ==> r.error == OutOfBounds(d.count)
    ensures r.Ok? ==> Valid(r.value) && Live(r.value) == Live(d) + [p]
    ensures r.Ok? ==> forall i :: d.count < i < MaxPoints ==> r.value.points[i] == d.points[i]
  {
    if d.count < MaxPoints then
      var d' := Display(d.points[d.count := p], d.count + 1);
      assert Live(d') == Live(d) + [p];
      Ok(d')
    else
      Err(OutOfBounds(d.count))
  }

  /**
   * `mv_draw_line`: nothing happens once the count has reached the capacity;
   * otherwise both end points are written, the second one without a check.
   */
  function DrawLine(d: Display, x0: i32, y0: i32, x1: i32, y1: i32): (r: Result<Display, Fault>)
    requires Valid(d)
    ensures d.count >= MaxPoints ==> r == Ok(d)
    ensures r.Err? <==> d.count == MaxPoints - 1
    ensures r.Ok? ==> Valid(r.value)
    ensures r.Ok? && d.count < MaxPoints ==>
      Live(r.value) == Live(d) + [Vec(x0 as real, y0 as real), Vec(x1 as real, y1 as real)]
  {
    if d.count >= MaxPoints then Ok(d)
    else
      // The capacity check above keeps the first write inside the array.
      var first := Append(d, Vec(x0 as real, y0 as real)).value;
      Append(first, Vec(x1 as real, y1 as real))
  }

  /** `mv_clear_display`: only the count is reset; the old points stay in the array. */
  function Clear(d: Display): (d': Display)
    requires Valid(d)
    ensures Valid(d') && Live(d') == [] && d'.points == d.points
  {
    d.(count := 0)
  }

  /** Lines always occupy two slots, so the count stays even and the unchecked second write stays inside the array. */
  predicate Even(d: Display)
  {
    d.count % 2 == 0
  }

  lemma EvenCountNeverFaults(d: Display, x0: i32, y0: i32, x1: i32, y1: i32)
    requires Valid(d) && Even(d)
    ensures DrawLine(d, x0, y0, x1, y1).Ok?
    ensures Valid(DrawLine(d, x0, y0, x1, y1).value) && Even(DrawLine(d, x0, y0, x1, y1).value)
    ensures Even(Clear(d)) && Even(Create(d.points))
  {
  }

  /** The operations a caller of the display can issue. */
  datatype Op = Line(x0: i32, y0: i32, x1: i32, y1: i32) | ClearOp

  /** The display after a sequence of operations, or the first fault. */
  function Run(d: Display, ops: seq<Op>): Result<Display, Fault>
    requires Valid(d)
    decreases |ops|
  {
    if ops == [] then Ok(d)
    else
      var next :- match ops[0]
        case Line(x0, y0, x1, y1) => DrawLine(d, x0, y0, x1, y1)
        case ClearOp => Ok(Clear(d));
      Run(next, ops[1..])
  }

  /** From a fresh display, no sequence of lines and clears ever writes past the array. */
  lemma {:induction false} RunNeverFaults(d: Display, ops: seq<Op>)
    requires Valid(d) && Even(d)
    ensures Run(d, ops).Ok? && Valid(Run(d, ops).value) && Even(Run(d, ops).value)
    decreases |ops|
  {
    if ops != [] {
      match ops[0]
      case Line(x0, y0, x1, y1) =>
        EvenCountNeverFaults(d, x0, y0, x1, y1);
        RunNeverFaults(DrawLine(d, x0, y0, x1, y1).value, ops[1..]);
      case ClearOp =>
        RunNeverFaults(Clear(d), ops[1..]);
    }
  }
}
