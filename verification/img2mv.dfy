/**
 * The still-image converter (`tools/img2mv/img2mv.py`) after OpenCV has
 * found the contours: flipping y so that it grows upwards, and turning
 * contours into instruction records. The same two steps, frame by frame,
 * are the core of the video converter.
 */
module ImageConverter {
  import opened PyWire

  /** A contour point; OpenCV gives integer pixel coordinates. */
  type Point = (int, int)
  type Contour = seq<Point>

  /** A point whose coordinates each fit the 16 bits of a packed record. */
  predicate Fits(p: Point)
  {
    0 <= p.0 < 0x1_0000 && 0 <= p.1 < 0x1_0000
  }

  /** One contour of `flatten_frames`: y becomes `resolution[1] - y`. */
  function FlipContour(c: Contour, height: int): (r: Contour)
    ensures |r| == |c|
    ensures forall j :: 0 <= j < |c| ==> r[j].0 == c[j].0 && r[j].1 + c[j].1 == height
  {
    seq(|c|, j requires 0 <= j < |c| => (c[j].0, height - c[j].1))
  }

  /** `flatten_frames`: contours keep their order and sizes, and every y is measured from the bottom edge. */
  function Flatten(contours: seq<Contour>, height: int): (r: seq<Contour>)
    ensures |r| == |contours|
    ensures forall i :: 0 <= i < |r| ==> |r[i]| == |contours[i]|
    ensures forall i, j :: 0 <= i < |r| && 0 <= j < |r[i]| ==> r[i][j].0 == contours[i][j].0 && r[i][j].1 == height - contours[i][j].1
  {
    seq(|contours|, i requires 0 <= i < |contours| => FlipContour(contours[i], height))
  }

  /** Flipping twice against the same height gives the contours back. */
  lemma FlattenTwice(contours: seq<Contour>, height: int)
    ensures Flatten(Flatten(contours, height), height) == contours
  {
    var twice := Flatten(Flatten(contours, height), height);
    forall i | 0 <= i < |contours| ensures twice[i] == contours[i] {
      assert |twice[i]| == |contours[i]|;
      forall j | 0 <= j < |contours[i]| ensures twice[i][j] == contours[i][j] {
      }
    }
  }

  /** The inner loop over a contour's points: each point's record, and POWER_ON after the first while `turned_off`. */
  function PointRecords(c: Contour, turnedOff: bool): (r: seq<Instruction>)
    decreases |c|
  {
    if c == [] then []
    else [CoordsRecord(c[0].0, c[0].1)] + (if turnedOff then [PowerOnRecord] else []) + PointRecords(c[1..], false)
  }

  /** Once the pen is on, every point is exactly one COORDS record, in order. */
  lemma {:induction false} PointRecordsPlain(c: Contour)
    ensures |PointRecords(c, false)| == |c|
    ensures forall k :: 0 <= k < |c| ==> PointRecords(c, false)[k] == CoordsRecord(c[k].0, c[k].1)
    decreases |c|
  {
    if c != [] {
      PointRecordsPlain(c[1..]);
      var r := PointRecords(c, false);
      assert r == [CoordsRecord(c[0].0, c[0].1)] + PointRecords(c[1..], false);
      forall k | 1 <= k < |c| ensures r[k] == CoordsRecord(c[k].0, c[k].1) {
        assert r[k] == PointRecords(c[1..], false)[k - 1];
      }
    }
  }

  /**
   * The records of one contour: POWER_OFF, then for a non-empty contour the
   * first point, POWER_ON, and the remaining points in order.
   */
  function ContourRecords(c: Contour): (r: seq<Instruction>)
    ensures |r| == if c == [] then 1 else |c| + 2
    ensures r[0] == PowerOffRecord
    ensures c != [] ==> r[1] == CoordsRecord(c[0].0, c[0].1) && r[2] == PowerOnRecord
    ensures forall k :: 1 <= k < |c| ==> r[k + 2] == CoordsRecord(c[k].0, c[k].1)
  {
    if c == [] then [PowerOffRecord]
    else
      PointRecordsPlain(c[1..]);
      [PowerOffRecord] + PointRecords(c, true)
  }

  /** `convert_to_instructions`: the records of each contour in turn. */
  function Convert(contours: seq<Contour>): seq<Instruction>
    decreases |contours|
  {
    if contours == [] then [] else ContourRecords(contours[0]) + Convert(contours[1..])
  }

  /** All points of all contours, in order. */
  function Concat(contours: seq<Contour>): seq<Point>
    decreases |contours|
  {
    if contours == [] then [] else contours[0] + Concat(contours[1..])
  }

  /** How many contours have at least one point. */
  function NonEmpty(contours: seq<Contour>): nat
    decreases |contours|
  {
    if contours == [] then 0 else (if contours[0] != [] then 1 else 0) + NonEmpty(contours[1..])
  }

  /** One type count step: the first record and the rest. */
  lemma CountTypeCons(x: Instruction, xs: seq<Instruction>, t: int)
    ensures CountType([x] + xs, t) == (if x.typeByte == t then 1 else 0) + CountType(xs, t)
  {
    assert ([x] + xs)[1..] == xs;
  }

  /** The point loop emits one COORDS per point and one POWER_ON, only when it starts turned off on a non-empty contour. */
  lemma {:induction false} PointRecordCounts(c: Contour, turnedOff: bool)
    ensures CountType(PointRecords(c, turnedOff), CoordsType) == |c|
    ensures CountType(PointRecords(c, turnedOff), PowerOnType) == (if turnedOff && c != [] then 1 else 0)
    ensures CountType(PointRecords(c, turnedOff), PowerOffType) == 0
    decreases |c|
  {
    if c != [] {
      PointRecordCounts(c[1..], false);
      var x := CoordsRecord(c[0].0, c[0].1);
      var rest := PointRecords(c[1..], false);
      var power: seq<Instruction> := if turnedOff then [PowerOnRecord] else [];
      assert PointRecords(c, turnedOff) == [x] + (power + rest);
      if turnedOff {
        assert power + rest == [PowerOnRecord] + rest;
        CountTypeCons(PowerOnRecord, rest, CoordsType);
        CountTypeCons(PowerOnRecord, rest, PowerOnType);
        CountTypeCons(PowerOnRecord, rest, PowerOffType);
      } else {
        assert power + rest == rest;
      }
      CountTypeCons(x, power + rest, CoordsType);
      CountTypeCons(x, power + rest, PowerOnType);
      CountTypeCons(x, power + rest, PowerOffType);
    }
  }

  /** The records of one contour by type: one POWER_OFF, a POWER_ON if it has points, and one COORDS per point. */
  lemma ContourRecordCounts(c: Contour)
    ensures CountType(ContourRecords(c), PowerOffType) == 1
    ensures CountType(ContourRecords(c), PowerOnType) == (if c == [] then 0 else 1)
    ensures CountType(ContourRecords(c), CoordsType) == |c|
  {
    PointRecordCounts(c, true);
    assert ContourRecords(c) == [PowerOffRecord] + PointRecords(c, true);
    CountTypeCons(PowerOffRecord, PointRecords(c, true), PowerOffType);
    CountTypeCons(PowerOffRecord, PointRecords(c, true), PowerOnType);
    CountTypeCons(PowerOffRecord, PointRecords(c, true), CoordsType);
  }

  /**
   * A converted image has one POWER_OFF per contour, one POWER_ON per
   * non-empty contour and one COORDS per point: |c| + 2 records for each
   * non-empty contour and 1 for each empty one.
   */
  lemma {:induction false} ConvertCounts(contours: seq<Contour>)
    ensures CountType(Convert(contours), PowerOffType) == |contours|
    ensures CountType(Convert(contours), PowerOnType) == NonEmpty(contours)
    ensures CountType(Convert(contours), CoordsType) == |Concat(contours)|
    ensures |Convert(contours)| == |Concat(contours)| + |contours| + NonEmpty(contours)
    decreases |contours|
  {
    if contours != [] {
      ConvertCounts(contours[1..]);
      ContourRecordCounts(contours[0]);
      var head := ContourRecords(contours[0]);
      CountTypeAppend(head, Convert(contours[1..]), PowerOffType);
      CountTypeAppend(head, Convert(contours[1..]), PowerOnType);
      CountTypeAppend(head, Convert(contours[1..]), CoordsType);
    }
  }

  /** The point one record carries: the two halves of a COORDS value, and nothing for any other type. */
  function Decoded(x: Instruction): seq<Point>
  {
    if x.typeByte == CoordsType then [(x.value / 0x1_0000, x.value % 0x1_0000)] else []
  }

  /** The points a reader recovers from a record list. */
  function Coordinates(xs: seq<Instruction>): seq<Point>
    decreases |xs|
  {
    if xs == [] then [] else Decoded(xs[0]) + Coordinates(xs[1..])
  }

  lemma {:induction false} CoordinatesAppend(a: seq<Instruction>, b: seq<Instruction>)
    ensures Coordinates(a + b) == Coordinates(a) + Coordinates(b)
    decreases |a|
  {
    if a == [] {
      assert a + b == b;
    } else {
      var ab := a + b;
      assert ab[0] == a[0] && ab[1..] == a[1..] + b;
      CoordinatesAppend(a[1..], b);
      assert Coordinates(ab) == Decoded(a[0]) + Coordinates(a[1..] + b);
      assert Coordinates(a) == Decoded(a[0]) + Coordinates(a[1..]);
    }
  }

  /** One decoding step: the first record and the rest. */
  lemma CoordinatesCons(x: Instruction, xs: seq<Instruction>)
    ensures Coordinates([x] + xs) == Decoded(x) + Coordinates(xs)
  {
    assert ([x] + xs)[1..] == xs;
  }

  /** A point's record decodes to the point when both coordinates fit 16 bits. */
  lemma CoordsRecordDecodes(p: Point, xs: seq<Instruction>)
    requires Fits(p)
    ensures Coordinates([CoordsRecord(p.0, p.1)] + xs) == [p] + Coordinates(xs)
  {
    PackHalves(p.0, p.1);
    assert Decoded(CoordsRecord(p.0, p.1)) == [p];
    CoordinatesCons(CoordsRecord(p.0, p.1), xs);
  }

  /** Every point of a contour fits 16 bits. */
  predicate AllFit(c: Contour)
  {
    forall k :: 0 <= k < |c| ==> Fits(c[k])
  }

  /** A POWER_ON record in front decodes to nothing. */
  lemma PowerOnDecodesToNothing(xs: seq<Instruction>, turnedOff: bool)
    ensures Coordinates((if turnedOff then [PowerOnRecord] else []) + xs) == Coordinates(xs)
  {
    if turnedOff {
      CoordinatesCons(PowerOnRecord, xs);
    } else {
      assert [] + xs == xs;
    }
  }

  /** One step of the point loop. */
  lemma PointRecordsUnfold(c: Contour, turnedOff: bool)
    requires c != []
    ensures PointRecords(c, turnedOff) == [CoordsRecord(c[0].0, c[0].1)] + ((if turnedOff then [PowerOnRecord] else []) + PointRecords(c[1..], false))
  {
  }

  /** The COORDS records of the point loop decode to the contour's points. */
  lemma {:induction false} PointRecordsDecode(c: Contour, turnedOff: bool)
    requires AllFit(c)
    ensures Coordinates(PointRecords(c, turnedOff)) == c
    decreases |c|
  {
    if c != [] {
      var tail := c[1..];
      assert AllFit(tail) by {
        forall k | 0 <= k < |tail| ensures Fits(tail[k]) {
          assert tail[k] == c[k + 1];
        }
      }
      PointRecordsDecode(tail, false);
      var rest := PointRecords(tail, false);
      var power: seq<Instruction> := if turnedOff then [PowerOnRecord] else [];
      PowerOnDecodesToNothing(rest, turnedOff);
      PointRecordsUnfold(c, turnedOff);
      CoordsRecordDecodes(c[0], power + rest);
      assert c == [c[0]] + tail;
    }
  }

  /** The records of one contour decode to its points. */
  lemma ContourRecordsDecode(c: Contour)
    requires AllFit(c)
    ensures Coordinates(ContourRecords(c)) == c
  {
    PointRecordsDecode(c, true);
    assert ContourRecords(c) == [PowerOffRecord] + PointRecords(c, true);
    CoordinatesCons(PowerOffRecord, PointRecords(c, true));
  }

  /** When every point fits 16 bits, reading the COORDS records of a conversion back gives every point of every contour, in order. */
  lemma {:induction false} ConvertDecodes(contours: seq<Contour>)
    requires forall i :: 0 <= i < |contours| ==> AllFit(contours[i])
    ensures Coordinates(Convert(contours)) == Concat(contours)
    decreases |contours|
  {
    if contours != [] {
      var c, rest := contours[0], contours[1..];
      forall i | 0 <= i < |rest| ensures AllFit(rest[i]) {
        assert rest[i] == contours[i + 1];
      }
      ConvertDecodes(rest);
      ContourRecordsDecode(c);
      assert Convert(contours) == ContourRecords(c) + Convert(rest);
      assert Concat(contours) == c + Concat(rest);
      CoordinatesAppend(ContourRecords(c), Convert(rest));
    }
  }
}
