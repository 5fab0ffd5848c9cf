/**
 * The text renderer of the font test (`FontRenderer.render` and
 * `send_instructions` in `test/font_rendering.py`). A glyph is a list of
 * grid points, each with the beam state to draw it with; the renderer keeps
 * the beam state across characters and calls and emits a power record only
 * when it changes. Where a grid point lands on screen (scale, position and
 * the 1.5 character spacing, through `int`) is the parameter `place`.
 * What the records put on screen is stated through `Drawn`, an independent
 * replay of the power records that pairs each COORDS record with the beam
 * state in force when it arrives.
 */
module FontRendering {
  import opened PyWire

  datatype GlyphPoint = GlyphPoint(x: int, y: int, on: bool)

  type Font = map<char, seq<GlyphPoint>>

  /** Screen coordinates of grid point (x, y) of the character at index i on line `line`. */
  type Place = (int, int, nat, nat) -> (int, int)

  /** `self.on` and `self.line`. */
  datatype Renderer = Renderer(on: bool, line: nat)

  /** The record that switches the beam to `on`. */
  function PowerRecord(on: bool): Instruction
  {
    if on then PowerOnRecord else PowerOffRecord
  }

  /** How often a run of beam states differs from the state before it, starting from `on`. */
  function Changes(on: bool, points: seq<GlyphPoint>): nat
    decreases |points|
  {
    if points == [] then 0 else (if points[0].on != on then 1 else 0) + Changes(points[0].on, points[1..])
  }

  /** The beam state after a run of points: the last point's, or `on` if there is none. */
  function LastState(on: bool, points: seq<GlyphPoint>): bool
  {
    if points == [] then on else points[|points| - 1].on
  }

  /** The inner loop of `render` over one glyph: a power record when the state changes, then the point. */
  function Glyph(points: seq<GlyphPoint>, on: bool, i: nat, line: nat, place: Place): (r: (seq<Instruction>, bool))
    decreases |points|
  {
    if points == [] then ([], on)
    else
      var p := points[0];
      var power := if p.on != on then [PowerRecord(p.on)] else [];
      var xy := place(p.x, p.y, i, line);
      var rest := Glyph(points[1..], p.on, i, line, place);
      (power + [CoordsRecord(xy.0, xy.1)] + rest.0, rest.1)
  }

  /**
   * A glyph yields one COORDS record per point and one power record per
   * change of state, and leaves the tracked state at the last point's.
   * What each record holds is `GlyphDraws`.
   */
  lemma {:induction false} GlyphCounts(points: seq<GlyphPoint>, on: bool, i: nat, line: nat, place: Place)
    ensures var r := Glyph(points, on, i, line, place);
      CountType(r.0, CoordsType) == |points|
      && CountType(r.0, PowerOnType) + CountType(r.0, PowerOffType) == Changes(on, points)
      && r.1 == LastState(on, points)
    decreases |points|
  {
    if points != [] {
      var p := points[0];
      var power := if p.on != on then [PowerRecord(p.on)] else [];
      var xy := place(p.x, p.y, i, line);
      var rest := Glyph(points[1..], p.on, i, line, place);
      GlyphCounts(points[1..], p.on, i, line, place);
      CountTypeAppend(power + [CoordsRecord(xy.0, xy.1)], rest.0, CoordsType);
      CountTypeAppend(power + [CoordsRecord(xy.0, xy.1)], rest.0, PowerOnType);
      CountTypeAppend(power + [CoordsRecord(xy.0, xy.1)], rest.0, PowerOffType);
      CountTypeAppend(power, [CoordsRecord(xy.0, xy.1)], CoordsType);
      CountTypeAppend(power, [CoordsRecord(xy.0, xy.1)], PowerOnType);
      CountTypeAppend(power, [CoordsRecord(xy.0, xy.1)], PowerOffType);
      if |points| > 1 {
        assert points[1..][|points[1..]| - 1] == points[|points| - 1];
      }
    }
  }

  // ----- What the device draws -----

  /**
   * The device's view of a record stream, replayed from beam state `on`:
   * every record other than POWER_ON and POWER_OFF, paired with the beam
   * state in force when it arrives.
   */
  function Drawn(on: bool, rs: seq<Instruction>): seq<(Instruction, bool)>
    decreases |rs|
  {
    if rs == [] then []
    else if rs[0].typeByte == PowerOnType then Drawn(true, rs[1..])
    else if rs[0].typeByte == PowerOffType then Drawn(false, rs[1..])
    else [(rs[0], on)] + Drawn(on, rs[1..])
  }

  /** The beam state after replaying a record stream from `on`. */
  function Beam(on: bool, rs: seq<Instruction>): bool
    decreases |rs|
  {
    if rs == [] then on
    else if rs[0].typeByte == PowerOnType then Beam(true, rs[1..])
    else if rs[0].typeByte == PowerOffType then Beam(false, rs[1..])
    else Beam(on, rs[1..])
  }

  /** Every POWER_ON and POWER_OFF in the stream changes the beam state: none is redundant. */
  predicate Switches(on: bool, rs: seq<Instruction>)
    decreases |rs|
  {
    rs == []
    || (if rs[0].typeByte == PowerOnType then !on && Switches(true, rs[1..])
        else if rs[0].typeByte == PowerOffType then on && Switches(false, rs[1..])
        else Switches(on, rs[1..]))
  }

  /** A lone power record for a different state is a switch to that state and draws nothing. */
  lemma SwitchRecord(on: bool, b: bool)
    requires b != on
    ensures Drawn(on, [PowerRecord(b)]) == [] && Beam(on, [PowerRecord(b)]) == b && Switches(on, [PowerRecord(b)])
  {
    assert [PowerRecord(b)][1..] == [];
  }

  /** Replaying a concatenation is replaying the first part, then the second from where the first left the beam. */
  lemma {:induction false} ReplayAppend(on: bool, a: seq<Instruction>, b: seq<Instruction>)
    ensures Drawn(on, a + b) == Drawn(on, a) + Drawn(Beam(on, a), b)
    ensures Beam(on, a + b) == Beam(Beam(on, a), b)
    ensures Switches(on, a + b) <==> Switches(on, a) && Switches(Beam(on, a), b)
    decreases |a|
  {
    if a == [] {
      assert a + b == b;
    } else {
      assert (a + b)[0] == a[0] && (a + b)[1..] == a[1..] + b;
      var next := if a[0].typeByte == PowerOnType then true else if a[0].typeByte == PowerOffType then false else on;
      ReplayAppend(next, a[1..], b);
    }
  }

  /** What a glyph should put on screen: each point at its placed coordinates, in its own beam state. */
  function Expected(points: seq<GlyphPoint>, i: nat, line: nat, place: Place): (e: seq<(Instruction, bool)>)
    ensures |e| == |points|
    ensures forall k :: 0 <= k < |points| ==>
      e[k] == (CoordsRecord(place(points[k].x, points[k].y, i, line).0, place(points[k].x, points[k].y, i, line).1), points[k].on)
    decreases |points|
  {
    if points == [] then []
    else
      var xy := place(points[0].x, points[0].y, i, line);
      [(CoordsRecord(xy.0, xy.1), points[0].on)] + Expected(points[1..], i, line, place)
  }

  /**
   * A glyph's records, replayed from the tracked state, draw every point at
   * its placed coordinates in the point's own beam state; every power record
   * is a real switch; and the beam ends in the state the renderer tracks.
   */
  lemma {:induction false} GlyphDraws(points: seq<GlyphPoint>, on: bool, i: nat, line: nat, place: Place)
    ensures var r := Glyph(points, on, i, line, place);
      && Drawn(on, r.0) == Expected(points, i, line, place)
      && Switches(on, r.0)
      && Beam(on, r.0) == r.1
    decreases |points|
  {
    if points != [] {
      var p := points[0];
      var power := if p.on != on then [PowerRecord(p.on)] else [];
      var xy := place(p.x, p.y, i, line);
      var c := CoordsRecord(xy.0, xy.1);
      var rest := Glyph(points[1..], p.on, i, line, place);
      GlyphDraws(points[1..], p.on, i, line, place);
      if p.on != on {
        SwitchRecord(on, p.on);
      }
      assert Drawn(p.on, [c]) == [(c, p.on)] && Beam(p.on, [c]) == p.on && Switches(p.on, [c]) by {
        assert [c][1..] == [];
      }
      ReplayAppend(on, power, [c]);
      ReplayAppend(on, power + [c], rest.0);
    }
  }

  /** The outer loop of `render` from character i on: the instructions and the beam state at the end. */
  function RenderFrom(font: Font, text: string, i: nat, on: bool, line: nat, place: Place): (r: (seq<Instruction>, bool))
    requires i <= |text|
    decreases |text| - i
  {
    if i == |text| then ([], on)
    else
      var c := text[i];
      var g := if c in font then Glyph(font[c], on, i, line, place) else ([], on);
      var rest := if c == '\n' then RenderFrom(font, text, i + 1, false, line + 1, place)
                  else RenderFrom(font, text, i + 1, g.1, line, place);
      (g.0 + rest.0, rest.1)
  }

  /** The number of glyph points of the characters of s that the font has. */
  function PointTotal(font: Font, s: string): nat
  {
    if s == [] then 0 else (if s[0] in font then |font[s[0]]| else 0) + PointTotal(font, s[1..])
  }

  /** The COORDS records of a render are exactly the glyph points of the characters the font has. */
  lemma {:induction false} RenderCoordsCount(font: Font, text: string, i: nat, on: bool, line: nat, place: Place)
    requires i <= |text|
    ensures CountType(RenderFrom(font, text, i, on, line, place).0, CoordsType) == PointTotal(font, text[i..])
    decreases |text| - i
  {
    if i < |text| {
      var c := text[i];
      var g := if c in font then Glyph(font[c], on, i, line, place) else ([], on);
      if c in font {
        GlyphCounts(font[c], on, i, line, place);
      }
      assert text[i..][1..] == text[i + 1..];
      if c == '\n' {
        RenderCoordsCount(font, text, i + 1, false, line + 1, place);
        CountTypeAppend(g.0, RenderFrom(font, text, i + 1, false, line + 1, place).0, CoordsType);
      } else {
        RenderCoordsCount(font, text, i + 1, g.1, line, place);
        CountTypeAppend(g.0, RenderFrom(font, text, i + 1, g.1, line, place).0, CoordsType);
      }
    }
  }

  /**
   * Characters the font lacks emit nothing; a newline the font lacks also
   * emits nothing, and only turns the tracked state off (no POWER_OFF is sent).
   */
  lemma {:induction false} UnknownEmitsNothing(font: Font, text: string, i: nat, on: bool, line: nat, place: Place)
    requires i <= |text|
    requires forall k :: i <= k < |text| ==> text[k] !in font
    ensures RenderFrom(font, text, i, on, line, place).0 == []
    ensures RenderFrom(font, text, i, on, line, place).1 == (if exists k :: i <= k < |text| && text[k] == '\n' then false else on)
    decreases |text| - i
  {
    if i < |text| {
      if text[i] == '\n' {
        UnknownEmitsNothing(font, text, i + 1, false, line + 1, place);
      } else {
        UnknownEmitsNothing(font, text, i + 1, on, line, place);
        assert (exists k :: i <= k < |text| && text[k] == '\n') <==> (exists k :: i + 1 <= k < |text| && text[k] == '\n');
      }
    }
  }

  /** `render(text, position, size)`: the records, and the renderer with line back at 0 and the beam state kept. */
  function Render(r: Renderer, font: Font, text: string, place: Place): (result: (seq<Instruction>, Renderer))
    ensures result.1.line == 0
    ensures CountType(result.0, CoordsType) == PointTotal(font, text)
    ensures result.1.on == RenderFrom(font, text, 0, r.on, r.line, place).1
    // Text on one line, replayed from the tracked state, draws every glyph point in its own state.
    ensures (forall k :: 0 <= k < |text| ==> text[k] != '\n') ==>
      && Drawn(r.on, result.0) == ExpectedText(font, text, 0, r.line, place)
      && Switches(r.on, result.0)
      && Beam(r.on, result.0) == result.1.on
  {
    RenderCoordsCount(font, text, 0, r.on, r.line, place);
    OneLineDraws(font, text, r.on, r.line, place);
    var out := RenderFrom(font, text, 0, r.on, r.line, place);
    (out.0, Renderer(out.1, 0))
  }

  lemma OneLineDraws(font: Font, text: string, on: bool, line: nat, place: Place)
    ensures (forall k :: 0 <= k < |text| ==> text[k] != '\n') ==>
      var r := RenderFrom(font, text, 0, on, line, place);
      && Drawn(on, r.0) == ExpectedText(font, text, 0, line, place)
      && Switches(on, r.0)
      && Beam(on, r.0) == r.1
  {
    if forall k :: 0 <= k < |text| ==> text[k] != '\n' {
      IntendedAgreesWithoutNewline(font, text, 0, on, line, place);
      RenderIntendedDraws(font, text, 0, on, line, place);
    }
  }

  /** `send_instructions`: the rendered records and then exactly one POWER_OFF. */
  function Send(instructions: seq<Instruction>): (s: seq<Instruction>)
    ensures |s| == |instructions| + 1 && s[..|instructions|] == instructions
    ensures CountType(s, PowerOffType) == CountType(instructions, PowerOffType) + 1
    ensures s[|instructions|] == PowerOffRecord
  {
    CountTypeAppend(instructions, [PowerOffRecord], PowerOffType);
    instructions + [PowerOffRecord]
  }

  /** What a text should put on screen: the glyphs of the known characters in order, the line advancing at each newline. */
  function ExpectedText(font: Font, text: string, i: nat, line: nat, place: Place): seq<(Instruction, bool)>
    requires i <= |text|
    decreases |text| - i
  {
    if i == |text| then []
    else
      (if text[i] in font then Expected(font[text[i]], i, line, place) else [])
      + ExpectedText(font, text, i + 1, if text[i] == '\n' then line + 1 else line, place)
  }

  /**
   * The newline in `render` turns the tracked state off without sending
   * POWER_OFF. After a glyph that ends with the beam on, a newline and a
   * glyph that starts with the beam off, the device draws that first point
   * with the beam still on: the stroke runs on across the line break.
   */
  lemma NewlineLeavesBeamOn(font: Font, c1: char, c2: char, on: bool, line: nat, place: Place)
    requires c1 in font && c2 in font && c1 != '\n' && c2 != '\n' && '\n' !in font
    requires |font[c1]| > 0 && font[c1][|font[c1]| - 1].on
    requires |font[c2]| > 0 && !font[c2][0].on
    ensures var text := [c1, '\n', c2];
      var d := Drawn(on, RenderFrom(font, text, 0, on, line, place).0);
      var e := ExpectedText(font, text, 0, line, place);
      |font[c1]| < |d| && |font[c1]| < |e|
      && d[|font[c1]|].1 && !e[|font[c1]|].1
  {
    var g1 := Glyph(font[c1], on, 0, line, place);
    var g2 := Glyph(font[c2], false, 2, line + 1, place);
    ThreeCharRender(font, c1, c2, on, line, place);
    ThreeCharExpected(font, c1, c2, line, place);
    GlyphDraws(font[c1], on, 0, line, place);
    GlyphCounts(font[c1], on, 0, line, place);
    ReplayAppend(on, g1.0, g2.0);
    FirstPointOff(font[c2], 2, line + 1, place);
  }

  /** The records of c1, a newline the font lacks, and c2: the two glyphs, the second from the reset state. */
  lemma ThreeCharRender(font: Font, c1: char, c2: char, on: bool, line: nat, place: Place)
    requires c1 in font && c2 in font && c1 != '\n' && c2 != '\n' && '\n' !in font
    ensures RenderFrom(font, [c1, '\n', c2], 0, on, line, place).0
      == Glyph(font[c1], on, 0, line, place).0 + Glyph(font[c2], false, 2, line + 1, place).0
  {
    var text := [c1, '\n', c2];
    var g1 := Glyph(font[c1], on, 0, line, place);
    var g2 := Glyph(font[c2], false, 2, line + 1, place);
    assert RenderFrom(font, text, 3, false, line + 1, place) == ([], false);
    assert RenderFrom(font, text, 2, false, line + 1, place).0 == g2.0 + [];
    assert RenderFrom(font, text, 1, g1.1, line, place).0 == [] + (g2.0 + []);
    assert [] + (g2.0 + []) == g2.0;
  }

  lemma ThreeCharExpected(font: Font, c1: char, c2: char, line: nat, place: Place)
    requires c1 in font && c2 in font && c1 != '\n' && c2 != '\n' && '\n' !in font
    ensures ExpectedText(font, [c1, '\n', c2], 0, line, place)
      == Expected(font[c1], 0, line, place) + Expected(font[c2], 2, line + 1, place)
  {
    var text := [c1, '\n', c2];
    assert ExpectedText(font, text, 2, line + 1, place) == Expected(font[c2], 2, line + 1, place) + [];
    assert ExpectedText(font, text, 1, line, place) == [] + (Expected(font[c2], 2, line + 1, place) + []);
  }

  /** A glyph that starts with the beam off, rendered from the off state, opens with its first COORDS; a device whose beam is still on draws it lit. */
  lemma FirstPointOff(points: seq<GlyphPoint>, i: nat, line: nat, place: Place)
    requires |points| > 0 && !points[0].on
    ensures |Drawn(true, Glyph(points, false, i, line, place).0)| > 0
    ensures Drawn(true, Glyph(points, false, i, line, place).0)[0].1
  {
    var p := points[0];
    var xy := place(p.x, p.y, i, line);
    var rest := Glyph(points[1..], p.on, i, line, place);
    assert Glyph(points, false, i, line, place).0 == [CoordsRecord(xy.0, xy.1)] + rest.0;
    assert ([CoordsRecord(xy.0, xy.1)] + rest.0)[1..] == rest.0;
  }

  /** A font in which "F\nA" runs the stroke of F on into the start of A. */
  lemma NewlineCounterexample()
    ensures var font: Font := map['F' := [GlyphPoint(0, 0, false), GlyphPoint(0, 2, true)], 'A' := [GlyphPoint(0, 0, false)]];
      var place: Place := (x: int, y: int, i: nat, l: nat) => (x, y);
      var d := Drawn(false, RenderFrom(font, "F\nA", 0, false, 0, place).0);
      var e := ExpectedText(font, "F\nA", 0, 0, place);
      |d| > 2 && |e| > 2 && d[2].1 && !e[2].1
  {
    var font: Font := map['F' := [GlyphPoint(0, 0, false), GlyphPoint(0, 2, true)], 'A' := [GlyphPoint(0, 0, false)]];
    var place: Place := (x: int, y: int, i: nat, l: nat) => (x, y);
    assert "F\nA" == ['F', '\n', 'A'];
    NewlineLeavesBeamOn(font, 'F', 'A', false, 0, place);
  }

  /**
   * The outer loop as evidently intended: the newline sends POWER_OFF when
   * the beam is on, so the device's state stays the one the renderer tracks.
   */
  function RenderFromIntended(font: Font, text: string, i: nat, on: bool, line: nat, place: Place): (r: (seq<Instruction>, bool))
    requires i <= |text|
    decreases |text| - i
  {
    if i == |text| then ([], on)
    else
      var c := text[i];
      var g := if c in font then Glyph(font[c], on, i, line, place) else ([], on);
      var off := if c == '\n' && g.1 then [PowerOffRecord] else [];
      var rest := if c == '\n' then RenderFromIntended(font, text, i + 1, false, line + 1, place)
                  else RenderFromIntended(font, text, i + 1, g.1, line, place);
      (g.0 + off + rest.0, rest.1)
  }

  /** On text without a newline the intended loop is the loop as written. */
  lemma {:induction false} IntendedAgreesWithoutNewline(font: Font, text: string, i: nat, on: bool, line: nat, place: Place)
    requires i <= |text|
    requires forall k :: i <= k < |text| ==> text[k] != '\n'
    ensures RenderFromIntended(font, text, i, on, line, place) == RenderFrom(font, text, i, on, line, place)
    decreases |text| - i
  {
    if i < |text| {
      var g := if text[i] in font then Glyph(font[text[i]], on, i, line, place) else ([], on);
      IntendedAgreesWithoutNewline(font, text, i + 1, g.1, line, place);
      assert g.0 + [] == g.0;
    }
  }

  /** One character of the intended loop: its glyph records and the newline's POWER_OFF. */
  function CharRecords(font: Font, c: char, on: bool, i: nat, line: nat, place: Place): (seq<Instruction>, bool)
  {
    var g := if c in font then Glyph(font[c], on, i, line, place) else ([], on);
    var off := if c == '\n' && g.1 then [PowerOffRecord] else [];
    (g.0 + off, if c == '\n' then false else g.1)
  }

  /** One character draws its glyph as expected and leaves the device in the state the loop carries on with. */
  lemma CharDraws(font: Font, c: char, on: bool, i: nat, line: nat, place: Place)
    ensures var r := CharRecords(font, c, on, i, line, place);
      && Drawn(on, r.0) == (if c in font then Expected(font[c], i, line, place) else [])
      && Switches(on, r.0)
      && Beam(on, r.0) == r.1
  {
    var g := if c in font then Glyph(font[c], on, i, line, place) else ([], on);
    var off := if c == '\n' && g.1 then [PowerOffRecord] else [];
    if c in font {
      GlyphDraws(font[c], on, i, line, place);
    }
    if off != [] {
      SwitchRecord(true, false);
      assert off == [PowerRecord(false)];
    }
    ReplayAppend(on, g.0, off);
  }

  /**
   * With the newline fix, every glyph point of every known character is
   * drawn at its placed coordinates in its own beam state, no power record
   * is redundant, and the device ends in the tracked state.
   */
  lemma {:induction false} RenderIntendedDraws(font: Font, text: string, i: nat, on: bool, line: nat, place: Place)
    requires i <= |text|
    ensures var r := RenderFromIntended(font, text, i, on, line, place);
      && Drawn(on, r.0) == ExpectedText(font, text, i, line, place)
      && Switches(on, r.0)
      && Beam(on, r.0) == r.1
    decreases |text| - i
  {
    if i < |text| {
      var c := text[i];
      var cr := CharRecords(font, c, on, i, line, place);
      var line' := if c == '\n' then line + 1 else line;
      var rest := RenderFromIntended(font, text, i + 1, cr.1, line', place);
      assert RenderFromIntended(font, text, i, on, line, place) == (cr.0 + rest.0, rest.1);
      assert ExpectedText(font, text, i, line, place)
        == (if c in font then Expected(font[c], i, line, place) else []) + ExpectedText(font, text, i + 1, line', place);
      CharDraws(font, c, on, i, line, place);
      RenderIntendedDraws(font, text, i + 1, cr.1, line', place);
      ReplayAppend(on, cr.0, rest.0);
    }
  }
}
