/**
 * The pong test game (`test/games/pong.py`): the key set it keeps from the
 * renderer's events, the per-frame `update_game` physics, and the outlines
 * `render_game` sends back. Python floats are reals here; the game state is a
 * value passed from frame to frame instead of the module-level dictionary.
 */
module Pong {
  import opened Wrappers
  import opened Bytes
  import opened Vec
  import opened PyWire
  import Events

  /** `EVENT_FRAME_FINISHED`, `EVENT_KEY_PRESSED`, `EVENT_KEY_RELEASED`. */
  const FrameFinishedType: int := 0
  const KeyPressedType: int := 1
  const KeyReleasedType: int := 2

  /** Scancodes the game reacts to; 1 is escape. */
  const Paddle1Up: int := 17
  const Paddle1Down: int := 31
  const Paddle2Up: int := 23
  const Paddle2Down: int := 37
  const EscapeKey: int := 1

  const StartXOffset: int := 128
  const PaddleWidth: int := 32
  const PaddleHeight: int := 128 + 64
  const PaddleSpeed: int := 500
  const ArenaWidth: int := 1920
  const ArenaHeight: int := 1080
  const BallRadius: int := 16
  const BallSpeed: int := 500

  /** The highest y a paddle may take: `ARENA_HEIGHT - PADDLE_HEIGHT`. */
  const PaddleTop: real := (ArenaHeight - PaddleHeight) as real

  // ---------------------------------------------------------------- events

  /** The game's own `Event`: a type byte and an unbounded value. */
  datatype PyEvent = PyEvent(typeByte: int, value: int)

  /** `Event.from_bytes`: the first byte is the type, the rest a big-endian value. */
  function EventFromBytes(data: seq<byte>): (e: PyEvent)
    requires |data| > 0
    ensures 0 <= e.typeByte < 0x100 && 0 <= e.value < Pow256(|data| - 1)
  {
    BigEndianBound(data[1..]);
    PyEvent(data[0], BigEndian(data[1..]))
  }

  /** `Event.__bytes__`: one type byte and eight value bytes; `to_bytes` raises when a field does not fit. */
  function EventToBytes(e: PyEvent): (r: Result<seq<byte>, OverflowError>)
    ensures r.Ok? <==> 0 <= e.typeByte < 0x100 && 0 <= e.value < 0x1_0000_0000_0000_0000
    ensures r.Ok? ==> |r.value| == Events.EventSize
  {
    if 0 <= e.typeByte < 0x100 && 0 <= e.value < 0x1_0000_0000_0000_0000 then
      Ok([e.typeByte as byte] + ToBigEndian(e.value, 8))
    else Err(OverflowError)
  }

  /** Reading back what `__bytes__` wrote gives the event back. */
  lemma EventRoundTrip(e: PyEvent)
    requires EventToBytes(e).Ok?
    ensures EventFromBytes(EventToBytes(e).value) == e
  {
    var data := EventToBytes(e).value;
    assert data[1..] == ToBigEndian(e.value, 8);
    Events.Pow256Eight();
    BigEndianOfToBigEndian(e.value, 8);
  }

  /** On a full record with a known kind, the game reads the same kind code and value the renderer wrote. */
  lemma EventAgreesWithRenderer(e: Events.Event)
    ensures var g := EventFromBytes(Events.ToBytes(e));
      g.typeByte == Events.KindCode(e.kind) && g.value == e.data
  {
    Events.FromBytesToBytes(e);
  }

  /** No code occurs twice. */
  predicate NoDuplicates(keys: seq<int>)
  {
    forall i, j :: 0 <= i < j < |keys| ==> keys[i] != keys[j]
  }

  /** `list.remove(v)`: drop the first occurrence. */
  function Remove(keys: seq<int>, v: int): (r: seq<int>)
    requires v in keys
    ensures |r| == |keys| - 1
    ensures multiset(r) == multiset(keys) - multiset{v}
  {
    assert keys == [keys[0]] + keys[1..];
    if keys[0] == v then keys[1..]
    else [keys[0]] + Remove(keys[1..], v)
  }

  /** Removing a code from a list without duplicates leaves exactly the other codes, still without duplicates. */
  lemma {:induction false} RemoveFromSet(keys: seq<int>, v: int)
    requires v in keys && NoDuplicates(keys)
    ensures NoDuplicates(Remove(keys, v))
    ensures forall c :: c in Remove(keys, v) <==> c in keys && c != v
  {
    if keys[0] != v {
      var tail := keys[1..];
      assert NoDuplicates(tail) by {
        forall i, j | 0 <= i < j < |tail| ensures tail[i] != tail[j] {
          assert tail[i] == keys[i + 1] && tail[j] == keys[j + 1];
        }
      }
      RemoveFromSet(tail, v);
      assert keys[0] !in tail by {
        forall j | 0 <= j < |tail| ensures tail[j] != keys[0] {
          assert tail[j] == keys[j + 1];
        }
      }
      var r := Remove(keys, v);
      assert r == [keys[0]] + Remove(tail, v);
      forall i, j | 0 <= i < j < |r| ensures r[i] != r[j] {
        if i == 0 {
          assert r[j] in Remove(tail, v);
        } else {
          assert r[i] == Remove(tail, v)[i - 1] && r[j] == Remove(tail, v)[j - 1];
        }
      }
      assert keys == [keys[0]] + tail;
    } else {
      forall c | c in keys && c != v ensures c in keys[1..] {
        var i :| 0 <= i < |keys| && keys[i] == c;
        assert keys[1..][i - 1] == c;
      }
      forall c | c in keys[1..] ensures c != v {
        var j :| 0 <= j < |keys[1..]| && keys[1..][j] == c;
        assert keys[j + 1] == c;
      }
    }
  }

  /** One event's effect on `keys_down`: a press adds an absent code, a release removes a present one. */
  function ApplyEvent(keys: seq<int>, e: PyEvent): seq<int>
  {
    if e.typeByte == KeyPressedType then
      if e.value !in keys then keys + [e.value] else keys
    else if e.typeByte == KeyReleasedType then
      if e.value in keys then Remove(keys, e.value) else keys
    else keys
  }

  /** The key list stays free of duplicates, a press makes its code held, and a release makes its code not held. */
  lemma ApplyEventKeySet(keys: seq<int>, e: PyEvent)
    requires NoDuplicates(keys)
    ensures NoDuplicates(ApplyEvent(keys, e))
    ensures e.typeByte == KeyPressedType ==> forall c :: c in ApplyEvent(keys, e) <==> c in keys || c == e.value
    ensures e.typeByte == KeyReleasedType ==> forall c :: c in ApplyEvent(keys, e) <==> c in keys && c != e.value
    ensures e.typeByte != KeyPressedType && e.typeByte != KeyReleasedType ==> ApplyEvent(keys, e) == keys
  {
    if e.typeByte == KeyReleasedType && e.value in keys {
      RemoveFromSet(keys, e.value);
    }
  }

  /** A read chunk is one event whose type is FRAME_FINISHED. */
  predicate EndsFrame(chunk: seq<byte>)
  {
    chunk != [] && chunk[0] == FrameFinishedType
  }

  /**
   * `process_events`: each read of at most one record (a chunk) either comes back
   * empty and is skipped, or is one event applied to the key list; the loop
   * stops after the first FRAME_FINISHED. The result is the key list, how
   * many chunks were consumed, and whether a frame end was seen among them.
   */
  function ProcessEvents(keys: seq<int>, chunks: seq<seq<byte>>): (r: (seq<int>, nat, bool))
    requires forall k :: 0 <= k < |chunks| ==> |chunks[k]| <= Events.EventSize
    ensures r.1 <= |chunks|
    ensures r.2 <==> exists k :: 0 <= k < |chunks| && EndsFrame(chunks[k])
    ensures r.2 ==> 0 < r.1 && EndsFrame(chunks[r.1 - 1]) && forall k :: 0 <= k < r.1 - 1 ==> !EndsFrame(chunks[k])
    ensures !r.2 ==> r.1 == |chunks|
    decreases |chunks|
  {
    if chunks == [] then (keys, 0, false)
    else if chunks[0] == [] then
      var rest := ProcessEvents(keys, chunks[1..]);
      assert forall k :: 1 <= k < |chunks| ==> chunks[k] == chunks[1..][k - 1];
      (rest.0, rest.1 + 1, rest.2)
    else
      var e := EventFromBytes(chunks[0]);
      var keys' := ApplyEvent(keys, e);
      if e.typeByte == FrameFinishedType then (keys', 1, true)
      else
        var rest := ProcessEvents(keys', chunks[1..]);
        assert forall k :: 1 <= k < |chunks| ==> chunks[k] == chunks[1..][k - 1];
        (rest.0, rest.1 + 1, rest.2)
  }

  /** However many events a frame brings, `keys_down` never holds a code twice. */
  lemma {:induction false} ProcessEventsKeepsSet(keys: seq<int>, chunks: seq<seq<byte>>)
    requires forall k :: 0 <= k < |chunks| ==> |chunks[k]| <= Events.EventSize
    requires NoDuplicates(keys)
    ensures NoDuplicates(ProcessEvents(keys, chunks).0)
    decreases |chunks|
  {
    if chunks != [] {
      if chunks[0] == [] {
        ProcessEventsKeepsSet(keys, chunks[1..]);
      } else {
        var e := EventFromBytes(chunks[0]);
        ApplyEventKeySet(keys, e);
        if e.typeByte != FrameFinishedType {
          ProcessEventsKeepsSet(ApplyEvent(keys, e), chunks[1..]);
        }
      }
    }
  }

  // ---------------------------------------------------------------- physics

  /** `score[0]` is drawn on the left and `score[1]` on the right. */
  datatype Game = Game(leftScore: int, rightScore: int, paddle1: Vec, paddle2: Vec, ball: Vec, velocity: Vec)

  /** Where the ball starts and is put back: the arena centre less the radius. */
  function Centre(): Vec
  {
    Vec(ArenaWidth as real / 2.0 - BallRadius as real, ArenaHeight as real / 2.0 - BallRadius as real)
  }

  /** The module-level `game` dictionary as the script starts. */
  function Initial(): (g: Game)
    ensures 0.0 <= g.paddle1.y <= PaddleTop && 0.0 <= g.paddle2.y <= PaddleTop
  {
    var paddleY := ArenaHeight as real / 2.0 - PaddleHeight as real / 2.0;
    Game(0, 0,
      Vec(StartXOffset as real, paddleY),
      Vec((ArenaWidth - StartXOffset - PaddleWidth) as real, paddleY),
      Centre(),
      Vec(BallSpeed as real, BallSpeed as real / 2.0))
  }

  /** The collision test of `update_game`: the ball's box and the paddle's box overlap. */
  predicate Overlaps(ball: Vec, paddle: Vec)
  {
    ball.x < paddle.x + PaddleWidth as real && ball.x + BallRadius as real > paddle.x
    && ball.y < paddle.y + PaddleHeight as real && ball.y + BallRadius as real > paddle.y
  }

  /**
   * One paddle's collision: on overlap the ball is put back beside the
   * paddle on the side it came from and its x velocity is reversed.
   */
  function Bounce(ball: Vec, velocity: Vec, paddle: Vec): (r: (Vec, Vec))
    ensures !Overlaps(ball, paddle) ==> r == (ball, velocity)
    ensures Overlaps(ball, paddle) ==> r.1 == Vec(-velocity.x, velocity.y) && r.0.y == ball.y
    ensures Overlaps(ball, paddle) ==> !Overlaps(r.0, paddle)
    ensures Overlaps(ball, paddle) && velocity.x > 0.0 ==> r.0.x < ball.x
    ensures Overlaps(ball, paddle) && velocity.x <= 0.0 ==> r.0.x > ball.x
  {
    if Overlaps(ball, paddle) then
      var x := if velocity.x > 0.0 then paddle.x - BallRadius as real else paddle.x + PaddleWidth as real;
      (Vec(x, ball.y), Vec(-velocity.x, velocity.y))
    else (ball, velocity)
  }

  /** The ball and its velocity after moving for `delta` seconds and testing both paddles in order. */
  function AfterCollisions(g: Game, delta: real): (Vec, Vec)
  {
    var moved := Add(g.ball, Multiply(g.velocity, delta));
    var first := Bounce(moved, g.velocity, g.paddle1);
    Bounce(first.0, first.1, g.paddle2)
  }

  /** A paddle's y after its keys: up adds, down subtracts. */
  function MovePaddle(y: real, keys: seq<int>, up: int, down: int, delta: real): real
  {
    var raised := if up in keys then y + PaddleSpeed as real * delta else y;
    if down in keys then raised - PaddleSpeed as real * delta else raised
  }

  /** The clamp of `update_game`: a paddle stays inside the arena, and one already inside is left alone. */
  function ClampPaddle(y: real): (c: real)
    ensures 0.0 <= c <= PaddleTop
    ensures 0.0 <= y <= PaddleTop ==> c == y
  {
    var low := if y < 0.0 then 0.0 else y;
    if low > PaddleTop then PaddleTop else low
  }

  /** The ball has left the arena on the left or the right. */
  predicate Out(ball: Vec)
  {
    ball.x < 0.0 || ball.x > ArenaWidth as real
  }

  /**
   * `update_game(delta)` with the keys held this frame. Paddles end inside
   * the arena; a ball out on the left scores for the right and one out on
   * the right for the left, and is recentred; escape resets the scores and
   * the ball.
   */
  function Update(g: Game, keys: seq<int>, delta: real): (g': Game)
    ensures 0.0 <= g'.paddle1.y <= PaddleTop && 0.0 <= g'.paddle2.y <= PaddleTop
    ensures g'.paddle1.x == g.paddle1.x && g'.paddle2.x == g.paddle2.x
    ensures Abs(g'.velocity.x) == Abs(g.velocity.x) && Abs(g'.velocity.y) == Abs(g.velocity.y)
    ensures EscapeKey in keys ==> g'.leftScore == 0 && g'.rightScore == 0 && g'.ball == Centre()
    ensures EscapeKey !in keys ==>
      var b := AfterCollisions(g, delta).0;
      && (b.x < 0.0 ==> g'.rightScore == g.rightScore + 1 && g'.leftScore == g.leftScore && g'.ball == Centre())
      && (b.x > ArenaWidth as real ==> g'.leftScore == g.leftScore + 1 && g'.rightScore == g.rightScore && g'.ball == Centre())
      && (!Out(b) ==> g'.leftScore == g.leftScore && g'.rightScore == g.rightScore && g'.ball == b)
  {
    var (b, v) := AfterCollisions(g, delta);
    var velocity := if b.y < 0.0 || b.y > ArenaHeight as real then Vec(v.x, -v.y) else v;
    var left := if Out(b) && !(b.x < 0.0) then g.leftScore + 1 else g.leftScore;
    var right := if Out(b) && b.x < 0.0 then g.rightScore + 1 else g.rightScore;
    var ball := if Out(b) then Centre() else b;
    var p1 := Vec(g.paddle1.x, ClampPaddle(MovePaddle(g.paddle1.y, keys, Paddle1Up, Paddle1Down, delta)));
    var p2 := Vec(g.paddle2.x, ClampPaddle(MovePaddle(g.paddle2.y, keys, Paddle2Up, Paddle2Down, delta)));
    if EscapeKey in keys then Game(0, 0, p1, p2, Centre(), velocity)
    else Game(left, right, p1, p2, ball, velocity)
  }

  /** The game after a run of frames, each with the keys held and the elapsed time. */
  function Play(g: Game, frames: seq<(seq<int>, real)>): Game
    decreases |frames|
  {
    if frames == [] then g else Play(Update(g, frames[0].0, frames[0].1), frames[1..])
  }

  /**
   * Without escape, neither score ever goes down and each frame adds at
   * most one point in total; the ball's speed along each axis never changes.
   */
  lemma {:induction false} PlayScores(g: Game, frames: seq<(seq<int>, real)>)
    requires forall k :: 0 <= k < |frames| ==> EscapeKey !in frames[k].0
    ensures var g' := Play(g, frames);
      g'.leftScore >= g.leftScore && g'.rightScore >= g.rightScore
      && g'.leftScore + g'.rightScore <= g.leftScore + g.rightScore + |frames|
    ensures Abs(Play(g, frames).velocity.x) == Abs(g.velocity.x) && Abs(Play(g, frames).velocity.y) == Abs(g.velocity.y)
    decreases |frames|
  {
    if frames != [] {
      var next := Update(g, frames[0].0, frames[0].1);
      assert forall k :: 1 <= k < |frames| ==> frames[k] == frames[1..][k - 1];
      PlayScores(next, frames[1..]);
    }
  }

  // ---------------------------------------------------------------- drawing

  /** One screen coordinate of `render_paddle` and `render_ball`: `int`, then clamped to [0, ARENA_WIDTH]. */
  function ClampAxis(v: real): (c: int)
    ensures 0 <= c <= ArenaWidth
    ensures 0 <= Trunc(v) <= ArenaWidth ==> c == Trunc(v)
  {
    var i := Trunc(v);
    var low := if i < 0 then 0 else i;
    if low > ArenaWidth then ArenaWidth else low
  }

  /** The COORDS record of one outline point. */
  function ScreenRecord(p: (real, real)): Instruction
  {
    CoordsRecord(ClampAxis(p.0), ClampAxis(p.1))
  }

  /** A COORDS record whose two halves are screen coordinates inside the arena's width; other records qualify as they are. */
  predicate OnScreen(i: Instruction)
  {
    i.typeByte == CoordsType ==>
      0 <= i.value < 0x1_0000_0000 && i.value / 0x1_0000 <= ArenaWidth && i.value % 0x1_0000 <= ArenaWidth
  }

  /** An outline point encodes, and decodes to its clamped coordinates. */
  lemma ScreenRecordDecodes(p: (real, real))
    ensures OnScreen(ScreenRecord(p)) && ScreenRecord(p).typeByte == CoordsType
    ensures ScreenRecord(p).value / 0x1_0000 == ClampAxis(p.0) && ScreenRecord(p).value % 0x1_0000 == ClampAxis(p.1)
  {
    PackHalves(ClampAxis(p.0), ClampAxis(p.1));
  }

  /** Python's `list.insert(i, v)`: before index i, or at the end when the list is shorter. */
  function Insert<T>(xs: seq<T>, i: nat, v: T): (r: seq<T>)
    ensures |r| == |xs| + 1
    ensures var at := if i < |xs| then i else |xs|;
      r[at] == v && (forall k :: 0 <= k < at ==> r[k] == xs[k]) && (forall k :: at < k < |r| ==> r[k] == xs[k - 1])
  {
    var at := if i < |xs| then i else |xs|;
    xs[..at] + [v] + xs[at..]
  }

  /** The shape shared by the outlines: POWER_ON inserted after the first point and POWER_OFF appended. */
  function Outline(coords: seq<Instruction>): (r: seq<Instruction>)
    ensures |r| == |coords| + 2 && r[|r| - 1] == PowerOffRecord
    ensures |coords| > 0 ==> r[0] == coords[0] && r[1] == PowerOnRecord
    ensures forall k :: 1 <= k < |coords| ==> r[k + 1] == coords[k]
  {
    Insert(coords, 1, PowerOnRecord) + [PowerOffRecord]
  }

  /** The six corners `render_paddle` visits: round the box and along its first edge once more. */
  function Corners(p: Vec): seq<(real, real)>
  {
    var w, h := PaddleWidth as real, PaddleHeight as real;
    [(p.x, p.y), (p.x + w, p.y), (p.x + w, p.y + h), (p.x, p.y + h), (p.x, p.y), (p.x + w, p.y)]
  }

  /**
   * `render_paddle`: eight records, a point, POWER_ON, five points,
   * POWER_OFF; the beam starts at the top-left corner, the outline closes
   * and retraces the first edge, and every point lies on screen.
   */
  function RenderPaddle(p: Vec): (r: seq<Instruction>)
    ensures |r| == 8 && r[1] == PowerOnRecord && r[7] == PowerOffRecord
    ensures forall k :: 0 <= k < 8 && k != 1 && k != 7 ==> r[k].typeByte == CoordsType
    ensures forall k :: 0 <= k < 8 ==> OnScreen(r[k])
    ensures r[0] == ScreenRecord((p.x, p.y)) && r[5] == r[0] && r[6] == r[2]
    ensures r[3] == ScreenRecord((p.x + PaddleWidth as real, p.y + PaddleHeight as real))
  {
    var corners := Corners(p);
    var coords := seq(6, k requires 0 <= k < 6 => ScreenRecord(corners[k]));
    forall k | 0 <= k < 6 ensures OnScreen(coords[k]) && coords[k].typeByte == CoordsType {
      ScreenRecordDecodes(corners[k]);
    }
    Outline(coords)
  }

  /**
   * `render_ball` for the points of its circle (the trigonometry is left
   * out): every point is one on-screen COORDS record, in order, with
   * POWER_ON after the first and POWER_OFF at the end.
   */
  function RenderBall(points: seq<(real, real)>): (r: seq<Instruction>)
    ensures |r| == |points| + 2 && r[|r| - 1] == PowerOffRecord
    ensures forall k :: 0 <= k < |r| ==> OnScreen(r[k])
    ensures |points| > 0 ==> r[0] == ScreenRecord(points[0]) && r[1] == PowerOnRecord
    ensures forall k :: 1 <= k < |points| ==> r[k + 1] == ScreenRecord(points[k])
  {
    var coords := seq(|points|, k requires 0 <= k < |points| => ScreenRecord(points[k]));
    forall k | 0 <= k < |points| ensures OnScreen(coords[k]) {
      ScreenRecordDecodes(points[k]);
    }
    Outline(coords)
  }

  /** `render_arena`: the centre line, one point every 10 pixels down x = 960. */
  function RenderArena(): (r: seq<Instruction>)
    ensures |r| == ArenaHeight / 10 + 2 && r[1] == PowerOnRecord && r[|r| - 1] == PowerOffRecord
    ensures r[0] == CoordsRecord(ArenaWidth / 2, 0)
    ensures forall i :: 1 <= i < ArenaHeight / 10 ==> r[i + 1] == CoordsRecord(ArenaWidth / 2, 10 * i)
    ensures forall k :: 0 <= k < |r| ==> OnScreen(r[k])
  {
    var coords := seq(ArenaHeight / 10, i requires 0 <= i < ArenaHeight / 10 => CoordsRecord(ArenaWidth / 2, 10 * i));
    forall i | 0 <= i < ArenaHeight / 10 ensures OnScreen(coords[i]) {
      PackHalves(ArenaWidth / 2, 10 * i);
    }
    Outline(coords)
  }
}
