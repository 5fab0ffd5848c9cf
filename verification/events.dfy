/**
 * Events sent back from the renderer to producers: a kind and a u64 payload,
 * serialised as a kind byte and the payload big-endian (9 bytes).
 */
module Events {
  import opened Wrappers
  import opened Bytes
  import opened Bits
  import KeyCode
  import Mouse

  /** Bytes per event record. */
  const EventSize: nat := 9

  datatype EventKind =
    | FrameFinished
    | KeyPressed
    | KeyReleased
    | MouseMoved
    | MousePressed
    | MouseReleased
    | InstructionBufferEmpty

  datatype Event = Event(kind: EventKind, data: u64)

  datatype EventError = InvalidEventKind | NotAKeyEvent | NotAMouseMovedEvent

  /** `Into<u8> for EventKind`. */
  function KindCode(k: EventKind): (b: byte)
    ensures b <= 6
  {
    match k
    case FrameFinished => 0
    case KeyPressed => 1
    case KeyReleased => 2
    case MouseMoved => 3
    case MousePressed => 4
    case MouseReleased => 5
    case InstructionBufferEmpty => 6
  }

  /** The kind table of `from_bytes`. */
  function KindFromByte(b: byte): (r: Result<EventKind, EventError>)
    ensures r.Ok? <==> b <= 6
    ensures r.Ok? ==> KindCode(r.value) == b
    ensures r.Err? ==> r.error == InvalidEventKind
  {
    match b
    case 0 => Ok(FrameFinished)
    case 1 => Ok(KeyPressed)
    case 2 => Ok(KeyReleased)
    case 3 => Ok(MouseMoved)
    case 4 => Ok(MousePressed)
    case 5 => Ok(MouseReleased)
    case 6 => Ok(InstructionBufferEmpty)
    case _ => Err(InvalidEventKind)
  }

  /** The kind code is a bijection between the seven kinds and 0..6. */
  lemma KindCodeBijection(k: EventKind, k': EventKind, b: byte)
    ensures KindFromByte(KindCode(k)) == Ok(k)
    ensures KindCode(k) == KindCode(k') ==> k == k'
    ensures b <= 6 ==> exists j :: KindCode(j) == b
  {
    if b <= 6 {
      assert KindCode(KindFromByte(b).value) == b;
    }
  }

  /** `Event::key_pressed`. */
  function KeyPressedEvent(code: KeyCode.KeyCode): (e: Event)
    ensures e.kind == KeyPressed && e.data == KeyCode.ToU64(code)
  {
    Event(KeyPressed, KeyCode.ToU64(code))
  }

  /** `Event::key_released`. */
  function KeyReleasedEvent(code: KeyCode.KeyCode): (e: Event)
    ensures e.kind == KeyReleased && e.data == KeyCode.ToU64(code)
  {
    Event(KeyReleased, KeyCode.ToU64(code))
  }

  /** `Event::mouse_pressed`. */
  function MousePressedEvent(button: Mouse.MouseButton): (e: Event)
    ensures e.kind == MousePressed && e.data == Mouse.ToU64(button)
  {
    Event(MousePressed, Mouse.ToU64(button))
  }

  /** `Event::mouse_released`. */
  function MouseReleasedEvent(button: Mouse.MouseButton): (e: Event)
    ensures e.kind == MouseReleased && e.data == Mouse.ToU64(button)
  {
    Event(MouseReleased, Mouse.ToU64(button))
  }

  /** `Event::mouse_moved`: `(x << 32) | y`. */
  function MouseMovedEvent(x: u32, y: u32): (e: Event)
    ensures e.kind == MouseMoved
    ensures e.data / 0x1_0000_0000 == x && e.data % 0x1_0000_0000 == y
  {
    Pow2Values();
    OrDisjoint(x, y, 32);
    DivModUnique(x, y, 0x1_0000_0000);
    Event(MouseMoved, Or(x * 0x1_0000_0000, y))
  }

  /** `Event::frame_finished`. */
  function FrameFinishedEvent(): (e: Event)
    ensures e.kind == FrameFinished && e.data == 0
  {
    Event(FrameFinished, 0)
  }

  /** `Event::key_code`: only key events carry a key code. */
  function KeyCodeOf(e: Event): (r: Result<KeyCode.KeyCode, EventError>)
    ensures r.Ok? <==> e.kind == KeyPressed || e.kind == KeyReleased
    ensures r.Ok? ==> KeyCode.ToU64(r.value) == e.data
    ensures r.Err? ==> r.error == NotAKeyEvent
  {
    match e.kind
    case KeyPressed => Ok(KeyCode.FromU64(e.data))
    case KeyReleased => Ok(KeyCode.FromU64(e.data))
    case _ => Err(NotAKeyEvent)
  }

  /** `Event::mouse_position`: `((data >> 32) as u32, data as u32)`, only for mouse-moved events. */
  function MousePosition(e: Event): (r: Result<(u32, u32), EventError>)
    ensures r.Ok? <==> e.kind == MouseMoved
    ensures r.Err? ==> r.error == NotAMouseMovedEvent
    ensures r.Ok? ==> r.value.0 * 0x1_0000_0000 + r.value.1 == e.data
  {
    match e.kind
    case MouseMoved => Ok(((e.data / 0x1_0000_0000) % 0x1_0000_0000, e.data % 0x1_0000_0000))
    case _ => Err(NotAMouseMovedEvent)
  }

  /** The position put into a mouse-moved event comes back out. */
  lemma MousePositionOfMouseMoved(x: u32, y: u32)
    ensures MousePosition(MouseMovedEvent(x, y)) == Ok((x, y))
  {
  }

  /** A key event hands back the same key code value it was built from. */
  lemma KeyCodeOfKeyEvent(code: KeyCode.KeyCode)
    ensures KeyCodeOf(KeyPressedEvent(code)) == Ok(code)
    ensures KeyCodeOf(KeyReleasedEvent(code)) == Ok(code)
  {
  }

  lemma Pow256Eight()
    ensures Pow256(8) == 0x1_0000_0000_0000_0000
  {
    assert Pow256(4) == 0x1_0000_0000;
  }

  /** `Event::from_bytes`. */
  function FromBytes(bytes: seq<byte>): (r: Result<Event, EventError>)
    requires |bytes| == EventSize
    ensures r.Ok? <==> bytes[0] <= 6
    ensures r.Err? ==> r.error == InvalidEventKind
    ensures r.Ok? ==> KindCode(r.value.kind) == bytes[0] && r.value.data == BigEndian(bytes[1..])
  {
    var kind :- KindFromByte(bytes[0]);
    BigEndianBound(bytes[1..]);
    Pow256Eight();
    Ok(Event(kind, BigEndian(bytes[1..])))
  }

  /** `Event::to_bytes`. */
  function ToBytes(e: Event): (bytes: seq<byte>)
    ensures |bytes| == EventSize
    ensures bytes[0] == KindCode(e.kind)
  {
    [KindCode(e.kind)] + ToBigEndian(e.data, 8)
  }

  /** Encoding then decoding gives every event back. */
  lemma FromBytesToBytes(e: Event)
    ensures FromBytes(ToBytes(e)) == Ok(e)
  {
    var bytes := ToBytes(e);
    assert bytes[1..] == ToBigEndian(e.data, 8);
    Pow256Eight();
    BigEndianOfToBigEndian(e.data, 8);
    KindCodeBijection(e.kind, e.kind, 0);
  }

  /** Decoding then encoding gives back every record with a valid kind byte. */
  lemma ToBytesFromBytes(bytes: seq<byte>)
    requires |bytes| == EventSize && bytes[0] <= 6
    ensures ToBytes(FromBytes(bytes).value) == bytes
  {
    ToBigEndianOfBigEndian(bytes[1..]);
    assert bytes == [bytes[0]] + bytes[1..];
  }
}
