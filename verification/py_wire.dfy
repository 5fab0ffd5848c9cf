/**
 * The instruction record as the Python producers build it: the dataclass
 * `Instruction(type_byte, value)` of unbounded Python ints, its `__bytes__`,
 * and the `(x << 16) | y` packing of a point. The same few lines appear in
 * every producer script; they are modelled once here.
 */
module PyWire {
  import opened Wrappers
  import opened Bytes
  import opened Bits
  import Decoder = Instruction

  /** `MV_INSTRUCTION_CLEAR`, `_COORDS`, `_POWER_OFF`, `_POWER_ON`. */
  const ClearType: int := 0
  const CoordsType: int := 1
  const PowerOffType: int := 2
  const PowerOnType: int := 3

  /** Nothing constrains the fields: the `ctypes` annotations are not enforced. */
  datatype Instruction = Instruction(typeByte: int, value: int)

  /** What `int.to_bytes` raises for a negative value or one too wide for its length. */
  datatype OverflowError = OverflowError

  /** `int(r)` on a float: truncation toward zero. */
  function Trunc(r: real): (i: int)
    ensures r >= 0.0 ==> 0 <= i && i as real <= r < i as real + 1.0
    ensures r < 0.0 ==> i as real - 1.0 < r <= i as real <= 0.0
  {
    if r >= 0.0 then r.Floor else -((-r).Floor)
  }

  /** `(x << 16) | y` on Python ints. */
  function Pack(x: int, y: int): int
  {
    Or(x * Pow2(16), y)
  }

  /** The record every producer builds for a point: type COORDS with the packed coordinates. */
  function CoordsRecord(x: int, y: int): Instruction
  {
    Instruction(CoordsType, Pack(x, y))
  }

  const PowerOnRecord: Instruction := Instruction(PowerOnType, 0)
  const PowerOffRecord: Instruction := Instruction(PowerOffType, 0)

  /** For coordinates of at most 16 bits each, x is the high half and y the low half, and the value fits 32 bits. */
  lemma PackHalves(x: int, y: int)
    requires 0 <= x < 0x1_0000 && 0 <= y < 0x1_0000
    ensures Pack(x, y) == x * 0x1_0000 + y
    ensures 0 <= Pack(x, y) < 0x1_0000_0000
    ensures Pack(x, y) / 0x1_0000 == x && Pack(x, y) % 0x1_0000 == y
  {
    Pow2Values();
    OrDisjoint(x, y, 16);
    DivModUnique(x, y, 0x1_0000);
  }

  /** An x of 17 bits or more pushes the packed value past 32 bits. */
  lemma PackTooWide(x: int, y: int)
    requires x >= 0x1_0000 && 0 <= y < 0x1_0000
    ensures Pack(x, y) >= 0x1_0000_0000
  {
    Pow2Values();
    OrDisjoint(x, y, 16);
  }

  /** The number of records of the given type. */
  function CountType(xs: seq<Instruction>, t: int): nat
  {
    if xs == [] then 0 else (if xs[0].typeByte == t then 1 else 0) + CountType(xs[1..], t)
  }

  lemma {:induction false} CountTypeAppend(a: seq<Instruction>, b: seq<Instruction>, t: int)
    ensures CountType(a + b, t) == CountType(a, t) + CountType(b, t)
    decreases |a|
  {
    if a == [] {
      assert a + b == b;
    } else {
      assert (a + b)[1..] == a[1..] + b;
      CountTypeAppend(a[1..], b, t);
    }
  }

  /** `Instruction.__bytes__`: one type byte and four value bytes, big-endian; `to_bytes` raises when a field does not fit. */
  function ToBytes(i: Instruction): (r: Result<seq<byte>, OverflowError>)
    ensures r.Ok? <==> 0 <= i.typeByte < 0x100 && 0 <= i.value < 0x1_0000_0000
    ensures r.Ok? ==> |r.value| == 5 && r.value[0] == i.typeByte && BigEndian(r.value[1..]) == i.value
  {
    if 0 <= i.typeByte < 0x100 && 0 <= i.value < 0x1_0000_0000 then
      var s := [i.typeByte as byte] + ToBigEndian(i.value, 4);
      assert s[1..] == ToBigEndian(i.value, 4);
      BigEndianOfToBigEndian(i.value, 4);
      Ok(s)
    else Err(OverflowError)
  }

  /** The Rust decoder reads what `__bytes__` writes: same kind code, same value. */
  lemma ToBytesDecodes(i: Instruction)
    requires 0 <= i.typeByte <= 3 && 0 <= i.value < 0x1_0000_0000
    ensures Decoder.FromBytes(ToBytes(i).value).Ok?
    ensures Decoder.KindCode(Decoder.FromBytes(ToBytes(i).value).value.kind) == i.typeByte
    ensures Decoder.FromBytes(ToBytes(i).value).value.data == i.value
  {
  }

  /** The bytes of a whole list, written one instruction after another; the first overflow stops the write. */
  function Encode(xs: seq<Instruction>): (r: Result<seq<byte>, OverflowError>)
    ensures r.Ok? ==> |r.value| == 5 * |xs|
    ensures r.Ok? <==> forall k :: 0 <= k < |xs| ==> ToBytes(xs[k]).Ok?
  {
    if xs == [] then Ok([])
    else
      match ToBytes(xs[0])
      case Err(e) => Err(e)
      case Ok(head) =>
        match Encode(xs[1..])
        case Err(e) => Err(e)
        case Ok(tail) => Ok(head + tail)
  }

  /** Each record of an encoded list sits at its own 5-byte offset. */
  lemma {:induction false} EncodeRecords(xs: seq<Instruction>, k: nat)
    requires Encode(xs).Ok? && k < |xs|
    ensures Encode(xs).value[5 * k..5 * k + 5] == ToBytes(xs[k]).value
    decreases |xs|
  {
    if k > 0 {
      EncodeRecords(xs[1..], k - 1);
      var head := ToBytes(xs[0]).value;
      var tail := Encode(xs[1..]).value;
      assert (head + tail)[5 * k..5 * k + 5] == tail[5 * (k - 1)..5 * (k - 1) + 5];
    }
  }
}
