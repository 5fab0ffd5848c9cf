/** The mouse button payload of mouse events: a newtype over u64 with named buttons. */
module Mouse {
  import opened Bytes

  datatype MouseButton = MouseButton(value: u64)

  const Left: MouseButton := MouseButton(0)
  const Right: MouseButton := MouseButton(1)
  const Middle: MouseButton := MouseButton(2)
  const Back: MouseButton := MouseButton(3)
  const Forward: MouseButton := MouseButton(4)

  /** The window system's button, with its own 16-bit code for other buttons. */
  datatype WindowButton = WLeft | WRight | WMiddle | WBack | WForward | WOther(code: u16)

  /** `Into<u64> for MouseButton`. */
  function ToU64(m: MouseButton): u64
  {
    m.value
  }

  /** `From<winit::event::MouseButton>`: named buttons map to 0..4, other buttons keep their code. */
  function FromWindow(b: WindowButton): (m: MouseButton)
    ensures b.WLeft? ==> ToU64(m) == 0
    ensures b.WRight? ==> ToU64(m) == 1
    ensures b.WMiddle? ==> ToU64(m) == 2
    ensures b.WBack? ==> ToU64(m) == 3
    ensures b.WForward? ==> ToU64(m) == 4
    ensures b.WOther? ==> ToU64(m) == b.code
  {
    match b
    case WLeft => Left
    case WRight => Right
    case WMiddle => Middle
    case WBack => Back
    case WForward => Forward
    case WOther(code) => MouseButton(code)
  }

  /** Every converted button carries a value that fits in 16 bits. */
  lemma FromWindowBound(b: WindowButton)
    ensures ToU64(FromWindow(b)) < 0x1_0000
  {
  }

  /** The conversion is not injective: an "other" button with code 0..4 is indistinguishable from a named one. */
  lemma OtherAliasesNamed()
    ensures FromWindow(WOther(0)) == FromWindow(WLeft)
    ensures FromWindow(WOther(4)) == FromWindow(WForward)
  {
  }
}
