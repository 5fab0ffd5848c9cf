/** The key payload of key events: a newtype over u64. */
module KeyCode {
  import opened Bytes

  datatype KeyCode = KeyCode(value: u64)

  /** `From<u32> for KeyCode`: the code widened to u64. */
  function FromU32(code: u32): (k: KeyCode)
    ensures ToU64(k) == code
    ensures ToU64(k) < 0x1_0000_0000
  {
    KeyCode(code)
  }

  /** `From<u64> for KeyCode`. */
  function FromU64(code: u64): (k: KeyCode)
    ensures ToU64(k) == code
  {
    KeyCode(code)
  }

  /** `Into<u64> for KeyCode`. */
  function ToU64(k: KeyCode): u64
  {
    k.value
  }

  /** Building from a u32 is injective, and agrees with building from the widened u64. */
  lemma FromU32Injective(a: u32, b: u32)
    ensures FromU32(a) == FromU32(b) <==> a == b
    ensures FromU32(a) == FromU64(a)
  {
  }
}
