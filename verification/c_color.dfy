/**
 * The C tree's colour constructors (`source/color.c`). `mv_color` has the
 * same three 8-bit channels as the Rust `Color`, so the datatype is shared.
 */
module CColor {
  import opened Bytes
  import opened Bits
  import Rust = Color

  type Color = Rust.Color

  /** `mv_create_color`: the channels are stored as given. */
  function Create(r: byte, g: byte, b: byte): (c: Color)
    ensures c.r == r && c.g == g && c.b == b
  {
    Rust.Color(r, g, b)
  }

  /** `hex >> n & 0xFF`: the byte of `hex` starting at bit n. */
  function ByteAt(hex: u32, n: nat): (v: byte)
    ensures v == (hex / Pow2(n)) % 0x100
  {
    (hex / Pow2(n)) % 0x100
  }

  /** `mv_create_color_from_hex`. */
  function FromHex(hex: u32): Color
  {
    Pow2Values();
    Create(ByteAt(hex, 16), ByteAt(hex, 8), ByteAt(hex, 0))
  }

  /** The C and Rust hex constructors agree on every 32-bit value. */
  lemma FromHexAgreesWithRust(hex: u32)
    ensures FromHex(hex) == Rust.FromHex(hex)
  {
    Pow2Values();
  }

  /** The channels are bits 16-23, 8-15 and 0-7, and the bits above 23 do not matter. */
  lemma FromHexChannels(hex: u32)
    ensures FromHex(hex) == FromHex(hex % 0x100_0000)
    ensures (FromHex(hex).r as int) * 0x1_0000 + (FromHex(hex).g as int) * 0x100 + FromHex(hex).b == hex % 0x100_0000
  {
    FromHexAgreesWithRust(hex);
    FromHexAgreesWithRust(hex % 0x100_0000);
    Rust.ToHexFromHex(hex);
    Rust.ToHexFromHex(hex % 0x100_0000);
    Rust.FromHexToHex(Rust.FromHex(hex));
    Rust.FromHexToHex(Rust.FromHex(hex % 0x100_0000));
  }

  /** Packing three bytes as `r << 16 | g << 8 | b` and reading them back gives `mv_create_color(r, g, b)`. */
  lemma FromHexOfPacked(r: byte, g: byte, b: byte)
    ensures FromHex((r as int) * 0x1_0000 + (g as int) * 0x100 + b) == Create(r, g, b)
  {
    var c := Create(r, g, b);
    FromHexAgreesWithRust(Rust.ToHex(c));
    Rust.FromHexToHex(c);
  }

  /** Two values give the same colour exactly when their low 24 bits agree. */
  lemma FromHexSameColour(h1: u32, h2: u32)
    ensures FromHex(h1) == FromHex(h2) <==> h1 % 0x100_0000 == h2 % 0x100_0000
  {
    FromHexChannels(h1);
    FromHexChannels(h2);
  }

  /**
   * `mv_create_color_from_hex_str`: `sscanf(hex, "%x", &value)` is a library
   * call, passed in as `scan`; the colour is that value's low 24 bits.
   */
  function FromHexStr(s: string, scan: string -> u32): (c: Color)
    ensures (c.r as int) * 0x1_0000 + (c.g as int) * 0x100 + c.b == scan(s) % 0x100_0000
  {
    FromHexChannels(scan(s));
    FromHex(scan(s))
  }
}
