/** The Rust `Color`: three 8-bit channels, with 24-bit hex and "#RRGGBB" forms. */
module Color {
  import opened Wrappers
  import opened Bytes
  import opened Bits

  datatype Color = Color(r: byte, g: byte, b: byte)

  /** `Color::from_hex`: the channels are bits 16-23, 8-15 and 0-7, so they re-pack to the low 24 bits. */
  function FromHex(hex: u32): (c: Color)
    ensures (c.r as int) * 0x1_0000 + (c.g as int) * 0x100 + c.b == hex % 0x100_0000
  {
    ChannelsRepack(hex);
    Color((hex / 0x1_0000) % 0x100, (hex / 0x100) % 0x100, hex % 0x100)
  }

  /** The three byte fields of a number, weighted back, are its low 24 bits. */
  lemma ChannelsRepack(hex: nat)
    ensures ((hex / 0x1_0000) % 0x100) * 0x1_0000 + ((hex / 0x100) % 0x100) * 0x100 + hex % 0x100 == hex % 0x100_0000
  {
    var q := hex / 0x1_0000;
    var low := hex % 0x1_0000;
    assert hex == q * 0x1_0000 + low;
    assert low / 0x100 == (hex / 0x100) % 0x100 by {
      DivModUnique(q, low, 0x1_0000);
      var q2 := low / 0x100;
      assert low == q2 * 0x100 + low % 0x100;
      assert hex == (q * 0x100 + q2) * 0x100 + low % 0x100;
      DivModUnique(q * 0x100 + q2, low % 0x100, 0x100);
      DivModUnique(q, q2, 0x100);
    }
    assert low % 0x100 == hex % 0x100 by {
      assert hex == (q * 0x100) * 0x100 + low;
      assert low == (low / 0x100) * 0x100 + low % 0x100;
      DivModUnique(q * 0x100 + low / 0x100, low % 0x100, 0x100);
    }
    assert q % 0x100 * 0x1_0000 + low == hex % 0x100_0000 by {
      assert hex == (q / 0x100) * 0x100_0000 + ((q % 0x100) * 0x1_0000 + low);
      DivModUnique(q / 0x100, (q % 0x100) * 0x1_0000 + low, 0x100_0000);
    }
  }

  /** `Color::to_hex`: `r << 16 | g << 8 | b`. */
  function ToHex(c: Color): (hex: u32)
    ensures hex < 0x100_0000
    ensures hex == (c.r as int) * 0x1_0000 + (c.g as int) * 0x100 + c.b
  {
    Pow2Values();
    var rg := (c.r as int) * 0x100 + c.g;
    OrDisjoint(c.r, (c.g as int) * 0x100, 16);
    assert Or((c.r as int) * 0x1_0000, (c.g as int) * 0x100) == rg * 0x100;
    OrDisjoint(rg, c.b, 8);
    Or(Or((c.r as int) * 0x1_0000, (c.g as int) * 0x100), c.b)
  }

  /** Every colour survives the hex round trip. */
  lemma FromHexToHex(c: Color)
    ensures FromHex(ToHex(c)) == c
  {
    var h := ToHex(c);
    var r, g, b := c.r as int, c.g as int, c.b as int;
    var rg := r * 0x100 + g;
    assert h == rg * 0x100 + b;
    assert h == r * 0x1_0000 + (g * 0x100 + b);
    DivModUnique(rg, b, 0x100);
    DivModUnique(r, g, 0x100);
    DivModUnique(r, g * 0x100 + b, 0x1_0000);
    DivModUnique(0, r, 0x100);
  }

  /** A hex value comes back with only its low 24 bits. */
  lemma ToHexFromHex(hex: u32)
    ensures ToHex(FromHex(hex)) == hex % 0x100_0000
  {
  }

  /** The uppercase hexadecimal digit of a value below 16. */
  function HexDigit(v: nat): (ch: char)
    requires v < 16
  {
    if v < 10 then '0' + v as char else 'A' + (v - 10) as char
  }

  predicate IsUpperHexDigit(ch: char)
  {
    '0' <= ch <= '9' || 'A' <= ch <= 'F'
  }

  /** `{:02X}`: two uppercase hex digits. */
  function HexByte(v: byte): (s: string)
    ensures |s| == 2 && IsUpperHexDigit(s[0]) && IsUpperHexDigit(s[1])
  {
    [HexDigit(v / 16), HexDigit(v % 16)]
  }

  /** `Color::to_hex_str`: `#` followed by six uppercase hex digits. */
  function ToHexStr(c: Color): (s: string)
    ensures |s| == 7 && s[0] == '#'
    ensures forall i :: 1 <= i < 7 ==> IsUpperHexDigit(s[i])
  {
    "#" + HexByte(c.r) + HexByte(c.g) + HexByte(c.b)
  }

  /** The value of a hexadecimal digit of either case, as `from_str_radix(_, 16)` reads it. */
  function DigitValue(ch: char): (r: Option<nat>)
    ensures r.Some? ==> r.value < 16
    ensures r.Some? <==> ('0' <= ch <= '9' || 'a' <= ch <= 'f' || 'A' <= ch <= 'F')
  {
    if '0' <= ch <= '9' then Some(ch as nat - '0' as nat)
    else if 'a' <= ch <= 'f' then Some(ch as nat - 'a' as nat + 10)
    else if 'A' <= ch <= 'F' then Some(ch as nat - 'A' as nat + 10)
    else None
  }

  /** Every character of `s` is a hex digit of either case. */
  predicate AllHexDigits(s: string)
  {
    forall k :: 0 <= k < |s| ==> DigitValue(s[k]).Some?
  }

  /** The value of a run of hex digits, most significant first; None at the first non-digit. */
  function DigitsValue(s: string): (r: Option<nat>)
    ensures r.Some? <==> AllHexDigits(s)
  {
    if |s| == 0 then Some(0)
    else
      assert forall k :: 0 <= k < |s| - 1 ==> s[..|s| - 1][k] == s[k];
      var high :- DigitsValue(s[..|s| - 1]);
      var low :- DigitValue(s[|s| - 1]);
      Some(high * 16 + low)
  }

  function Pow16(n: nat): (p: nat)
    ensures p >= 1
  {
    if n == 0 then 1 else 16 * Pow16(n - 1)
  }

  /** `n` hex digits hold a value below 16^n. */
  lemma {:induction false} DigitsValueBound(s: string)
    requires AllHexDigits(s)
    ensures DigitsValue(s).value < Pow16(|s|)
  {
    if |s| > 0 {
      var init := s[..|s| - 1];
      assert forall k :: 0 <= k < |init| ==> init[k] == s[k];
      DigitsValueBound(init);
      var high, low := DigitsValue(init).value, DigitValue(s[|s| - 1]).value;
      assert DigitsValue(s).value == high * 16 + low;
      assert high * 16 + low < (high + 1) * 16;
      assert (high + 1) * 16 <= Pow16(|init|) * 16;
    }
  }

  /** Eight hex digits always fit in 32 bits, so only a longer run can overflow. */
  lemma EightDigitsFit(s: string)
    requires AllHexDigits(s) && |s| <= 8
    ensures DigitsValue(s).value < 0x1_0000_0000
  {
    DigitsValueBound(s);
    var n := |s|;
    while n < 8
      invariant |s| <= n <= 8 && Pow16(|s|) <= Pow16(n)
    {
      n := n + 1;
    }
    assert Pow16(8) == 0x1_0000_0000;
  }

  /** The digits after one optional leading `+`. */
  function DropSign(s: string): (t: string)
    ensures t == s || (|s| > 0 && s[0] == '+' && t == s[1..])
  {
    if |s| > 0 && s[0] == '+' then s[1..] else s
  }

  /** A string `u32::from_str_radix(_, 16)` accepts: a sign at most, then hex digits, at least one, worth less than 2^32. */
  predicate IsHexLiteral(s: string)
  {
    var digits := DropSign(s);
    |digits| > 0 && AllHexDigits(digits) && DigitsValue(digits).value < 0x1_0000_0000
  }

  /**
   * `u32::from_str_radix(s, 16)`: an optional `+`, then at least one digit,
   * with a value that fits in 32 bits.
   */
  function ParseU32Hex(s: string): (r: Option<u32>)
    ensures r.Some? <==> IsHexLiteral(s)
    ensures r.Some? ==> r.value == DigitsValue(DropSign(s)).value
  {
    var digits := if |s| > 0 && s[0] == '+' then s[1..] else s;
    if |digits| == 0 then None
    else
      match DigitsValue(digits)
      case None => None
      case Some(v) => if v < 0x1_0000_0000 then Some(v) else None
  }

  /** `trim_start_matches('#')`: drops every leading `#`. */
  function TrimHashes(s: string): (t: string)
    ensures |t| <= |s| && t == s[|s| - |t|..]
    ensures |t| > 0 ==> t[0] != '#'
    ensures forall i :: 0 <= i < |s| - |t| ==> s[i] == '#'
  {
    if |s| > 0 && s[0] == '#' then TrimHashes(s[1..]) else s
  }

  /** `Color::from_hex_str`. */
  function FromHexStr(s: string): (r: Option<Color>)
    ensures r.Some? <==> IsHexLiteral(TrimHashes(s))
    ensures r.Some? ==> ToHex(r.value) == DigitsValue(DropSign(TrimHashes(s))).value % 0x100_0000
  {
    var v :- ParseU32Hex(TrimHashes(s));
    Some(FromHex(v))
  }

  lemma HexDigitValue(v: nat)
    requires v < 16
    ensures DigitValue(HexDigit(v)) == Some(v)
  {
  }

  lemma HexByteValue(v: byte, prefix: string)
    requires DigitsValue(prefix).Some?
    ensures DigitsValue(prefix + HexByte(v)) == Some(DigitsValue(prefix).value * 0x100 + v)
  {
    var s := prefix + HexByte(v);
    HexDigitValue(v / 16);
    HexDigitValue(v % 16);
    assert s[..|s| - 1] == prefix + [HexDigit(v / 16)];
    assert (prefix + [HexDigit(v / 16)])[..|prefix|] == prefix;
  }

  /** Printing a colour and parsing the string gives the colour back. */
  lemma FromHexStrToHexStr(c: Color)
    ensures FromHexStr(ToHexStr(c)) == Some(c)
  {
    var s := ToHexStr(c);
    var digits := HexByte(c.r) + HexByte(c.g) + HexByte(c.b);
    assert s[1..] == digits;
    assert TrimHashes(s) == TrimHashes(digits);
    assert TrimHashes(digits) == digits;
    HexByteValue(c.r, []);
    assert [] + HexByte(c.r) == HexByte(c.r);
    HexByteValue(c.g, HexByte(c.r));
    HexByteValue(c.b, HexByte(c.r) + HexByte(c.g));
    assert DigitsValue(digits) == Some(ToHex(c));
    FromHexToHex(c);
  }

  lemma ValueOfLongString()
    ensures DigitsValue("1FFFFFF") == Some(0x1FFFFFF)
  {
    assert "1FFFFFF"[..6] == "1FFFFF";
    assert "1FFFFF"[..5] == "1FFFF";
    assert "1FFFF"[..4] == "1FFF";
    assert "1FFF"[..3] == "1FF";
    assert "1FF"[..2] == "1F";
    assert "1F"[..1] == "1";
    assert DigitsValue("1F") == Some(0x1F);
    assert DigitsValue("1FFF") == Some(0x1FFF);
    assert DigitsValue("1FFFFF") == Some(0x1FFFFF);
  }

  lemma ValueOfShortString()
    ensures DigitsValue("FFFFFF") == Some(0xFFFFFF)
  {
    assert "FFFFFF"[..5] == "FFFFF";
    assert "FFFFF"[..4] == "FFFF";
    assert "FFFF"[..3] == "FFF";
    assert "FFF"[..2] == "FF";
    assert "FF"[..1] == "F";
    assert DigitsValue("FF") == Some(0xFF);
    assert DigitsValue("FFFF") == Some(0xFFFF);
  }

  /** Parsing "#1FFFFFF": 25 bits, of which the colour keeps the low 24. */
  lemma ParsesLongString()
    ensures FromHexStr("#1FFFFFF") == Some(Color(0xFF, 0xFF, 0xFF))
  {
    var digits := "1FFFFFF";
    assert digits[0] != '#';
    assert TrimHashes(digits) == digits;
    assert "#1FFFFFF" == ['#'] + digits && ("#1FFFFFF")[1..] == digits;
    ValueOfLongString();
    assert DropSign(digits) == digits;
    assert ParseU32Hex(digits) == Some(0x1FFFFFF);
    assert TrimHashes("#1FFFFFF") == digits;
    assert FromHex(0x1FFFFFF) == Color(0xFF, 0xFF, 0xFF);
  }

  /** Parsing "#FFFFFF". */
  lemma ParsesShortString()
    ensures FromHexStr("#FFFFFF") == Some(Color(0xFF, 0xFF, 0xFF))
  {
    var digits := "FFFFFF";
    assert digits[0] != '#';
    assert TrimHashes(digits) == digits;
    assert "#FFFFFF" == ['#'] + digits && ("#FFFFFF")[1..] == digits;
    ValueOfShortString();
    assert DropSign(digits) == digits;
    assert ParseU32Hex(digits) == Some(0xFFFFFF);
    assert TrimHashes("#FFFFFF") == digits;
    assert FromHex(0xFFFFFF) == Color(0xFF, 0xFF, 0xFF);
  }

  /** Bits above the low 24 are parsed but do not reach the colour. */
  lemma HighBitsIgnored()
    ensures FromHexStr("#1FFFFFF") == FromHexStr("#FFFFFF") == Some(Color(0xFF, 0xFF, 0xFF))
  {
    ParsesLongString();
    ParsesShortString();
  }

  lemma ValueOfTooLong()
    ensures DigitsValue("100000000") == Some(0x1_0000_0000)
  {
    assert "100000000"[..8] == "10000000";
    assert "10000000"[..7] == "1000000";
    assert "1000000"[..6] == "100000";
    assert "100000"[..5] == "10000";
    assert "10000"[..4] == "1000";
    assert "1000"[..3] == "100";
    assert "100"[..2] == "10";
    assert "10"[..1] == "1";
    assert DigitsValue("100") == Some(0x100);
    assert DigitsValue("10000") == Some(0x1_0000);
    assert DigitsValue("1000000") == Some(0x100_0000);
  }

  /** Hashes alone give no colour: no digit is left after trimming. */
  lemma RejectsOnlyHashes()
    ensures FromHexStr("#") == None
  {
    assert TrimHashes("#") == "";
  }

  /** A sign with no digits after it gives no colour. */
  lemma RejectsBareSign()
    ensures FromHexStr("##+") == None
  {
    var sign := "+";
    assert sign[0] != '#' && sign[1..] == [];
    assert ParseU32Hex(sign) == None;
    assert TrimHashes(sign) == sign;
    assert "#+" == ['#'] + sign && ("#+")[1..] == sign;
    assert "##+" == ['#'] + "#+" && ("##+")[1..] == "#+";
  }

  /** A character that is not a hex digit gives no colour. */
  lemma RejectsNonDigit()
    ensures FromHexStr("#G") == None
  {
    assert "#G"[1..] == "G";
    assert TrimHashes("#G") == "G";
    assert DigitValue('G') == None;
    assert !AllHexDigits("G");
  }

  /** A value that does not fit in 32 bits gives no colour. */
  lemma RejectsTooWide()
    ensures FromHexStr("100000000") == None
  {
    ValueOfTooLong();
  }
}
