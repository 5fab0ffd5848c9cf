/** Fixed-width integers and big-endian byte strings. */
module Bytes {

  type byte = x: int | 0 <= x < 0x100
  type u16 = x: int | 0 <= x < 0x1_0000
  type u32 = x: int | 0 <= x < 0x1_0000_0000
  type u64 = x: int | 0 <= x < 0x1_0000_0000_0000_0000
  type i16 = x: int | -0x8000 <= x < 0x8000
  type i32 = x: int | -0x8000_0000 <= x < 0x8000_0000

  /** 256 to the power n: one more than the largest value n bytes can hold. */
  function Pow256(n: nat): (p: nat)
    ensures p >= 1
  {
    if n == 0 then 1 else 256 * Pow256(n - 1)
  }

  /** The unsigned value of a byte string read most significant byte first. */
  function BigEndian(s: seq<byte>): nat
  {
    if |s| == 0 then 0 else BigEndian(s[..|s| - 1]) * 256 + s[|s| - 1]
  }

  /** The low n bytes of v, most significant first (Rust's `to_be_bytes`, Python's `to_bytes(n, "big")`). */
  function ToBigEndian(v: nat, n: nat): (s: seq<byte>)
    ensures |s| == n
  {
    if n == 0 then [] else ToBigEndian(v / 256, n - 1) + [v % 256]
  }

  lemma {:induction false} BigEndianBound(s: seq<byte>)
    ensures BigEndian(s) < Pow256(|s|)
  {
    if |s| > 0 {
      BigEndianBound(s[..|s| - 1]);
    }
  }

  /** Encoding a value that fits in n bytes and decoding it gives the value back. */
  lemma {:induction false} BigEndianOfToBigEndian(v: nat, n: nat)
    requires v < Pow256(n)
    ensures BigEndian(ToBigEndian(v, n)) == v
  {
    if n > 0 {
      var s := ToBigEndian(v, n);
      assert s[..|s| - 1] == ToBigEndian(v / 256, n - 1);
      BigEndianOfToBigEndian(v / 256, n - 1);
    }
  }

  /** Decoding a byte string and encoding it at the same width gives the bytes back. */
  lemma {:induction false} ToBigEndianOfBigEndian(s: seq<byte>)
    ensures ToBigEndian(BigEndian(s), |s|) == s
  {
    if |s| > 0 {
      var init := s[..|s| - 1];
      ToBigEndianOfBigEndian(init);
      assert BigEndian(s) / 256 == BigEndian(init);
      assert BigEndian(s) % 256 == s[|s| - 1];
      assert s == init + [s[|s| - 1]];
    }
  }

  /** Four bytes read big-endian are the shifted fields `b0 << 24 | b1 << 16 | b2 << 8 | b3`. */
  lemma BigEndianFour(s: seq<byte>)
    requires |s| == 4
    ensures BigEndian(s) == (s[0] as int) * 0x100_0000 + (s[1] as int) * 0x1_0000 + (s[2] as int) * 0x100 + s[3]
  {
    var s1, s2, s3 := s[..1], s[..2], s[..3];
    assert s1[..0] == [] && s2[..1] == s1 && s3[..2] == s2 && s[..3] == s3;
    assert BigEndian(s1) == s[0];
    assert BigEndian(s2) == (s[0] as int) * 0x100 + s[1];
    assert BigEndian(s3) == (s[0] as int) * 0x1_0000 + (s[1] as int) * 0x100 + s[2];
  }
}
