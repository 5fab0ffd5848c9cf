/**
 * Bitwise OR on integers with two's-complement semantics (Python's `|` on
 * unbounded ints, and the `|` of the Rust and C code on non-negative values),
 * and the facts about disjoint bit fields the codecs rely on.
 */
module Bits {

  function Pow2(k: nat): (p: nat)
    ensures p >= 1
  {
    if k == 0 then 1 else 2 * Pow2(k - 1)
  }

  function Abs(a: int): nat
  {
    if a < 0 then -a else a
  }

  /** `a | b`, bit by bit from the least significant end; `/` and `%` by 2 are floor division here. */
  function Or(a: int, b: int): int
    decreases Abs(a) + Abs(b)
  {
    if a == 0 then b
    else if b == 0 then a
    else if a == -1 || b == -1 then -1
    else 2 * Or(a / 2, b / 2) + (if a % 2 == 1 || b % 2 == 1 then 1 else 0)
  }

  lemma {:induction false} OrZeroRight(a: int)
    ensures Or(a, 0) == a
  {
  }

  /** OR-ing a value shifted left by k with a value of fewer than k bits is addition. */
  lemma {:induction false} OrDisjoint(x: int, y: nat, k: nat)
    requires y < Pow2(k)
    ensures Or(x * Pow2(k), y) == x * Pow2(k) + y
    decreases k
  {
    if x == 0 || y == 0 {
    } else {
      assert k > 0;
      var a := x * Pow2(k);
      assert a == 2 * (x * Pow2(k - 1));
      assert a / 2 == x * Pow2(k - 1) && a % 2 == 0;
      assert a != -1;
      OrDisjoint(x, y / 2, k - 1);
    }
  }

  /**
   * OR-ing a value shifted left by k with a negative value of at most k
   * significant bits gives the negative value: its sign extension already
   * sets every bit the shifted value could contribute.
   */
  lemma {:induction false} OrNegativeLow(x: int, y: int, k: nat)
    requires -(Pow2(k) as int) <= y < 0
    ensures Or(x * Pow2(k), y) == y
    decreases k
  {
    var a := x * Pow2(k);
    if a != 0 && y != -1 {
      assert k > 0;
      assert a == 2 * (x * Pow2(k - 1));
      assert a / 2 == x * Pow2(k - 1) && a % 2 == 0;
      OrNegativeLow(x, y / 2, k - 1);
      assert y == 2 * (y / 2) + y % 2;
    }
  }

  /** OR of two non-negative values below 2^n stays non-negative and below 2^n. */
  lemma {:induction false} OrBound(a: nat, b: nat, n: nat)
    requires a < Pow2(n) && b < Pow2(n)
    ensures 0 <= Or(a, b) < Pow2(n)
    decreases n
  {
    if a != 0 && b != 0 {
      OrBound(a / 2, b / 2, n - 1);
    }
  }

  /** OR of two non-negative values is non-negative. */
  lemma {:induction false} OrNonNegative(a: nat, b: nat)
    ensures Or(a, b) >= 0
    decreases a + b
  {
    if a != 0 && b != 0 {
      OrNonNegative(a / 2, b / 2);
    }
  }

  /** The low bit of an OR is the OR of the low bits. */
  lemma {:induction false} OrLowBit(a: nat, b: nat)
    ensures Or(a, b) % 2 == (if a % 2 == 1 || b % 2 == 1 then 1 else 0)
  {
  }

  /** The powers of two the packings use. */
  lemma Pow2Values()
    ensures Pow2(4) == 0x10 && Pow2(8) == 0x100 && Pow2(14) == 0x4000 && Pow2(16) == 0x1_0000
    ensures Pow2(18) == 0x4_0000 && Pow2(32) == 0x1_0000_0000
  {
    assert Pow2(4) == 0x10;
    assert Pow2(8) == 0x100;
    assert Pow2(12) == 0x1000;
    assert Pow2(14) == 0x4000;
    assert Pow2(16) == 0x1_0000;
    assert Pow2(18) == 0x4_0000;
    assert Pow2(24) == 0x100_0000;
    assert Pow2(28) == 0x1000_0000;
  }

  /** Quotient and remainder of q * m + r for a remainder already in range. */
  lemma DivModUnique(q: int, r: int, m: int)
    requires m > 0 && 0 <= r < m
    ensures (q * m + r) / m == q && (q * m + r) % m == r
  {
    var d := q * m + r;
    var k := d / m - q;
    assert d == (d / m) * m + d % m;
    assert k * m == r - d % m;
    SmallMultipleIsZero(k, m);
  }

  lemma SmallMultipleIsZero(k: int, m: int)
    requires m > 0 && -m < k * m < m
    ensures k == 0
  {
    assert k >= 1 ==> k * m >= m;
    assert k <= -1 ==> k * m <= -m;
  }
}
