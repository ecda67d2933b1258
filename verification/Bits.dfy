/** Bytes, their bits and their two halves.

    A byte is a number below 256.  Bit k of a number is found by halving it k times; the
    bitwise operators are the ones that act on every bit alone, which the lemmas state. */
module Bits {

  type Byte = b: int | 0 <= b < 256

  predicate Bit(x: nat, k: nat) {
    if k == 0 then x % 2 == 1 else Bit(x / 2, k - 1)
  }

  function Digit(v: bool): nat { if v then 1 else 0 }

  /** Bitwise `x | y`. */
  function Or(x: nat, y: nat): (r: nat)
    decreases x + y
  {
    if x == 0 && y == 0 then 0
    else Digit(x % 2 == 1 || y % 2 == 1) + 2 * Or(x / 2, y / 2)
  }

  /** Bitwise `x & ~y`. */
  function AndNot(x: nat, y: nat): (r: nat)
    decreases x
  {
    if x == 0 then 0
    else Digit(x % 2 == 1 && y % 2 == 0) + 2 * AndNot(x / 2, y / 2)
  }

  /** The number x with bit k replaced. */
  function WithBit(x: nat, k: nat, v: bool): (r: nat) {
    if k == 0 then x - x % 2 + Digit(v)
    else x % 2 + 2 * WithBit(x / 2, k - 1, v)
  }

  function Pow2(n: nat): (p: nat)
    ensures p > 0
  {
    if n == 0 then 1 else 2 * Pow2(n - 1)
  }

  function PopCount(x: nat): nat {
    if x == 0 then 0 else x % 2 + PopCount(x / 2)
  }

  lemma {:induction false} BitOfZero(k: nat)
    ensures !Bit(0, k)
  {
    if k > 0 { BitOfZero(k - 1); }
  }

  lemma {:induction false} BitOfPow2(j: nat, k: nat)
    ensures Bit(Pow2(j), k) <==> k == j
  {
    if j > 0 && k > 0 { BitOfPow2(j - 1, k - 1); } else if k > 0 { BitOfZero(k - 1); }
  }

  lemma {:induction false} BitOfOr(x: nat, y: nat, k: nat)
    ensures Bit(Or(x, y), k) <==> Bit(x, k) || Bit(y, k)
  {
    if x == 0 && y == 0 {
      BitOfZero(k);
    } else {
      assert Or(x, y) == Digit(x % 2 == 1 || y % 2 == 1) + 2 * Or(x / 2, y / 2);
      assert Or(x, y) / 2 == Or(x / 2, y / 2);
      if k > 0 { BitOfOr(x / 2, y / 2, k - 1); }
    }
  }

  lemma {:induction false} BitOfAndNot(x: nat, y: nat, k: nat)
    ensures Bit(AndNot(x, y), k) <==> Bit(x, k) && !Bit(y, k)
  {
    if x == 0 {
      BitOfZero(k);
    } else {
      assert AndNot(x, y) == Digit(x % 2 == 1 && y % 2 == 0) + 2 * AndNot(x / 2, y / 2);
      assert AndNot(x, y) / 2 == AndNot(x / 2, y / 2);
      if k > 0 { BitOfAndNot(x / 2, y / 2, k - 1); }
    }
  }

  lemma {:induction false} BitOfWithBit(x: nat, k: nat, v: bool, i: nat)
    ensures Bit(WithBit(x, k, v), i) == if i == k then v else Bit(x, i)
  {
    if k > 0 && i > 0 { BitOfWithBit(x / 2, k - 1, v, i - 1); }
  }

  lemma {:induction false} OrBound(x: nat, y: nat, n: nat)
    requires x < Pow2(n) && y < Pow2(n)
    ensures Or(x, y) < Pow2(n)
  {
    if n > 0 && x + y > 0 { OrBound(x / 2, y / 2, n - 1); }
  }

  lemma {:induction false} AndNotBound(x: nat, y: nat)
    ensures AndNot(x, y) <= x
  {
    if x > 0 { AndNotBound(x / 2, y / 2); }
  }

  lemma {:induction false} WithBitBound(x: nat, k: nat, v: bool, n: nat)
    requires x < Pow2(n) && k < n
    ensures WithBit(x, k, v) < Pow2(n)
  {
    if k > 0 { WithBitBound(x / 2, k - 1, v, n - 1); }
  }

  /** A number that is not zero has a bit set. */
  lemma {:induction false} SomeBit(x: nat, n: nat) returns (k: nat)
    requires 0 < x < Pow2(n)
    ensures k < n && Bit(x, k)
  {
    if x % 2 == 1 { k := 0; } else { k := SomeBit(x / 2, n - 1); k := k + 1; }
  }

  /** Numbers with the same bits are the same. */
  lemma {:induction false} SameBits(x: nat, y: nat, n: nat)
    requires x < Pow2(n) && y < Pow2(n)
    requires forall k: nat | k < n :: Bit(x, k) == Bit(y, k)
    ensures x == y
  {
    if n > 0 {
      assert Bit(x, 0) == Bit(y, 0);
      forall k: nat | k < n - 1 ensures Bit(x / 2, k) == Bit(y / 2, k) {
        assert Bit(x, k + 1) == Bit(y, k + 1);
      }
      SameBits(x / 2, y / 2, n - 1);
    }
  }

  lemma OrStep(x: nat, y: nat)
    ensures Or(x, y) == Digit(x % 2 == 1 || y % 2 == 1) + 2 * Or(x / 2, y / 2)
    ensures AndNot(x, y) == Digit(x % 2 == 1 && y % 2 == 0) + 2 * AndNot(x / 2, y / 2)
  {
  }

  lemma LowBit(b: bool, n: nat)
    ensures (Digit(b) + 2 * n) % 2 == Digit(b) && (Digit(b) + 2 * n) / 2 == n
  {
  }

  lemma PopCountStep(x: nat)
    ensures PopCount(x) == x % 2 + PopCount(x / 2)
  {
  }

  /** Counting the bits of a union: those only in x, and those of y. */
  lemma {:induction false} PopCountOr(x: nat, y: nat)
    ensures PopCount(Or(x, y)) == PopCount(AndNot(x, y)) + PopCount(y)
    decreases x + y
  {
    if x + y > 0 {
      PopCountOr(x / 2, y / 2);
      var r, s := Or(x, y), AndNot(x, y);
      OrStep(x, y);
      hide Or, AndNot, PopCount;
      LowBit(x % 2 == 1 || y % 2 == 1, Or(x / 2, y / 2));
      LowBit(x % 2 == 1 && y % 2 == 0, AndNot(x / 2, y / 2));
      PopCountStep(r); PopCountStep(s); PopCountStep(y);
    }
  }

  lemma {:induction false} PopCountBound(x: nat, n: nat)
    requires x < Pow2(n)
    ensures PopCount(x) <= n
  {
    if x > 0 { PopCountBound(x / 2, n - 1); }
  }

  lemma Pow2Of8() ensures Pow2(8) == 256 {
    assert Pow2(4) == 16;
  }

  // ---- byte forms of the operators --------------------------------------------------

  function OrByte(x: Byte, y: Byte): (r: Byte)
    ensures r == Or(x, y)
  {
    Pow2Of8(); OrBound(x, y, 8); Or(x, y)
  }

  function AndNotByte(x: Byte, y: Byte): (r: Byte)
    ensures r == AndNot(x, y)
  {
    AndNotBound(x, y); AndNot(x, y)
  }

  function WithBitByte(x: Byte, k: nat, v: bool): (r: Byte)
    requires k < 8
    ensures r == WithBit(x, k, v)
  {
    Pow2Of8(); WithBitBound(x, k, v, 8); WithBit(x, k, v)
  }

  // ---- the two halves of a byte -------------------------------------------------------

  /** The 4 bits at `half`: the low half is half 0. */
  function Half(b: Byte, half: nat): (n: int)
    requires half < 2
    ensures 0 <= n < 16
  {
    if half == 0 then b % 16 else b / 16
  }

  function WithHalf(b: Byte, half: nat, n: int): (r: Byte)
    requires half < 2 && 0 <= n < 16
    ensures Half(r, half) == n && Half(r, 1 - half) == Half(b, 1 - half)
  {
    if half == 0 then b / 16 * 16 + n else b % 16 + 16 * n
  }
}
