/**
 * Bit reversal. The CH341A shifts SPI bytes least-significant bit first while
 * flash commands are written most-significant bit first, so every byte that
 * crosses the SPI side is reversed once on the way out and once on the way in.
 */
module Bits {
  /** Bit i of b, bit 0 being the least significant. */
  predicate Bit(b: bv8, i: nat)
    requires i < 8
  {
    (b >> i) & 1 == 1
  }

  /** Reference definition: each bit moved to its mirror position. */
  function Reverse(b: bv8): (r: bv8)
    ensures forall i: nat | i < 8 :: Bit(r, i) == Bit(b, 7 - i)
  {
    ((b & 0x01) << 7) | ((b & 0x02) << 5) | ((b & 0x04) << 3) | ((b & 0x08) << 1)
    | ((b & 0x10) >> 1) | ((b & 0x20) >> 3) | ((b & 0x40) >> 5) | ((b & 0x80) >> 7)
  }

  /** Every byte of s reversed, in place order. */
  function Swapped(s: seq<bv8>): (r: seq<bv8>)
    ensures |r| == |s|
    ensures forall i | 0 <= i < |s| :: r[i] == Reverse(s[i])
  {
    seq(|s|, i requires 0 <= i < |s| => Reverse(s[i]))
  }

  /**
   * The driver's loop: shift the result left and feed it the low bit of the
   * input, eight times.
   */
  method SwapByte(c0: bv8) returns (result: bv8)
    ensures result == Reverse(c0)
  {
    var c := c0;
    result := 0;
    for i := 0 to 8
      invariant c == c0 >> i
      invariant result == Reverse(c0) >> (8 - i)
    {
      result := result << 1;
      result := result | (c & 1);
      c := c >> 1;
    }
  }

  /** Reversing twice gives the byte back, so one transform per direction undoes itself. */
  lemma Involution(b: bv8)
    ensures Reverse(Reverse(b)) == b
  {}

  /** Reversal is a bijection on bytes: distinct bytes stay distinct. */
  lemma Injective(a: bv8, b: bv8)
    ensures Reverse(a) == Reverse(b) <==> a == b
  {
    if Reverse(a) == Reverse(b) {
      Involution(a);
      Involution(b);
    }
  }

  /**
   * The fixed points named by the protocol, and the read opcode 0x03 that the
   * read engine stores already reversed as 0xC0.
   */
  lemma KnownValues()
    ensures Reverse(0x00) == 0x00 && Reverse(0xFF) == 0xFF
    ensures Reverse(0x01) == 0x80 && Reverse(0x03) == 0xC0
  {}

  /** Swapping a whole sequence twice gives it back. */
  lemma {:induction false} SwappedInvolution(s: seq<bv8>)
    ensures Swapped(Swapped(s)) == s
  {
    forall i | 0 <= i < |s|
      ensures Swapped(Swapped(s))[i] == s[i]
    {
      Involution(s[i]);
    }
  }

  /** Swapping commutes with slicing and concatenation. */
  lemma SwappedAppend(a: seq<bv8>, b: seq<bv8>)
    ensures Swapped(a + b) == Swapped(a) + Swapped(b)
  {}
}
