/**
 * The 4096-byte outbound buffer of the pipelined read: prefilled once with
 * 0xFF dummy bytes and a stream opcode at the head of every 32-byte packet,
 * then, per window, the chip-select frame, the read command and the address.
 */
module ReadLayout {
  import opened Ch341Defs
  import opened Bits
  import opened Framer
  import opened ReadPlan

  /** The prefilled byte at offset i: a stream opcode at each packet head after the first, else a dummy 0xFF. */
  function Filler(i: nat): (b: bv8)
    ensures b == CmdSpiStream <==> PacketLength <= i && i % PacketLength == 0
    ensures b != CmdSpiStream ==> b == 0xFF
  {
    if PacketLength <= i && i % PacketLength == 0 then CmdSpiStream else 0xFF
  }

  /** Offsets the driver's marker loop writes: 32 * i for i from 1 to 4096 / 32. */
  function SourceMarkerOffsets(): set<nat> {
    set i: nat | 1 <= i < MaxPacketLen / PacketLength + 1 :: i * PacketLength
  }

  /** The marker loop as written writes one byte past the 4096-byte buffer, and only that one. */
  lemma MarkerLoopOverrun()
    ensures MaxPacketLen in SourceMarkerOffsets()
    ensures forall k | k in SourceMarkerOffsets() && k != MaxPacketLen :: k < MaxPacketLen
  {
    var last: nat := MaxPacketLen / PacketLength;
    assert last * PacketLength == MaxPacketLen;
  }

  /** Whether s agrees with the prefill everywhere a window does not rewrite. */
  ghost predicate Prefilled(s: seq<bv8>) {
    |s| == MaxPacketLen
    && forall i | 4 <= i < MaxPacketLen && !(PacketLength + 1 <= i < PacketLength + 5) :: s[i] == Filler(i)
  }

  /**
   * memset and the marker loop, with the loop bounded by the buffer: the
   * markers go at 32, 64, ..., 4064.
   */
  method PrefillOut(out: array<bv8>)
    requires out.Length == MaxPacketLen
    modifies out
    ensures forall i | 0 <= i < MaxPacketLen :: out[i] == Filler(i)
  {
    forall i | 0 <= i < MaxPacketLen {
      out[i] := 0xFF;
    }
    for i := 1 to MaxPacketLen / PacketLength
      invariant forall k | 0 <= k < MaxPacketLen ::
        out[k] == if k < i * PacketLength then Filler(k) else 0xFF
    {
      out[i * PacketLength] := CmdSpiStream;
    }
  }

  /**
   * The three address bytes, already bit-reversed. As written the driver
   * sends bits 31..8 of the address; the corrected layout sends bits 23..0.
   */
  function AddrBytes(v: Variant, add: bv32): (a: seq<bv8>)
    ensures |a| == 3
  {
    if v == AsWritten then
      [Reverse(((add >> 24) & 0xFF) as bv8), Reverse(((add >> 16) & 0xFF) as bv8), Reverse(((add >> 8) & 0xFF) as bv8)]
    else
      [Reverse(((add >> 16) & 0xFF) as bv8), Reverse(((add >> 8) & 0xFF) as bv8), Reverse((add & 0xFF) as bv8)]
  }

  /** The 24-bit address a flash decodes from three bit-reversed address bytes. */
  function FlashAddress(a: seq<bv8>): (r: bv32)
    requires |a| == 3
    ensures r < 0x100_0000
  {
    ((Reverse(a[0]) as bv32) << 16) | ((Reverse(a[1]) as bv32) << 8) | (Reverse(a[2]) as bv32)
  }

  /**
   * As written, the flash is sent address add >> 8: addresses that differ
   * only in their low byte read the same place.
   */
  lemma AddressAsWritten(add: bv32)
    ensures FlashAddress(AddrBytes(AsWritten, add)) == add >> 8
  {}

  /** Corrected, the flash is sent the low 24 bits of the address. */
  lemma AddressCorrected(add: bv32)
    ensures FlashAddress(AddrBytes(Corrected, add)) == add & 0xFF_FFFF
  {}

  /** The smallest read that shows it: address 0x100 reaches the flash as 0x1. */
  lemma AddressExample()
    ensures FlashAddress(AddrBytes(AsWritten, 0x100)) == 0x1
    ensures FlashAddress(AddrBytes(Corrected, 0x100)) == 0x100
  {
    AddressAsWritten(0x100);
    AddressCorrected(0x100);
  }

  /** The outbound buffer of the window that starts at add. */
  function WindowBuffer(v: Variant, add: bv32): (s: seq<bv8>)
    ensures |s| == MaxPacketLen && Prefilled(s)
    ensures s[..4] == CsFrame(true)
    ensures s[PacketLength + 1] == Reverse(0x03)
    ensures s[PacketLength + 2..PacketLength + 5] == AddrBytes(v, add)
  {
    seq(MaxPacketLen, i requires 0 <= i < MaxPacketLen =>
      if i < 4 then CsFrame(true)[i]
      else if i == PacketLength + 1 then 0xC0
      else if PacketLength + 2 <= i < PacketLength + 5 then AddrBytes(v, add)[i - PacketLength - 2]
      else Filler(i))
  }

  /** Between windows only the three address bytes of the buffer change. */
  lemma WindowBufferChangesOnlyAddress(v: Variant, a: bv32, b: bv32, i: nat)
    requires i < MaxPacketLen && !(PacketLength + 2 <= i < PacketLength + 5)
    ensures WindowBuffer(v, a)[i] == WindowBuffer(v, b)[i]
  {}

  /** The driver's tmp after i shifts of the address by a byte. */
  function AddrWord(add: bv32, i: nat): bv32
    requires i <= 3
  {
    if i == 0 then add else if i == 1 then add << 8 else if i == 2 then add << 16 else add << 24
  }

  /** Shifting tmp by a byte moves it to the next pass of the address loop. */
  lemma AddrWordShift(add: bv32, i: nat)
    requires i < 3
    ensures AddrWord(add, i) << 8 == AddrWord(add, i + 1)
  {
    if i == 0 {
    } else if i == 1 {
    } else {
    }
  }

  /** Byte i of the as-written address is the top byte of tmp after i shifts. */
  lemma AddrWordByte(add: bv32, i: nat)
    requires i < 3
    ensures AddrBytes(AsWritten, add)[i] == Reverse(((AddrWord(add, i) >> 24) & 0xFF) as bv8)
  {
    if i == 0 {
    } else if i == 1 {
    } else {
    }
  }

  /**
   * The per-window rewrite at the top of the driver's read loop: chip-select
   * frame at 0..3, the reversed read opcode at 33, the address at 34..36.
   */
  method LayoutWindow(out: array<bv8>, add: bv32)
    requires Prefilled(out[..])
    modifies out
    ensures out[..] == WindowBuffer(AsWritten, add)
  {
    SpiCs(out, true);
    var idx := PacketLength + 1;
    out[idx] := 0xC0;
    idx := idx + 1;
    var tmp := add;
    for i := 0 to 3
      invariant idx == PacketLength + 2 + i
      invariant tmp == AddrWord(add, i)
      invariant Prefilled(out[..]) && out[..4] == CsFrame(true) && out[PacketLength + 1] == 0xC0
      invariant out[PacketLength + 2..idx] == AddrBytes(AsWritten, add)[..i]
    {
      var b;
      b, tmp := NextAddressByte(tmp, add, i);
      ghost var before := out[..];
      out[idx] := b;
      assert out[..] == before[idx := b];
      AddressByteWritten(before, idx, b, AddrBytes(AsWritten, add)[..i]);
      assert AddrBytes(AsWritten, add)[..i] + [b] == AddrBytes(AsWritten, add)[..i + 1];
      idx := idx + 1;
    }
    WindowBufferUnique(AsWritten, add, out[..]);
  }

  /** One pass of the address loop: the reversed top byte of tmp, and tmp shifted by a byte. */
  method NextAddressByte(tmp: bv32, ghost add: bv32, ghost i: nat) returns (b: bv8, tmp': bv32)
    requires i < 3 && tmp == AddrWord(add, i)
    ensures b == AddrBytes(AsWritten, add)[i] && tmp' == AddrWord(add, i + 1)
  {
    AddrWordShift(add, i);
    AddrWordByte(add, i);
    b := SwapByte(((tmp >> 24) & 0xFF) as bv8);
    tmp' := tmp << 8;
  }

  /** Writing one address byte keeps the rest of the window and extends the address. */
  lemma AddressByteWritten(s: seq<bv8>, j: nat, b: bv8, a: seq<bv8>)
    requires Prefilled(s) && s[..4] == CsFrame(true) && s[PacketLength + 1] == 0xC0
    requires PacketLength + 2 <= j < PacketLength + 5 && s[PacketLength + 2..j] == a
    ensures var t := s[j := b];
      Prefilled(t) && t[..4] == CsFrame(true) && t[PacketLength + 1] == 0xC0
      && t[PacketLength + 2..j + 1] == a + [b]
  {
    var t := s[j := b];
    assert t[PacketLength + 2..j + 1] == s[PacketLength + 2..j] + [b];
  }

  /** WindowBuffer is the only prefilled buffer with its chip-select frame, opcode and address. */
  lemma WindowBufferUnique(v: Variant, add: bv32, s: seq<bv8>)
    requires Prefilled(s) && s[..4] == CsFrame(true) && s[PacketLength + 1] == 0xC0
    requires s[PacketLength + 2..PacketLength + 5] == AddrBytes(v, add)
    ensures s == WindowBuffer(v, add)
  {
    var w := WindowBuffer(v, add);
    forall i | 0 <= i < |s|
      ensures s[i] == w[i]
    {
      if i < 4 {
        assert s[i] == s[..4][i];
      } else if PacketLength + 2 <= i < PacketLength + 5 {
        assert s[i] == s[PacketLength + 2..PacketLength + 5][i - PacketLength - 2];
      }
    }
  }
}
