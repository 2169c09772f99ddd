/** The synchronous SPI exchange and the capacity probe built on it. */
module Stream {
  import opened Ch341Defs
  import opened Bits
  import opened Transport
  import opened Framer

  /**
   * Longest payload whose frame fits the 4096-byte frame buffer: a 32-byte
   * chip-select packet, one stream opcode, then the payload.
   */
  const MaxStreamLen: nat := MaxPacketLen - PacketLength - 1

  /** The length guard as the driver writes it: only len > 4096 - 32 is refused. */
  predicate SourceGuardAdmits(len: nat) {
    !(len > MaxPacketLen - PacketLength)
  }

  /**
   * The guard as written admits exactly one length whose frame does not fit:
   * 4064, whose last payload byte would be stored at index 4096 of a
   * 4096-byte buffer.
   */
  lemma SourceGuardOverrun(len: nat)
    ensures SourceGuardAdmits(len) && PacketLength + 1 + len > MaxPacketLen
      <==> len == MaxPacketLen - PacketLength
    ensures SourceGuardAdmits(len) <==> len <= MaxStreamLen || len == MaxStreamLen + 1
  {}

  /**
   * An outbound stream frame for payload: the chip-select assert frame at
   * offsets 0..3, the stream opcode at 32, the payload bit-reversed from 33 on.
   * Offsets 4..31 are not specified: the driver never initialises them.
   * The payload follows the one opcode without a break, however long it is.
   */
  predicate IsStreamFrame(f: seq<bv8>, payload: seq<bv8>): (r: bool)
    ensures r <==> (|f| == PacketLength + 1 + |payload| && f[..4] == CsFrame(true)
                    && f[PacketLength] == CmdSpiStream && Swapped(f[PacketLength + 1..]) == payload)
  {
    var tail := if |f| > PacketLength then f[PacketLength + 1..] else [];
    SwappedInvolution(tail);
    SwappedInvolution(payload);
    |f| == PacketLength + 1 + |payload|
    && f[..4] == CsFrame(true)
    && f[PacketLength] == CmdSpiStream
    && f[PacketLength + 1..] == Swapped(payload)
  }

  /**
   * The frame carries one stream opcode only: past the first 32-byte packet,
   * the offsets where a packet would start hold payload bytes, not 0xA8.
   */
  lemma StreamFrameUntiled(f: seq<bv8>, payload: seq<bv8>, k: nat)
    requires IsStreamFrame(f, payload) && k >= 2 && PacketLength * k - PacketLength - 1 < |payload|
    ensures PacketLength * k < |f| && f[PacketLength * k] == Reverse(payload[PacketLength * k - PacketLength - 1])
  {
    var j := PacketLength * k - PacketLength - 1;
    assert f[PacketLength + 1..][j] == Swapped(payload)[j];
  }

  /** A 40-byte payload whose byte 31 is zero puts 0x00 where the second packet's opcode would go. */
  lemma StreamFrameUntiledExample(f: seq<bv8>, payload: seq<bv8>)
    requires IsStreamFrame(f, payload) && |payload| == 40 && payload[31] == 0x00
    ensures f[2 * PacketLength] == 0x00 && f[2 * PacketLength] != CmdSpiStream
  {
    StreamFrameUntiled(f, payload, 2);
    KnownValues();
  }

  /**
   * ch341SpiStream: sends len bytes of out as one frame, reads back at most
   * len bytes into inBuf, reverses the received bytes in place, then
   * deasserts chip select. Returns 0, or -1 when the length is refused or a
   * transfer fails; after a failed frame write or reply read chip select is
   * left asserted.
   */
  method SpiStream(dev: Device, out: array<bv8>, inBuf: array<bv8>, len: nat) returns (ret: int)
    requires len <= MaxStreamLen ==> len <= out.Length && len <= inBuf.Length
    modifies dev, inBuf
    ensures len > MaxStreamLen ==> ret == -1 && unchanged(dev) && inBuf[..] == old(inBuf[..])
    ensures len <= MaxStreamLen ==>
      |dev.out| > |old(dev.out)| && dev.out[..|old(dev.out)|] == old(dev.out)
      && IsStreamFrame(dev.out[|old(dev.out)|], old(out[..len]))
      && dev.events == old(dev.events)
    ensures len <= MaxStreamLen && !WriteOk(old(dev.writeResults)) ==>
      ret == -1 && |dev.out| == |old(dev.out)| + 1
      && dev.writeResults == Tail(old(dev.writeResults)) && dev.readResults == old(dev.readResults)
      && inBuf[..] == old(inBuf[..])
    ensures len <= MaxStreamLen && WriteOk(old(dev.writeResults)) && NextRead(old(dev.readResults)).None? ==>
      ret == -1 && |dev.out| == |old(dev.out)| + 1
      && dev.writeResults == Tail(old(dev.writeResults)) && dev.readResults == Tail(old(dev.readResults))
      && inBuf[..] == old(inBuf[..])
    ensures len <= MaxStreamLen && WriteOk(old(dev.writeResults)) && NextRead(old(dev.readResults)).Some? ==>
      var d := NextRead(old(dev.readResults)).value;
      var n := Min(|d|, len);
      inBuf[..n] == Swapped(d[..n]) && inBuf[n..] == old(inBuf[n..])
      && |dev.out| == |old(dev.out)| + 2 && dev.out[|old(dev.out)| + 1] == CsFrame(false)
      && dev.writeResults == Tail(Tail(old(dev.writeResults)))
      && dev.readResults == Tail(old(dev.readResults))
      && ret == (if WriteOk(Tail(old(dev.writeResults))) then 0 else -1)
  {
    if len > MaxStreamLen {
      return -1;
    }
    var outBuf := BuildStreamFrame(out, len);
    ghost var sent := |dev.out|;
    ret := dev.BulkWrite(outBuf, len + PacketLength + 1);
    assert dev.out[sent] == outBuf[..len + PacketLength + 1];
    if ret < 0 {
      return -1;
    }
    ret := dev.BulkRead(inBuf, len);
    if ret < 0 {
      return -1;
    }
    SwapInPlace(inBuf, ret);
    SpiCs(outBuf, false);
    ret := dev.BulkWrite(outBuf, 3);
    if ret < 0 {
      return -1;
    }
    return 0;
  }

  /**
   * The frame-building part of ch341SpiStream: a fresh 4096-byte buffer whose
   * first len + 33 bytes are a stream frame for out[..len].
   */
  method BuildStreamFrame(out: array<bv8>, len: nat) returns (outBuf: array<bv8>)
    requires len <= MaxStreamLen && len <= out.Length
    ensures fresh(outBuf) && outBuf.Length == MaxPacketLen
    ensures IsStreamFrame(outBuf[..PacketLength + 1 + len], out[..len])
  {
    outBuf := new bv8[MaxPacketLen];
    SpiCs(outBuf, true);
    var ptr := PacketLength;
    outBuf[ptr] := CmdSpiStream;
    ptr := ptr + 1;
    for i := 0 to len
      invariant ptr == PacketLength + 1 + i
      invariant outBuf[..4] == CsFrame(true) && outBuf[PacketLength] == CmdSpiStream
      invariant outBuf[PacketLength + 1..ptr] == Swapped(out[..i])
    {
      var b := SwapByte(out[i]);
      outBuf[ptr] := b;
      ptr := ptr + 1;
    }
  }

  /** The reply loop of ch341SpiStream: reverses the first n bytes of a in place. */
  method SwapInPlace(a: array<bv8>, n: nat)
    requires n <= a.Length
    modifies a
    ensures a[..n] == Swapped(old(a[..n])) && a[n..] == old(a[n..])
  {
    for i := 0 to n
      invariant a[..i] == Swapped(old(a[..i])) && a[i..] == old(a[i..])
    {
      var b := SwapByte(a[i]);
      a[i] := b;
    }
  }

  /** The JEDEC-ID probe: opcode 0x9F followed by three dummy bytes. */
  const JedecProbe: seq<bv8> := [0x9F, 0x00, 0x00, 0x00]

  /**
   * ch341SpiCapacity: runs the JEDEC-ID probe and returns the fourth reply
   * byte, the capacity code, or -1 when the exchange fails. stale is what the
   * uninitialised reply buffer held; it shows through when the device answers
   * with fewer than four bytes.
   */
  method SpiCapacity(dev: Device, stale: seq<bv8>) returns (ret: int)
    requires |stale| == 4
    modifies dev
    ensures |dev.out| > |old(dev.out)| && IsStreamFrame(dev.out[|old(dev.out)|], JedecProbe)
    ensures ret == -1 || 0 <= ret < 256
    ensures ret >= 0 <==>
      WriteOk(old(dev.writeResults)) && NextRead(old(dev.readResults)).Some?
      && WriteOk(Tail(old(dev.writeResults)))
    ensures ret >= 0 ==>
      var d := NextRead(old(dev.readResults)).value;
      ret == (if |d| >= 4 then Reverse(d[3]) else stale[3]) as int
    ensures dev.events == old(dev.events) && dev.out[..|old(dev.out)|] == old(dev.out)
    ensures !WriteOk(old(dev.writeResults)) ==>
      |dev.out| == |old(dev.out)| + 1
      && dev.writeResults == Tail(old(dev.writeResults)) && dev.readResults == old(dev.readResults)
    ensures WriteOk(old(dev.writeResults)) && NextRead(old(dev.readResults)).None? ==>
      |dev.out| == |old(dev.out)| + 1
      && dev.writeResults == Tail(old(dev.writeResults)) && dev.readResults == Tail(old(dev.readResults))
    ensures WriteOk(old(dev.writeResults)) && NextRead(old(dev.readResults)).Some? ==>
      |dev.out| == |old(dev.out)| + 2 && dev.out[|old(dev.out)| + 1] == CsFrame(false)
      && dev.writeResults == Tail(Tail(old(dev.writeResults))) && dev.readResults == Tail(old(dev.readResults))
  {
    var out := new bv8[4];
    var ptr := 0;
    out[ptr] := 0x9F;
    ptr := ptr + 1;
    for i := 0 to 3
      modifies out
      invariant ptr == i + 1 && out[0] == 0x9F
      invariant forall k | 1 <= k < ptr :: out[k] == 0x00
    {
      out[ptr] := 0x00;
      ptr := ptr + 1;
    }
    assert out[..4] == JedecProbe;
    var inBuf := new bv8[4](i requires 0 <= i < 4 => stale[i]);
    ghost var sent := |dev.out|;
    ret := SpiStream(dev, out, inBuf, 4);
    assert IsStreamFrame(dev.out[sent], JedecProbe);
    if ret < 0 {
      return ret;
    }
    return inBuf[3] as int;
  }
}
