/**
 * Window arithmetic of the pipelined read. One window is one outbound frame
 * of at most 4096 bytes: a chip-select packet, then up to 127 stream packets
 * of one opcode and 31 SPI bytes each. The SPI bytes of a window are the read
 * command, three address bytes and the payload.
 */
module ReadPlan {
  import opened Ch341Defs

  /** SPI bytes one stream packet carries. */
  const PacketPayload: nat := PacketLength - 1

  /** Stream packets per full window, as the driver derives it. */
  const MaxPkgCount: nat :=
    MaxPacketLen / PacketLength + (if MaxPacketLen % PacketLength != 0 then 1 else 0) - 1

  /** Payload bytes per full window, as the driver derives it. */
  const MaxPayload: nat :=
    MaxPacketLen - PacketLength - MaxPacketLen / PacketLength
    - (if MaxPacketLen % PacketLength != 0 then 1 else 0) + 1 - 4

  /** MaxPayload as the increment of the driver's unsigned 32-bit address. */
  const MaxPayloadWord: bv32 := 3933

  /** The two derived constants, and why they fit: 127 packets of 31 SPI bytes carry the 4 command bytes and the payload. */
  lemma WindowConstants()
    ensures MaxPkgCount == 127 && MaxPayload == 3933 && MaxPayloadWord as int == MaxPayload
    ensures MaxPayload + 4 == MaxPkgCount * PacketPayload
    ensures PacketLength * (MaxPkgCount + 1) == MaxPacketLen
  {}

  /** One window: payload bytes read, inbound packets expected, outbound frame length. */
  datatype Window = Window(payload: nat, pkgCount: nat, pkgLen: nat)

  /**
   * The window the driver plans when len bytes remain: a full window while
   * more than MaxPayload remain, else the last one. Its packet count is the
   * number of 31-byte stream packets needed for the 4 command bytes and the
   * payload.
   */
  function PlanWindow(len: nat): (w: Window)
    requires len > 0
    ensures 0 < w.payload <= len && w.payload <= MaxPayload
    ensures w.payload < len ==> w.payload == MaxPayload
    ensures 0 < w.pkgCount <= MaxPkgCount
    ensures (w.pkgCount - 1) * PacketPayload < w.payload + 4 <= w.pkgCount * PacketPayload
    ensures w.pkgLen <= MaxPacketLen
  {
    if len > MaxPayload then
      Window(MaxPayload, MaxPkgCount, MaxPacketLen)
    else
      var count := (len + 4) / PacketPayload + (if (len + 4) % PacketPayload != 0 then 1 else 0);
      Window(len, count, count * PacketLength + (len + 4) % PacketPayload + 1)
  }

  /**
   * Every window of a read of len bytes, in order: none for an empty read,
   * and each one reads at least one byte and at most a full window's worth
   * in a frame that fits the 4096-byte buffer.
   */
  function Plan(len: nat): (ps: seq<Window>)
    ensures ps == [] <==> len == 0
    ensures forall k | 0 <= k < |ps| :: 0 < ps[k].payload <= MaxPayload && ps[k].pkgLen <= MaxPacketLen
    decreases len
  {
    if len == 0 then [] else [PlanWindow(len)] + Plan(len - PlanWindow(len).payload)
  }

  function TotalPayload(ws: seq<Window>): nat {
    if ws == [] then 0 else ws[0].payload + TotalPayload(ws[1..])
  }

  /** The windows' payloads add up to the requested length: nothing is read twice or skipped. */
  lemma {:induction false} PlanCoversLength(len: nat)
    ensures TotalPayload(Plan(len)) == len
    decreases len
  {
    if len > 0 {
      PlanCoversLength(len - PlanWindow(len).payload);
    }
  }

  /** A read of len bytes takes ceil(len / MaxPayload) windows. */
  lemma {:induction false} PlanCount(len: nat)
    ensures |Plan(len)| == (len + MaxPayload - 1) / MaxPayload
    decreases len
  {
    if len > 0 {
      PlanCount(len - PlanWindow(len).payload);
    }
  }

  /** Every window but the last is full: 127 packets and a 4096-byte frame. */
  lemma {:induction false} PlanFullWindows(len: nat, k: nat)
    requires k + 1 < |Plan(len)|
    ensures Plan(len)[k] == Window(MaxPayload, MaxPkgCount, MaxPacketLen)
    decreases len
  {
    if k > 0 {
      PlanFullWindows(len - PlanWindow(len).payload, k - 1);
    }
  }

  /** The demonstration read of 8000 bytes: two full windows and one of 134 bytes in 5 packets. */
  lemma Plan8000()
    ensures Plan(8000) == [Window(3933, 127, 4096), Window(3933, 127, 4096), Window(134, 5, 175)]
  {
    assert Plan(134) == [Window(134, 5, 175)];
    assert Plan(4067) == [Window(3933, 127, 4096)] + Plan(134);
  }

  /**
   * The frame length the layout actually needs: the chip-select packet, one
   * opcode per stream packet, the 4 command bytes and the payload.
   */
  function FrameLen(w: Window): (n: nat)
    requires 0 < w.pkgCount && (w.pkgCount - 1) * PacketPayload < w.payload + 4 <= w.pkgCount * PacketPayload
    ensures PacketLength * w.pkgCount < n <= PacketLength * (w.pkgCount + 1)
    ensures n - PacketLength - w.pkgCount == w.payload + 4
  {
    PacketLength + w.pkgCount + w.payload + 4
  }

  /**
   * The frame length the driver sends for a last window is short by 31 bytes
   * exactly when the command and payload fill the last stream packet; every
   * other window's frame is the needed length.
   */
  lemma {:induction false} ShortFinalFrame(len: nat)
    requires len > 0
    ensures var w := PlanWindow(len);
      if len <= MaxPayload && (len + 4) % PacketPayload == 0 then w.pkgLen + PacketPayload == FrameLen(w)
      else w.pkgLen == FrameLen(w)
  {
    var w := PlanWindow(len);
    if len <= MaxPayload {
      var q := (len + 4) / PacketPayload;
      var r := (len + 4) % PacketPayload;
      assert len + 4 == q * PacketPayload + r;
    }
  }

  /** The smallest read that shows it: 27 bytes need a 64-byte frame, 33 are sent. */
  lemma ShortFinalFrameExample()
    ensures PlanWindow(27) == Window(27, 1, 33) && FrameLen(PlanWindow(27)) == 64
  {}

  /** The driver as written, or with the defects recorded in the findings corrected. */
  datatype Variant = AsWritten | Corrected

  /** Length of the outbound frame sent for the window planned when len bytes remain. */
  function SentLen(v: Variant, len: nat): (n: nat)
    requires len > 0
    ensures PacketLength < n <= MaxPacketLen
    ensures v == Corrected ==> n == FrameLen(PlanWindow(len))
  {
    var w := PlanWindow(len);
    if v == AsWritten then w.pkgLen else FrameLen(w)
  }
}
