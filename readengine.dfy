/**
 * ch341SpiRead: the pipelined read. Each window lays out its outbound frame,
 * arms the bulk-in transfer, submits the frame, pumps events until the
 * window's packets are in or a transfer fails, then deasserts chip select.
 */
module ReadEngine {
  import opened Ch341Defs
  import opened Bits
  import opened Transport
  import opened Framer
  import opened ReadPlan
  import opened ReadLayout
  import opened Reassembly

  /**
   * The state of a read between windows: address and length still to read,
   * what the device has yet to deliver, the caller's buffer, the inbound
   * cursor, the frames sent so far and ret, the driver's unsigned 32-bit
   * return variable.
   */
  datatype ReadState = ReadState(
    add: bv32, len: nat,
    events: seq<Event>, writes: seq<bool>,
    buf: seq<bv8>, cursor: nat,
    out: seq<seq<bv8>>, ret: U32)

  /** Values of a C uint32_t. */
  type U32 = x: int | 0 <= x < 0x1_0000_0000

  /** A C int32_t stored into a uint32_t. */
  function ToU32(r: int): (u: U32)
    requires -0x8000_0000 <= r < 0x8000_0000
    ensures Int32(u) == r
  {
    if r < 0 then r + 0x1_0000_0000 else r
  }

  /** A C uint32_t returned as int32_t. */
  function Int32(u: U32): (r: int)
    ensures -0x8000_0000 <= r < 0x8000_0000
    ensures r < 0 <==> u >= 0x8000_0000
  {
    if u < 0x8000_0000 then u else u - 0x1_0000_0000
  }

  /** What -1 leaves in the driver's unsigned ret. */
  const Minus1: U32 := ToU32(-1)

  /**
   * One window. As written: the inbound cursor restarts at the buffer, an
   * inbound failure ends the read but ret is then overwritten by the
   * deassert's result, and a failed deassert does not stop the read.
   * Corrected: the cursor carries on across windows, the read stops at the
   * first failure of either kind and ret keeps -1.
   */
  function Step(v: Variant, s: ReadState): (t: ReadState)
    requires s.len > 0
    ensures t.len < s.len && |t.buf| == |s.buf|
  {
    var w := PlanWindow(s.len);
    var frame := WindowBuffer(v, s.add)[..SentLen(v, s.len)];
    var c := Collect(s.events, 0, w.pkgCount);
    var at := if v == AsWritten then 0 else s.cursor;
    var ok := WriteOk(s.writes);
    var stop := c.count == -1 || (v == Corrected && !ok);
    ReadState(
      if s.len > MaxPayload then s.add + MaxPayloadWord else s.add,
      if stop then 0 else s.len - w.payload,
      c.rest, Tail(s.writes),
      Overlay(s.buf, at, c.bytes), at + |c.bytes|,
      s.out + [frame, CsFrame(false)],
      if v == AsWritten then (if ok then 3 else Minus1)
      else if stop then Minus1 else s.ret)
  }

  /**
   * Windows until nothing is left to read. Its ensures only records the loop's
   * exit condition; what a run computes is stated by the lemmas about it.
   */
  function Run(v: Variant, s: ReadState): (t: ReadState)
    ensures t.len == 0 && |t.buf| == |s.buf|
    decreases s.len
  {
    if s.len == 0 then s else Run(v, Step(v, s))
  }

  /** What is left of the wait loop once acc has been appended and count packets are in. */
  function Remaining(events: seq<Event>, count: int, pkgCount: nat, acc: seq<bv8>): Collected
    requires 0 <= count <= pkgCount
  {
    if count < pkgCount then Prepend(acc, Collect(events, count, pkgCount))
    else Collected(events, count, acc)
  }

  /**
   * Lines 238-258 of one window: arm the bulk-in transfer with the caller's
   * buffer, submit the frame, and pump events until pkgCount packets are in
   * or a transfer fails, resubmitting the bulk-in transfer after each packet
   * short of the last.
   */
  method ExchangeWindow(dev: Device, inb: InboundTransfer, out: array<bv8>, pkgLen: nat, pkgCount: nat)
    returns (failed: bool)
    requires 0 < pkgCount && pkgLen <= out.Length && inb.dest != out
    modifies dev, inb, inb.dest
    ensures var c := Collect(old(dev.events), 0, pkgCount);
      dev.events == c.rest && inb.bulkinCount == c.count && failed == (c.count == -1)
      && inb.cursor == |c.bytes| && inb.dest[..] == Overlay(old(inb.dest[..]), 0, c.bytes)
    ensures !inb.pending
    ensures dev.out == old(dev.out) + [out[..pkgLen]]
    ensures dev.writeResults == old(dev.writeResults) && dev.readResults == old(dev.readResults)
  {
    ghost var d0 := inb.dest[..];
    inb.bulkinCount := 0;
    inb.FillAndSubmit();
    dev.SubmitOut(out, pkgLen);
    var oldCounter := inb.bulkinCount;
    ghost var acc: seq<bv8> := [];
    ghost var goal := Collect(dev.events, 0, pkgCount);
    failed := false;
    while inb.bulkinCount < pkgCount
      invariant 0 <= inb.bulkinCount <= pkgCount && oldCounter == inb.bulkinCount
      invariant inb.pending == (inb.bulkinCount < pkgCount) && !failed
      invariant inb.cursor == |acc| && inb.dest[..] == Overlay(d0, 0, acc)
      invariant goal == Remaining(dev.events, inb.bulkinCount, pkgCount, acc)
      invariant dev.out == old(dev.out) + [out[..pkgLen]]
      invariant dev.writeResults == old(dev.writeResults) && dev.readResults == old(dev.readResults)
      decreases |dev.events|
    {
      acc := WaitRound(dev, inb, pkgCount, d0, acc);
      if inb.bulkinCount == -1 {
        failed := true;
        break;
      }
      if oldCounter != inb.bulkinCount {
        if inb.bulkinCount != pkgCount {
          inb.Resubmit();
        }
        oldCounter := inb.bulkinCount;
      }
    }
  }

  /**
   * One round of the wait loop, with the bytes appended so far in acc: the
   * rest of the loop is unchanged by the round, or the round failed.
   */
  method WaitRound(dev: Device, inb: InboundTransfer, pkgCount: nat, ghost d0: seq<bv8>, ghost acc: seq<bv8>)
    returns (ghost acc': seq<bv8>)
    requires 0 <= inb.bulkinCount < pkgCount && inb.pending
    requires inb.cursor == |acc| && inb.dest[..] == Overlay(d0, 0, acc)
    modifies dev, inb, inb.dest
    ensures |dev.events| < |old(dev.events)| || inb.bulkinCount == -1
    ensures dev.out == old(dev.out) && dev.writeResults == old(dev.writeResults)
    ensures dev.readResults == old(dev.readResults)
    ensures inb.bulkinCount == -1 ==>
      !inb.pending &&
      Remaining(old(dev.events), old(inb.bulkinCount), pkgCount, acc) == Collected(dev.events, -1, acc)
      && inb.cursor == |acc| && inb.dest[..] == Overlay(d0, 0, acc)
    ensures inb.bulkinCount != -1 ==>
      old(inb.bulkinCount) <= inb.bulkinCount <= pkgCount
      && inb.pending == (inb.bulkinCount == old(inb.bulkinCount))
      && Remaining(old(dev.events), old(inb.bulkinCount), pkgCount, acc)
         == Remaining(dev.events, inb.bulkinCount, pkgCount, acc')
      && inb.cursor == |acc'| && inb.dest[..] == Overlay(d0, 0, acc')
  {
    ghost var events := dev.events;
    ghost var count := inb.bulkinCount;
    var e := PumpRound(dev, inb);
    RemainingStep(events, count, pkgCount, acc);
    acc' := acc;
    if e.Completed? {
      ghost var p := Payload(e.data, count == 0);
      OverlayAppend(d0, 0, acc, p);
      acc' := acc + p;
    }
  }

  /** The rest of the wait loop after one event. */
  lemma RemainingStep(events: seq<Event>, count: nat, pkgCount: nat, acc: seq<bv8>)
    requires count < pkgCount
    ensures NextEvent(events).Idle? ==>
      Remaining(events, count, pkgCount, acc) == Remaining(Tail(events), count, pkgCount, acc)
    ensures NextEvent(events).Failed? ==>
      Remaining(events, count, pkgCount, acc) == Collected(Tail(events), -1, acc)
    ensures NextEvent(events).Completed? ==>
      var p := Payload(NextEvent(events).data, count == 0);
      Remaining(events, count, pkgCount, acc) == Remaining(Tail(events), count + 1, pkgCount, acc + p)
  {
    CollectUnfold(events, count, pkgCount);
    match NextEvent(events)
    case Idle =>
    case Failed =>
    case Completed(data) =>
      var p := Payload(data, count == 0);
      if count + 1 < pkgCount {
        var c := Collect(Tail(events), count + 1, pkgCount);
        assert acc + (p + c.bytes) == (acc + p) + c.bytes;
      }
  }

  /**
   * One call of libusb_handle_events_timeout: the next event, and when the
   * bulk-in transfer finished, its callback.
   */
  method PumpRound(dev: Device, inb: InboundTransfer) returns (e: Event)
    requires inb.pending
    modifies dev, inb, inb.dest
    ensures e == NextEvent(old(dev.events)) && dev.events == Tail(old(dev.events))
    ensures dev.out == old(dev.out) && dev.writeResults == old(dev.writeResults)
    ensures dev.readResults == old(dev.readResults)
    ensures e.Idle? ==>
      inb.pending && inb.bulkinCount == old(inb.bulkinCount)
      && inb.cursor == old(inb.cursor) && inb.dest[..] == old(inb.dest[..])
    ensures e.Completed? ==>
      var p := Payload(e.data, old(inb.bulkinCount) == 0);
      !inb.pending && inb.bulkinCount == old(inb.bulkinCount) + 1 && inb.cursor == old(inb.cursor) + |p|
      && inb.dest[..] == Overlay(old(inb.dest[..]), old(inb.cursor), p)
    ensures e.Failed? ==>
      !inb.pending && inb.bulkinCount == -1
      && inb.cursor == old(inb.cursor) && inb.dest[..] == old(inb.dest[..])
  {
    e := dev.Pump();
    if !e.Idle? {
      inb.CbBulkIn(e);
    }
  }

  /**
   * ch341SpiRead as written. stale is the value of the uninitialised return
   * variable, which is what a read of zero bytes returns.
   */
  method SpiRead(dev: Device, buf: array<bv8>, add: bv32, len: nat, stale: U32) returns (ret: int)
    modifies dev, buf
    ensures var r := Run(AsWritten, ReadState(add, len, old(dev.events), old(dev.writeResults),
                                              old(buf[..]), 0, old(dev.out), stale));
      dev.events == r.events && dev.writeResults == r.writes && dev.out == r.out
      && buf[..] == r.buf && ret == Int32(r.ret)
    ensures dev.readResults == old(dev.readResults)
  {
    var out := new bv8[MaxPacketLen];
    PrefillOut(out);
    var inb := new InboundTransfer(buf);
    var retU: U32 := stale;
    var left: nat, at := len, add;
    ghost var init := ReadState(add, len, dev.events, dev.writeResults, buf[..], 0, dev.out, stale);
    while left > 0
      invariant Prefilled(out[..]) && inb.dest == buf
      invariant Run(AsWritten, init) ==
        Run(AsWritten, ReadState(at, left, dev.events, dev.writeResults, buf[..], inb.cursor, dev.out, retU))
      invariant dev.readResults == old(dev.readResults)
      decreases left
    {
      ghost var s := ReadState(at, left, dev.events, dev.writeResults, buf[..], inb.cursor, dev.out, retU);
      at, left, retU := ReadWindow(dev, inb, out, at, left, retU, s);
      SameState(ReadState(at, left, dev.events, dev.writeResults, buf[..], inb.cursor, dev.out, retU),
                Step(AsWritten, s));
      // The source then leaves the loop when ret < 0, which an unsigned ret never is.
    }
    ret := Int32(retU);
  }

  /**
   * One pass of the read loop, lines 219-261: lay out the frame, size the
   * window, exchange it, deassert chip select and store the deassert's
   * result in ret.
   */
  method ReadWindow(dev: Device, inb: InboundTransfer, out: array<bv8>, at: bv32, left: nat, retU: U32,
                    ghost s: ReadState)
    returns (at': bv32, left': nat, retU': U32)
    requires left > 0 && Prefilled(out[..]) && inb.dest != out
    requires s.add == at && s.len == left && s.events == dev.events && s.writes == dev.writeResults
    requires s.buf == inb.dest[..] && s.cursor == inb.cursor && s.out == dev.out && s.ret == retU
    modifies dev, inb, inb.dest, out
    ensures Prefilled(out[..])
    ensures var t := Step(AsWritten, s);
      at' == t.add && left' == t.len && dev.events == t.events && dev.writeResults == t.writes
      && inb.dest[..] == t.buf && inb.cursor == t.cursor && dev.out == t.out && retU' == t.ret
    ensures dev.readResults == old(dev.readResults)
  {
    LayoutWindow(out, at);
    var pkgLen, pkgCount;
    at', left', pkgLen, pkgCount := NextWindow(at, left);
    retU' := retU;
    var failed := ExchangeWindow(dev, inb, out, pkgLen, pkgCount);
    ghost var c := Collect(s.events, 0, PlanWindow(left).pkgCount);
    ghost var frame := WindowBuffer(AsWritten, at)[..SentLen(AsWritten, left)];
    assert dev.out == s.out + [frame];
    if failed {
      left' := 0;
      retU' := Minus1;
    }
    SpiCs(out, false);
    var r := dev.BulkWrite(out, 3);
    retU' := ToU32(r);
    StepAsWritten(s, c, frame);
  }

  /** The fields of an as-written window, given its wait loop and frame. */
  lemma StepAsWritten(s: ReadState, c: Collected, frame: seq<bv8>)
    requires s.len > 0
    requires c == Collect(s.events, 0, PlanWindow(s.len).pkgCount)
    requires frame == WindowBuffer(AsWritten, s.add)[..SentLen(AsWritten, s.len)]
    ensures var t := Step(AsWritten, s);
      t.add == (if s.len > MaxPayload then s.add + MaxPayloadWord else s.add)
      && t.len == (if c.count == -1 then 0 else s.len - PlanWindow(s.len).payload)
      && t.events == c.rest && t.writes == Tail(s.writes)
      && t.buf == Overlay(s.buf, 0, c.bytes) && t.cursor == |c.bytes|
      && t.out == s.out + [frame, CsFrame(false)]
      && t.ret == if WriteOk(s.writes) then 3 else Minus1
  {}

  /** Two states with the same fields are the same state: a step for the solver, not a property of the driver. */
  lemma SameState(t: ReadState, u: ReadState)
    requires t.add == u.add && t.len == u.len && t.events == u.events && t.writes == u.writes
    requires t.buf == u.buf && t.cursor == u.cursor && t.out == u.out && t.ret == u.ret
    ensures t == u
  {}

  /** Lines 227-237: the size of the next window, and the address and length it leaves. */
  method NextWindow(at: bv32, left: nat) returns (at': bv32, left': nat, pkgLen: nat, pkgCount: nat)
    requires left > 0
    ensures var w := PlanWindow(left);
      pkgCount == w.pkgCount && pkgLen == SentLen(AsWritten, left) && left' == left - w.payload
      && at' == if left > MaxPayload then at + MaxPayloadWord else at
  {
    if left > MaxPayload {
      pkgLen := MaxPacketLen;
      pkgCount := MaxPkgCount;
      left' := left - MaxPayload;
      at' := at + MaxPayloadWord;
    } else {
      pkgCount := (left + 4) / (PacketLength - 1);
      if (left + 4) % (PacketLength - 1) != 0 {
        pkgCount := pkgCount + 1;
      }
      pkgLen := pkgCount * PacketLength + (left + 4) % (PacketLength - 1) + 1;
      left' := 0;
      at' := at;
    }
  }
}
