/**
 * What a whole read does, for a flash that answers every window. The flash
 * clocks back one byte per SPI byte of the frame; the CH341A returns them in
 * packets of 31. The first four bytes of a window answer the read command and
 * the address, the rest are the data.
 */
module ReadProofs {
  import opened Bits
  import opened Transport
  import opened Framer
  import opened ReadPlan
  import opened ReadLayout
  import opened Reassembly
  import opened ReadEngine

  /** The inbound packets of a window whose SPI bytes came back as wire. */
  function Packets(wire: seq<bv8>): (ps: seq<Event>)
    ensures |ps| > 0 && ps[0].Completed?
    decreases |wire|
  {
    if |wire| <= PacketPayload then [Completed(wire)]
    else [Completed(wire[..PacketPayload])] + Packets(wire[PacketPayload..])
  }

  /** A window of n SPI bytes comes back in ceil(n / 31) packets. */
  lemma {:induction false} PacketsCount(wire: seq<bv8>)
    requires |wire| > 0
    ensures (|Packets(wire)| - 1) * PacketPayload < |wire| <= |Packets(wire)| * PacketPayload
    decreases |wire|
  {
    if |wire| > PacketPayload {
      PacketsCount(wire[PacketPayload..]);
    }
  }

  /**
   * The wait loop over a window's packets: it consumes exactly those packets
   * and appends the reversed data, the first packet's four command bytes
   * dropped.
   */
  lemma {:induction false} CollectPackets(wire: seq<bv8>, rest: seq<Event>, count: nat, pkgCount: nat)
    requires count < pkgCount && |Packets(wire)| == pkgCount - count
    requires count == 0 ==> |wire| >= 4
    ensures Collect(Packets(wire) + rest, count, pkgCount) == Collected(rest, pkgCount, WireData(wire, count == 0))
    decreases |wire|
  {
    var events := Packets(wire) + rest;
    if |wire| <= PacketPayload {
      assert events[0] == Completed(wire) && events[1..] == rest;
    } else {
      var head, tail := wire[..PacketPayload], wire[PacketPayload..];
      assert events[0] == Completed(head) && events[1..] == Packets(tail) + rest;
      CollectPackets(tail, rest, count + 1, pkgCount);
      WireDataSplit(wire, count == 0);
    }
  }

  /** The data a window's answer carries: all of it reversed, less the four command bytes in the first packet. */
  function WireData(wire: seq<bv8>, first: bool): (d: seq<bv8>)
    requires first ==> |wire| >= 4
    ensures |d| == if first then |wire| - 4 else |wire|
  {
    if first then Swapped(wire[4..]) else Swapped(wire)
  }

  /** The data of an answer is the first packet's payload followed by the data of the rest. */
  lemma WireDataSplit(wire: seq<bv8>, first: bool)
    requires |wire| > PacketPayload
    ensures Payload(wire[..PacketPayload], first) + WireData(wire[PacketPayload..], false) == WireData(wire, first)
  {
    var head, tail := wire[..PacketPayload], wire[PacketPayload..];
    if first {
      assert wire[4..] == head[4..] + tail;
      SwappedAppend(head[4..], tail);
    } else {
      assert wire == head + tail;
      SwappedAppend(head, tail);
    }
  }

  /** The window planned for len bytes expects exactly the packets its answer comes in. */
  lemma WindowPackets(len: nat, wire: seq<bv8>)
    requires len > 0 && |wire| == PlanWindow(len).payload + 4
    ensures |Packets(wire)| == PlanWindow(len).pkgCount
  {
    PacketsCount(wire);
  }

  /**
   * One window answered in full: the packets are consumed, the data lands at
   * the cursor (at the buffer's start as written), and only the deassert's
   * result decides ret.
   */
  lemma AnsweredWindow(v: Variant, s: ReadState, wire: seq<bv8>, rest: seq<Event>)
    requires s.len > 0 && |wire| == PlanWindow(s.len).payload + 4
    requires s.events == Packets(wire) + rest
    ensures var t := Step(v, s);
      var at := if v == AsWritten then 0 else s.cursor;
      var ok := WriteOk(s.writes);
      t.events == rest && t.writes == Tail(s.writes)
      && t.buf == Overlay(s.buf, at, Swapped(wire[4..])) && t.cursor == at + PlanWindow(s.len).payload
      && t.len == (if v == Corrected && !ok then 0 else s.len - PlanWindow(s.len).payload)
      && t.ret == (if ok then (if v == AsWritten then 3 else s.ret) else Minus1)
  {
    WindowPackets(s.len, wire);
    CollectPackets(wire, rest, 0, PlanWindow(s.len).pkgCount);
  }

  /** Run is one window and then the rest of the read. */
  lemma RunStep(v: Variant, s: ReadState)
    requires s.len > 0
    ensures Run(v, s) == Run(v, Step(v, s))
  {}

  /** Run stops after a window that leaves nothing to read. */
  lemma RunLast(v: Variant, s: ReadState)
    requires s.len > 0 && Step(v, s).len == 0
    ensures Run(v, s) == Step(v, s)
  {}

  /**
   * A read that fits one window, answered in full and deasserted: the caller's
   * buffer starts with the reversed data and the driver returns 3, the
   * deassert's byte count. A full answer needs a frame of the needed length,
   * which the driver sends only when the last stream packet is not full
   * (ShortFinalFrame); the other lengths are ShortWindowRead.
   */
  lemma SingleWindowRead(s: ReadState, wire: seq<bv8>, rest: seq<Event>)
    requires 0 < s.len <= MaxPayload && |wire| == s.len + 4 && s.len <= |s.buf|
    requires (s.len + 4) % PacketPayload != 0
    requires s.events == Packets(wire) + rest && WriteOk(s.writes)
    ensures var t := Run(AsWritten, s);
      t.buf[..s.len] == Swapped(wire[4..]) && t.buf[s.len..] == s.buf[s.len..]
      && t.events == rest && t.writes == Tail(s.writes) && Int32(t.ret) == 3
  {
    FinalWindow(AsWritten, s, wire, rest);
    var t := Run(AsWritten, s);
    assert t.buf[..s.len] == Swapped(wire[4..]);
    assert t.buf[s.len..] == s.buf[s.len..];
  }

  /**
   * A read of two windows as written, both answered and deasserted: the
   * second window's data overwrites the first at the start of the buffer,
   * and the last len - MaxPayload bytes of the buffer are never written.
   */
  lemma CursorRestart(s: ReadState, w1: seq<bv8>, w2: seq<bv8>, rest: seq<Event>)
    requires MaxPayload < s.len <= 2 * MaxPayload && s.len <= |s.buf|
    requires |w1| == MaxPayload + 4 && |w2| == s.len - MaxPayload + 4
    requires (s.len - MaxPayload + 4) % PacketPayload != 0
    requires s.events == Packets(w1) + (Packets(w2) + rest)
    requires |s.writes| >= 2 && s.writes[0] && s.writes[1]
    ensures var t := Run(AsWritten, s); var k := s.len - MaxPayload;
      t.buf[..k] == Swapped(w2[4..])
      && t.buf[k..MaxPayload] == Swapped(w1[4..])[k..]
      && t.buf[MaxPayload..] == s.buf[MaxPayload..]
      && t.events == rest && Int32(t.ret) == 3
  {
    TwoWindowsAsWritten(s, w1, w2, rest);
    OverlayTwice(s.buf, Swapped(w1[4..]), Swapped(w2[4..]));
  }

  /**
   * Two answered windows as written: both are written from the start of the
   * buffer, and the first deassert's result is lost whatever it was.
   */
  lemma TwoWindowsAsWritten(s: ReadState, w1: seq<bv8>, w2: seq<bv8>, rest: seq<Event>)
    requires MaxPayload < s.len <= 2 * MaxPayload
    requires |w1| == MaxPayload + 4 && |w2| == s.len - MaxPayload + 4
    requires (s.len - MaxPayload + 4) % PacketPayload != 0
    requires s.events == Packets(w1) + (Packets(w2) + rest)
    requires |s.writes| >= 2
    ensures var t := Run(AsWritten, s);
      t.buf == Overlay(Overlay(s.buf, 0, Swapped(w1[4..])), 0, Swapped(w2[4..]))
      && t.events == rest && t.ret == if s.writes[1] then 3 else Minus1
  {
    AnsweredWindow(AsWritten, s, w1, Packets(w2) + rest);
    FinalWindow(AsWritten, Step(AsWritten, s), w2, rest);
    RunStep(AsWritten, s);
  }

  /** The last window of a read, answered in full. */
  lemma FinalWindow(v: Variant, s: ReadState, wire: seq<bv8>, rest: seq<Event>)
    requires 0 < s.len <= MaxPayload && |wire| == s.len + 4
    requires s.events == Packets(wire) + rest
    ensures var t := Run(v, s);
      var at := if v == AsWritten then 0 else s.cursor;
      t.buf == Overlay(s.buf, at, Swapped(wire[4..])) && t.cursor == at + s.len
      && t.events == rest && t.writes == Tail(s.writes)
      && t.ret == (if WriteOk(s.writes) then (if v == AsWritten then 3 else s.ret) else Minus1)
  {
    AnsweredWindow(v, s, wire, rest);
    RunLast(v, s);
  }

  /**
   * The wait loop over a short answer: the packets that came back are
   * consumed and their data appended, then a failed transfer ends the window
   * with those bytes.
   */
  lemma {:induction false} CollectShortAnswer(wire: seq<bv8>, rest: seq<Event>, count: nat, pkgCount: nat)
    requires |wire| > 0 && count + |Packets(wire)| < pkgCount
    requires count == 0 ==> |wire| >= 4
    ensures Collect(Packets(wire) + [Failed] + rest, count, pkgCount) == Collected(rest, -1, WireData(wire, count == 0))
    decreases |wire|
  {
    var events := Packets(wire) + [Failed] + rest;
    if |wire| <= PacketPayload {
      assert events[0] == Completed(wire) && events[1..] == [Failed] + rest;
    } else {
      var head, tail := wire[..PacketPayload], wire[PacketPayload..];
      assert events[0] == Completed(head) && events[1..] == Packets(tail) + [Failed] + rest;
      CollectShortAnswer(tail, rest, count + 1, pkgCount);
      WireDataSplit(wire, count == 0);
    }
  }

  /**
   * A one-window read whose command and payload fill the last stream packet,
   * as written: the frame stops after that packet's opcode, so the flash
   * clocks back only len + 4 - 31 bytes. Once those packets are in, the
   * missing one ends in a failed transfer, yet the deassert makes the read
   * return 3 with the last 31 requested bytes never stored; a 27-byte read
   * stores nothing at all.
   */
  lemma ShortWindowRead(s: ReadState, wire: seq<bv8>, rest: seq<Event>)
    requires 0 < s.len <= MaxPayload && (s.len + 4) % PacketPayload == 0 && s.len <= |s.buf|
    requires |wire| == s.len + 4 - PacketPayload && WriteOk(s.writes)
    requires s.events == (if wire == [] then [] else Packets(wire)) + [Failed] + rest
    ensures var t := Run(AsWritten, s);
      t.events == rest && t.writes == Tail(s.writes) && Int32(t.ret) == 3
    ensures wire == [] ==> Run(AsWritten, s).buf == s.buf
    ensures wire != [] ==> var t := Run(AsWritten, s); var n := s.len - PacketPayload;
      t.buf[..n] == Swapped(wire[4..]) && t.buf[n..] == s.buf[n..]
  {
    ShortWindowCollect(s.len, wire, rest);
    RunLast(AsWritten, s);
  }

  /** The wait loop of ShortWindowRead's window: the answer's data, then a failure. */
  lemma ShortWindowCollect(len: nat, wire: seq<bv8>, rest: seq<Event>)
    requires 0 < len <= MaxPayload && (len + 4) % PacketPayload == 0
    requires |wire| == len + 4 - PacketPayload
    ensures var events := (if wire == [] then [] else Packets(wire)) + [Failed] + rest;
      Collect(events, 0, PlanWindow(len).pkgCount) == Collected(rest, -1, if wire == [] then [] else WireData(wire, true))
  {
    var q := PlanWindow(len).pkgCount;
    ShortWindowPackets(len);
    if wire == [] {
      assert [] + [Failed] + rest == [Failed] + rest;
    } else {
      PacketsCount(wire);
      PacketSqueeze(|Packets(wire)|, |wire|, q);
      CollectShortAnswer(wire, rest, 0, q);
    }
  }

  /** A window whose command and payload fill its last packet expects exactly (len + 4) / 31 packets. */
  lemma ShortWindowPackets(len: nat)
    requires 0 < len <= MaxPayload && (len + 4) % PacketPayload == 0
    ensures PlanWindow(len).pkgCount * PacketPayload == len + 4
  {
    assert (len + 4) / PacketPayload * PacketPayload == len + 4;
  }

  /** A count of 31-byte packets is fixed by the bytes they hold. */
  lemma PacketSqueeze(a: int, n: int, q: int)
    requires (a - 1) * PacketPayload < n <= a * PacketPayload
    requires n + PacketPayload == q * PacketPayload
    ensures a == q - 1
  {}

  /** Two runs written from the start of b: the second shadows the first where they overlap. */
  lemma OverlayTwice(b: seq<bv8>, x: seq<bv8>, y: seq<bv8>)
    requires |y| <= |x| <= |b|
    ensures var r := Overlay(Overlay(b, 0, x), 0, y);
      r[..|y|] == y && r[|y|..|x|] == x[|y|..] && r[|x|..] == b[|x|..]
  {}

  /**
   * A failed inbound transfer in a window whose deassert goes through: as
   * written the read ends but returns 3, a success; corrected it returns -1.
   */
  lemma LostInboundError(s: ReadState)
    requires s.len > 0 && WriteOk(s.writes)
    requires Collect(s.events, 0, PlanWindow(s.len).pkgCount).count == -1
    ensures Int32(Run(AsWritten, s).ret) == 3
    ensures Int32(Run(Corrected, s).ret) == -1
  {
    RunLast(AsWritten, s);
    RunLast(Corrected, s);
  }

  /** The smallest read that shows it: one byte, and the only inbound transfer fails. */
  lemma LostInboundErrorExample(s: ReadState)
    requires s.len == 1 && s.events == [Failed] && s.writes == [true]
    ensures Int32(Run(AsWritten, s).ret) == 3
    ensures Int32(Run(Corrected, s).ret) == -1
  {
    LostInboundError(s);
  }

  /** Corrected, a failed deassert ends the read with -1 and leaves the rest of the device's answer unread. */
  lemma DeassertFailureStops(s: ReadState, wire: seq<bv8>, rest: seq<Event>)
    requires s.len > 0 && |wire| == PlanWindow(s.len).payload + 4 && !WriteOk(s.writes)
    requires s.events == Packets(wire) + rest
    ensures Int32(Run(Corrected, s).ret) == -1 && Run(Corrected, s).events == rest
  {
    AnsweredWindow(Corrected, s, wire, rest);
    RunLast(Corrected, s);
  }

  /** A read of zero bytes sends nothing and returns the return variable as it was. */
  lemma EmptyRead(v: Variant, s: ReadState)
    requires s.len == 0
    ensures Run(v, s) == s
  {}

  /** The inbound events of a read whose windows came back as wires, in order. */
  function Answers(wires: seq<seq<bv8>>): seq<Event> {
    if wires == [] then [] else Packets(wires[0]) + Answers(wires[1..])
  }

  /** wires answer every window of a read of len bytes in full: the four command bytes and the payload each. */
  ghost predicate AnswersPlan(wires: seq<seq<bv8>>, len: nat) {
    |wires| == |Plan(len)| && forall k | 0 <= k < |wires| :: |wires[k]| == Plan(len)[k].payload + 4
  }

  /** The data the answers carry: each one reversed, less its four command bytes. */
  function AnswerData(wires: seq<seq<bv8>>): seq<bv8>
    requires forall k | 0 <= k < |wires| :: |wires[k]| >= 4
  {
    if wires == [] then [] else Swapped(wires[0][4..]) + AnswerData(wires[1..])
  }

  /** The answers to a plan: the first answers the first window, the rest the rest of the plan. */
  lemma AnswersPlanTail(wires: seq<seq<bv8>>, len: nat)
    requires AnswersPlan(wires, len) && len > 0
    ensures |wires| > 0 && |wires[0]| == PlanWindow(len).payload + 4
    ensures AnswersPlan(wires[1..], len - PlanWindow(len).payload)
  {
    var rest := Plan(len - PlanWindow(len).payload);
    assert Plan(len) == [PlanWindow(len)] + rest;
    forall k | 0 <= k < |wires| - 1
      ensures |wires[1..][k]| == rest[k].payload + 4
    {
      assert Plan(len)[k + 1] == rest[k];
    }
  }

  /** The answers to a plan carry exactly the bytes asked for. */
  lemma {:induction false} AnswerDataLength(wires: seq<seq<bv8>>, len: nat)
    requires AnswersPlan(wires, len)
    ensures |AnswerData(wires)| == len
    decreases len
  {
    if len > 0 {
      AnswersPlanTail(wires, len);
      AnswerDataLength(wires[1..], len - PlanWindow(len).payload);
    }
  }

  /**
   * Corrected, a read whose every window is answered and deasserted stores
   * the answers' data one after the other from the cursor on, consumes every
   * packet and one deassert result per window, and keeps ret; the frames it
   * sends ask for the windows' addresses in turn, 3933 bytes apart, and it
   * ends at the last window's address.
   */
  lemma RunCorrected(s: ReadState, wires: seq<seq<bv8>>, rest: seq<Event>)
    requires AnswersPlan(wires, s.len) && s.events == Answers(wires) + rest
    requires |wires| <= |s.writes| && forall k | 0 <= k < |wires| :: s.writes[k]
    ensures var t := Run(Corrected, s);
      t.buf == Overlay(s.buf, s.cursor, AnswerData(wires)) && t.cursor == s.cursor + s.len
      && t.events == rest && t.writes == s.writes[|wires|..] && t.ret == s.ret
    ensures var t := Run(Corrected, s);
      t.out == s.out + Frames(Corrected, s.add, s.len)
      && (s.len > 0 ==> t.add == WindowAddr(s.add, |Plan(s.len)| - 1))
  {
    RunCorrectedBuf(s, wires, rest);
    RunCorrectedRest(s, wires, rest);
    RunFrames(Corrected, s, wires, rest);
  }

  /** The buffer half of RunCorrected. */
  lemma {:induction false} RunCorrectedBuf(s: ReadState, wires: seq<seq<bv8>>, rest: seq<Event>)
    requires AnswersPlan(wires, s.len) && s.events == Answers(wires) + rest
    requires |wires| <= |s.writes| && forall k | 0 <= k < |wires| :: s.writes[k]
    ensures Run(Corrected, s).buf == Overlay(s.buf, s.cursor, AnswerData(wires))
    decreases s.len
  {
    if s.len == 0 {
      assert Overlay(s.buf, s.cursor, []) == s.buf;
    } else {
      var s1 := Step(Corrected, s);
      var w0, ws := wires[0], wires[1..];
      CorrectedBufStep(s, wires, rest);
      assert AnswerData(wires) == Swapped(w0[4..]) + AnswerData(ws);
      RunStep(Corrected, s);
      RunCorrectedBuf(s1, ws, rest);
      OverlayChain(s.buf, s.cursor, Swapped(w0[4..]), AnswerData(ws), s1.buf, s1.cursor, Run(Corrected, s1).buf, AnswerData(wires));
    }
  }

  /** The first window of RunCorrectedBuf: its data at the cursor, and the rest of the answers for the rest of the read. */
  lemma CorrectedBufStep(s: ReadState, wires: seq<seq<bv8>>, rest: seq<Event>)
    requires s.len > 0 && AnswersPlan(wires, s.len) && s.events == Answers(wires) + rest
    requires |wires| <= |s.writes| && forall k | 0 <= k < |wires| :: s.writes[k]
    ensures |wires| > 0 && |wires[0]| >= 4
    ensures var t := Step(Corrected, s); var ws := wires[1..];
      AnswersPlan(ws, t.len) && t.events == Answers(ws) + rest
      && |ws| <= |t.writes| && (forall k | 0 <= k < |ws| :: t.writes[k])
      && t.buf == Overlay(s.buf, s.cursor, Swapped(wires[0][4..])) && t.cursor == s.cursor + |Swapped(wires[0][4..])|
  {
    AnswersPlanTail(wires, s.len);
    AnswersEvents(wires, s.events, rest);
    WritesTail(s.writes, |wires|);
    CorrectedFirstWindow(s, wires[0], Answers(wires[1..]) + rest);
  }

  /** The rest of RunCorrected: the cursor, the events and deassert results left, and ret. */
  lemma {:induction false} RunCorrectedRest(s: ReadState, wires: seq<seq<bv8>>, rest: seq<Event>)
    requires AnswersPlan(wires, s.len) && s.events == Answers(wires) + rest
    requires |wires| <= |s.writes| && forall k | 0 <= k < |wires| :: s.writes[k]
    ensures var t := Run(Corrected, s);
      t.cursor == s.cursor + s.len && t.events == rest && t.writes == s.writes[|wires|..] && t.ret == s.ret
    decreases s.len
  {
    if s.len > 0 {
      var s1 := Step(Corrected, s);
      var w0, ws := wires[0], wires[1..];
      AnswersPlanTail(wires, s.len);
      AnswersEvents(wires, s.events, rest);
      WritesTail(s.writes, |wires|);
      CorrectedFirstWindow(s, w0, Answers(ws) + rest);
      RunStep(Corrected, s);
      RunCorrectedRest(s1, ws, rest);
    }
  }

  /** The events of the answers, the first answer's packets split off. */
  lemma AnswersEvents(wires: seq<seq<bv8>>, events: seq<Event>, rest: seq<Event>)
    requires wires != [] && events == Answers(wires) + rest
    ensures events == Packets(wires[0]) + (Answers(wires[1..]) + rest)
  {
    var p, a := Packets(wires[0]), Answers(wires[1..]);
    assert Answers(wires) == p + a;
    assert (p + a) + rest == p + (a + rest);
  }

  /** The first n deassert results all go through: so do the first n - 1 after the first. */
  lemma WritesTail(writes: seq<bool>, n: nat)
    requires 0 < n <= |writes| && forall k | 0 <= k < n :: writes[k]
    ensures WriteOk(writes) && n - 1 <= |Tail(writes)| && Tail(writes)[n - 1..] == writes[n..]
    ensures forall k | 0 <= k < n - 1 :: Tail(writes)[k]
  {}

  /** OverlayAppend, with every run and buffer named: a step for the solver, not a property of the driver. */
  lemma OverlayChain(b: seq<bv8>, c: nat, x: seq<bv8>, y: seq<bv8>, b1: seq<bv8>, c1: nat, r: seq<bv8>, d: seq<bv8>)
    requires b1 == Overlay(b, c, x) && c1 == c + |x| && r == Overlay(b1, c1, y) && d == x + y
    ensures r == Overlay(b, c, d)
  {
    OverlayAppend(b, c, x, y);
  }

  /** The first window of RunCorrected, answered and deasserted. */
  lemma CorrectedFirstWindow(s: ReadState, w0: seq<bv8>, more: seq<Event>)
    requires s.len > 0 && |w0| == PlanWindow(s.len).payload + 4
    requires s.events == Packets(w0) + more && WriteOk(s.writes)
    ensures var t := Step(Corrected, s);
      t.events == more && t.writes == Tail(s.writes)
      && t.buf == Overlay(s.buf, s.cursor, Swapped(w0[4..])) && t.cursor == s.cursor + |Swapped(w0[4..])|
      && t.len == s.len - PlanWindow(s.len).payload && t.ret == s.ret
  {
    AnsweredWindow(Corrected, s, w0, more);
  }

  /**
   * Corrected, a read of len bytes into a buffer that holds them, every
   * window answered and deasserted: the buffer starts with all the data, in
   * order, and nothing after it changes.
   */
  lemma CorrectedRead(s: ReadState, wires: seq<seq<bv8>>, rest: seq<Event>)
    requires s.cursor == 0 && s.len <= |s.buf|
    requires AnswersPlan(wires, s.len) && s.events == Answers(wires) + rest
    requires |wires| <= |s.writes| && forall k | 0 <= k < |wires| :: s.writes[k]
    ensures var t := Run(Corrected, s);
      |AnswerData(wires)| == s.len && t.buf[..s.len] == AnswerData(wires) && t.buf[s.len..] == s.buf[s.len..]
      && t.events == rest && t.ret == s.ret
  {
    RunCorrected(s, wires, rest);
    AnswerDataLength(wires, s.len);
    var t := Run(Corrected, s);
    assert t.buf[..s.len] == AnswerData(wires);
    assert t.buf[s.len..] == s.buf[s.len..];
  }

  /**
   * Corrected, with ret initialised to 0: a read whose every window is
   * answered and deasserted returns 0, and so does a read of zero bytes.
   */
  lemma CorrectedReturn(s: ReadState, wires: seq<seq<bv8>>, rest: seq<Event>)
    requires s.ret == 0
    requires AnswersPlan(wires, s.len) && s.events == Answers(wires) + rest
    requires |wires| <= |s.writes| && forall k | 0 <= k < |wires| :: s.writes[k]
    ensures Int32(Run(Corrected, s).ret) == 0
  {
    RunCorrectedRest(s, wires, rest);
  }

  /** The address window k of a read from add asks for: add advanced k times by MaxPayload, wrapping as a uint32_t. */
  function WindowAddr(add: bv32, k: nat): bv32
    decreases k
  {
    if k == 0 then add else WindowAddr(add + MaxPayloadWord, k - 1)
  }

  /** Each window asks for the address 3933 bytes past the one before, wrapping as a uint32_t. */
  lemma {:induction false} WindowAddrNext(add: bv32, k: nat)
    ensures WindowAddr(add, k + 1) == WindowAddr(add, k) + MaxPayloadWord
    decreases k
  {
    if k > 0 {
      WindowAddrNext(add + MaxPayloadWord, k - 1);
    }
  }

  /**
   * The frames a read of len bytes from add hands to the bulk-out endpoint
   * when every window is answered: each window's frame, then the deassert.
   */
  function Frames(v: Variant, add: bv32, len: nat): (fs: seq<seq<bv8>>)
    ensures |fs| == 2 * |Plan(len)|
    decreases len
  {
    if len == 0 then []
    else [WindowBuffer(v, add)[..SentLen(v, len)], CsFrame(false)] + Frames(v, add + MaxPayloadWord, len - PlanWindow(len).payload)
  }

  /** A window's frames and the address it leaves, read off Step. */
  lemma StepFrames(v: Variant, s: ReadState)
    requires s.len > 0
    ensures Step(v, s).out == s.out + [WindowBuffer(v, s.add)[..SentLen(v, s.len)], CsFrame(false)]
    ensures Step(v, s).add == if s.len > MaxPayload then s.add + MaxPayloadWord else s.add
  {}

  /**
   * A read whose every window is answered and deasserted hands the endpoint
   * exactly Frames, and ends at the last window's address.
   */
  lemma RunFrames(v: Variant, s: ReadState, wires: seq<seq<bv8>>, rest: seq<Event>)
    requires AnswersPlan(wires, s.len) && s.events == Answers(wires) + rest
    requires |wires| <= |s.writes| && forall k | 0 <= k < |wires| :: s.writes[k]
    ensures var t := Run(v, s);
      t.out == s.out + Frames(v, s.add, s.len)
      && (s.len > 0 ==> t.add == WindowAddr(s.add, |Plan(s.len)| - 1))
  {
    AnsweredNoStop(v, s, wires, rest);
    RunFramesOut(v, s);
    RunFramesAddr(v, s);
  }

  /** Whether every window of the read from s runs to its end: none of them stops the read early. */
  ghost predicate NoStop(v: Variant, s: ReadState)
    decreases s.len
  {
    s.len == 0 || (Step(v, s).len == s.len - PlanWindow(s.len).payload && NoStop(v, Step(v, s)))
  }

  /** A read whose every window is answered and deasserted never stops early. */
  lemma {:induction false} AnsweredNoStop(v: Variant, s: ReadState, wires: seq<seq<bv8>>, rest: seq<Event>)
    requires AnswersPlan(wires, s.len) && s.events == Answers(wires) + rest
    requires |wires| <= |s.writes| && forall k | 0 <= k < |wires| :: s.writes[k]
    ensures NoStop(v, s)
    decreases s.len
  {
    if s.len > 0 {
      FramesFirstWindow(v, s, wires, rest);
      AnsweredNoStop(v, Step(v, s), wires[1..], rest);
    }
  }

  /** The frames half of RunFrames. */
  lemma {:induction false} RunFramesOut(v: Variant, s: ReadState)
    requires NoStop(v, s)
    ensures Run(v, s).out == s.out + Frames(v, s.add, s.len)
    decreases s.len
  {
    if s.len > 0 {
      var s1 := Step(v, s);
      var more := Frames(v, s1.add, s1.len);
      var last := Run(v, s1).out;
      RunFramesOut(v, s1);
      RunStep(v, s);
      StepFramesCons(v, s, s1, more);
    }
  }

  /**
   * One window's frames followed by the rest of the read's frames are the
   * read's frames, with the next state named for the solver.
   */
  lemma StepFramesCons(v: Variant, s: ReadState, s1: ReadState, more: seq<seq<bv8>>)
    requires s.len > 0 && s1 == Step(v, s) && s1.len == s.len - PlanWindow(s.len).payload
    requires more == Frames(v, s1.add, s1.len)
    ensures s1.out + more == s.out + Frames(v, s.add, s.len)
  {
    StepFrames(v, s);
    FramesCons(v, s.add, s.len, s.out);
  }

  /** The address half of RunFrames. */
  lemma {:induction false} RunFramesAddr(v: Variant, s: ReadState)
    requires NoStop(v, s)
    ensures s.len > 0 ==> Run(v, s).add == WindowAddr(s.add, |Plan(s.len)| - 1)
    decreases s.len
  {
    if s.len > 0 {
      var s1 := Step(v, s);
      StepLastAddr(v, s, s1);
      if s1.len == 0 {
        RunLast(v, s);
      } else {
        RunFramesAddr(v, s1);
        RunStep(v, s);
      }
    }
  }

  /** The last window's address seen from the state after the first window. */
  lemma StepLastAddr(v: Variant, s: ReadState, s1: ReadState)
    requires s.len > 0 && s1 == Step(v, s) && s1.len == s.len - PlanWindow(s.len).payload
    ensures s1.len == 0 ==> s1.add == WindowAddr(s.add, |Plan(s.len)| - 1)
    ensures s1.len > 0 ==> WindowAddr(s1.add, |Plan(s1.len)| - 1) == WindowAddr(s.add, |Plan(s.len)| - 1)
  {
    StepFrames(v, s);
    LastAddrStep(s.add, s.len);
  }

  /** The last window's address, one window on. */
  lemma LastAddrStep(add: bv32, len: nat)
    requires len > 0
    ensures var next := if len > MaxPayload then add + MaxPayloadWord else add;
      var left := len - PlanWindow(len).payload;
      |Plan(len)| == 1 + |Plan(left)|
      && (left == 0 ==> next == add && WindowAddr(add, |Plan(len)| - 1) == add)
      && (left > 0 ==> WindowAddr(next, |Plan(left)| - 1) == WindowAddr(add, |Plan(len)| - 1))
  {
    var left := len - PlanWindow(len).payload;
    assert Plan(len) == [PlanWindow(len)] + Plan(left);
  }

  /** The first window of RunFrames: what is left is a read of the rest of the plan, answered by the rest of the wires. */
  lemma FramesFirstWindow(v: Variant, s: ReadState, wires: seq<seq<bv8>>, rest: seq<Event>)
    requires s.len > 0 && AnswersPlan(wires, s.len) && s.events == Answers(wires) + rest
    requires |wires| <= |s.writes| && forall k | 0 <= k < |wires| :: s.writes[k]
    ensures |wires| > 0
    ensures var t := Step(v, s); var ws := wires[1..];
      AnswersPlan(ws, t.len) && t.events == Answers(ws) + rest
      && |ws| <= |t.writes| && (forall k | 0 <= k < |ws| :: t.writes[k])
      && t.len == s.len - PlanWindow(s.len).payload
      && t.out == s.out + [WindowBuffer(v, s.add)[..SentLen(v, s.len)], CsFrame(false)]
      && t.add == (if s.len > MaxPayload then s.add + MaxPayloadWord else s.add)
  {
    AnswersPlanTail(wires, s.len);
    AnswersEvents(wires, s.events, rest);
    WritesTail(s.writes, |wires|);
    AnsweredWindow(v, s, wires[0], Answers(wires[1..]) + rest);
    StepFrames(v, s);
  }

  /** Frames unfolded by one window, after the frames already logged. */
  lemma FramesCons(v: Variant, add: bv32, len: nat, log: seq<seq<bv8>>)
    requires len > 0
    ensures var f := [WindowBuffer(v, add)[..SentLen(v, len)], CsFrame(false)];
      var next := if len > MaxPayload then add + MaxPayloadWord else add;
      log + f + Frames(v, next, len - PlanWindow(len).payload) == log + Frames(v, add, len)
  {
    var f := [WindowBuffer(v, add)[..SentLen(v, len)], CsFrame(false)];
    var rest := Frames(v, add + MaxPayloadWord, len - PlanWindow(len).payload);
    if len <= MaxPayload {
      assert len - PlanWindow(len).payload == 0;
    }
    assert log + f + rest == log + (f + rest);
  }

  /** Data k of the answers is stored 3933 * k bytes on. */
  lemma {:induction false} AnswerDataAt(wires: seq<seq<bv8>>, len: nat, k: nat)
    requires AnswersPlan(wires, len) && k < |wires|
    ensures k * MaxPayload + |wires[k]| - 4 <= |AnswerData(wires)|
    ensures AnswerData(wires)[k * MaxPayload..k * MaxPayload + |wires[k]| - 4] == Swapped(wires[k][4..])
    decreases len
  {
    WindowConstants();
    AnswersPlanTail(wires, len);
    AnswerDataLength(wires[1..], len - PlanWindow(len).payload);
    if k > 0 {
      PlanFullWindows(len, 0);
      assert Plan(len)[0] == PlanWindow(len);
      AnswerDataAt(wires[1..], len - MaxPayload, k - 1);
      var x := Swapped(wires[0][4..]);
      assert |x| == MaxPayload;
      assert AnswerData(wires) == x + AnswerData(wires[1..]);
    }
  }
}
