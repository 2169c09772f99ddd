/**
 * Inbound side of the pipelined read: the completion callback of the bulk-in
 * transfer, which appends the bit-reversed bytes of each packet through a
 * cursor into the caller's buffer, and the wait loop that drives it.
 */
module Reassembly {
  import opened Bits
  import opened Transport

  /**
   * The bytes a completed packet contributes, reversed: the first packet of a
   * window loses its first four bytes, the echo of the read command and the
   * address.
   */
  function Payload(data: seq<bv8>, first: bool): (p: seq<bv8>)
    ensures !first ==> p == Swapped(data)
    ensures first && |data| >= 4 ==> p == Swapped(data[4..])
    ensures first && |data| < 4 ==> p == []
  {
    var start := if first then 4 else 0;
    if start <= |data| then Swapped(data[start..]) else []
  }

  /** b with s written from offset at on; bytes that would fall past the end of b are dropped. */
  function Overlay(b: seq<bv8>, at: nat, s: seq<bv8>): (r: seq<bv8>)
    ensures |r| == |b|
    ensures forall i | 0 <= i < |b| :: r[i] == if at <= i < at + |s| then s[i - at] else b[i]
  {
    if at >= |b| then b
    else if at + |s| <= |b| then b[..at] + s + b[at + |s|..]
    else b[..at] + s[..|b| - at]
  }

  /** Writing s then t right after it is writing s + t. */
  lemma OverlayAppend(b: seq<bv8>, at: nat, s: seq<bv8>, t: seq<bv8>)
    ensures Overlay(Overlay(b, at, s), at + |s|, t) == Overlay(b, at, s + t)
  {}

  /** Storing one more byte at the end of a written run. */
  lemma OverlayStep(b: seq<bv8>, at: nat, s: seq<bv8>, x: bv8)
    ensures var r := Overlay(b, at, s);
      Overlay(b, at, s + [x]) == if at + |s| < |b| then r[at + |s| := x] else r
  {}

  /** What the wait loop leaves behind: the events not consumed, the final packet count, the bytes appended. */
  datatype Collected = Collected(rest: seq<Event>, count: int, bytes: seq<bv8>)

  /**
   * The wait loop of one window, from count packets received to pkgCount:
   * idle rounds are skipped, a failed transfer ends the window with count -1,
   * a completed one appends its payload.
   */
  function Collect(events: seq<Event>, count: nat, pkgCount: nat): (c: Collected)
    requires count < pkgCount
    ensures c.count == -1 || c.count == pkgCount
    ensures |c.rest| < |events| || (events == [] && c == Collected([], -1, []))
    decreases |events|
  {
    if events == [] then Collected([], -1, [])
    else match events[0]
      case Idle => Collect(events[1..], count, pkgCount)
      case Failed => Collected(events[1..], -1, [])
      case Completed(data) =>
        var p := Payload(data, count == 0);
        if count + 1 == pkgCount then Collected(events[1..], pkgCount, p)
        else
          var c := Collect(events[1..], count + 1, pkgCount);
          Collected(c.rest, c.count, p + c.bytes)
  }

  /** One round of the wait loop, as the next event decides it. */
  lemma CollectUnfold(events: seq<Event>, count: nat, pkgCount: nat)
    requires count < pkgCount
    ensures Collect(events, count, pkgCount) ==
      match NextEvent(events)
      case Idle => Collect(Tail(events), count, pkgCount)
      case Failed => Collected(Tail(events), -1, [])
      case Completed(data) =>
        var p := Payload(data, count == 0);
        if count + 1 == pkgCount then Collected(Tail(events), pkgCount, p)
        else Prepend(p, Collect(Tail(events), count + 1, pkgCount))
  {}

  /** Prefixes the bytes appended before the current state of the loop. */
  function Prepend(acc: seq<bv8>, c: Collected): Collected {
    Collected(c.rest, c.count, acc + c.bytes)
  }

  /** The asynchronous bulk-in transfer, together with the driver's global packet counter. */
  class InboundTransfer {
    /** The caller's buffer, the transfer's user data. */
    const dest: array<bv8>
    /** bulkin_count: packets received in this window, or -1 after a failure. */
    var bulkinCount: int
    /** Offset in dest of the next byte the callback stores. */
    var cursor: nat
    /** Whether the transfer is submitted and not yet completed. */
    var pending: bool

    constructor (dest: array<bv8>)
      ensures this.dest == dest && bulkinCount == 0 && cursor == 0 && !pending
    {
      this.dest := dest;
      bulkinCount := 0;
      cursor := 0;
      pending := false;
    }

    /** libusb_fill_bulk_transfer with the caller's buffer as user data, then submission: the cursor restarts at the buffer. */
    method FillAndSubmit()
      modifies this
      ensures cursor == 0 && pending && bulkinCount == old(bulkinCount)
    {
      cursor := 0;
      pending := true;
    }

    /** Resubmission of the same transfer: the cursor carries on. */
    method Resubmit()
      modifies this
      ensures pending && cursor == old(cursor) && bulkinCount == old(bulkinCount)
    {
      pending := true;
    }

    /** The copy loop of cbBulkIn: stores data[i..], reversed, through the cursor. */
    method Append(data: seq<bv8>, i0: nat)
      modifies `cursor, dest
      ensures var p := if i0 <= |data| then Swapped(data[i0..]) else [];
        cursor == old(cursor) + |p| && dest[..] == Overlay(old(dest[..]), old(cursor), p)
    {
      ghost var c0 := cursor;
      ghost var d0 := dest[..];
      ghost var q: seq<bv8> := [];
      var i := i0;
      while i < |data|
        invariant i0 <= i && |q| == i - i0 && cursor == c0 + |q|
        invariant i0 <= |data| ==> i <= |data|
        invariant i0 > |data| ==> q == []
        invariant forall k | 0 <= k < |q| :: q[k] == Reverse(data[i0 + k])
        invariant dest[..] == Overlay(d0, c0, q)
      {
        var b := SwapByte(data[i]);
        ghost var before := dest[..];
        OverlayStep(d0, c0, q, b);
        if cursor < dest.Length {
          dest[cursor] := b;
        }
        assert dest[..] == if cursor < dest.Length then before[cursor := b] else before;
        q := q + [b];
        cursor := cursor + 1;
        i := i + 1;
      }
      assert q == if i0 <= |data| then Swapped(data[i0..]) else [];
    }

    /**
     * cbBulkIn: a completed packet appends its payload at the cursor and
     * counts one packet; any other status sets the counter to -1 and stores
     * nothing.
     */
    method CbBulkIn(e: Event)
      requires pending && !e.Idle?
      modifies this, dest
      ensures !pending
      ensures e.Completed? ==>
        var p := Payload(e.data, old(bulkinCount) == 0);
        bulkinCount == old(bulkinCount) + 1 && cursor == old(cursor) + |p|
        && dest[..] == Overlay(old(dest[..]), old(cursor), p)
      ensures e.Failed? ==> bulkinCount == -1 && cursor == old(cursor) && dest[..] == old(dest[..])
    {
      pending := false;
      match e
      case Completed(data) =>
        var i := if bulkinCount == 0 then 4 else 0;
        Append(data, i);
        bulkinCount := bulkinCount + 1;
      case Failed =>
        bulkinCount := -1;
    }
  }
}
