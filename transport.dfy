/**
 * The USB side, seen from the driver. Synchronous bulk transfers and the
 * asynchronous bulk-in transfer are driven by a script of outcomes fixed in
 * advance; every frame the driver hands to the bulk-out endpoint is logged.
 * A script that has run out stands for a device that no longer answers: the
 * transfer fails (it would time out).
 */
module Transport {
  datatype Option<T> = None | Some(value: T)

  type Bytes = seq<bv8>
  /** The outcome of one synchronous bulk-in read: the bytes returned, or failure. */
  type Reply = Option<Bytes>

  /** What one round of the event pump delivers for the pending bulk-in transfer. */
  datatype Event =
    | Completed(data: seq<bv8>) // the transfer completed with these bytes
    | Failed                    // any other status: error, time-out, stall, overflow, no device
    | Idle                      // nothing completed before the pump's own time-out

  function Tail<T>(s: seq<T>): (t: seq<T>)
    ensures |t| == if s == [] then 0 else |s| - 1
    ensures s != [] ==> s == [s[0]] + t
  {
    if s == [] then [] else s[1..]
  }

  /** Whether the next synchronous write of the script is accepted. */
  predicate WriteOk(writes: seq<bool>) {
    writes != [] && writes[0]
  }

  /** The return value of a synchronous write of len bytes. */
  function WriteRet(writes: seq<bool>, len: nat): (r: int)
    ensures r == -1 || r == len
    ensures r == len <==> WriteOk(writes)
  {
    if WriteOk(writes) then len else -1
  }

  /** The next synchronous read of the script; an exhausted script fails. */
  function NextRead(replies: seq<Reply>): Reply {
    if replies == [] then None else replies[0]
  }

  /** The next event the pump delivers; an exhausted script times out, which is a failure. */
  function NextEvent(events: seq<Event>): (e: Event)
    ensures events == [] ==> e == Failed
  {
    if events == [] then Failed else events[0]
  }

  function Min(a: nat, b: nat): (m: nat)
    ensures m <= a && m <= b && (m == a || m == b)
  {
    if a <= b then a else b
  }

  /** The opened device handle together with the behaviour of the device behind it. */
  class Device {
    /** Every frame handed to the bulk-out endpoint, synchronously or not, in order. */
    var out: seq<seq<bv8>>
    /** Outcome of each upcoming synchronous bulk-out write. */
    var writeResults: seq<bool>
    /** Outcome of each upcoming synchronous bulk-in read: the bytes returned, or failure. */
    var readResults: seq<Reply>
    /** What each upcoming round of the event pump delivers for the bulk-in transfer. */
    var events: seq<Event>

    constructor (writeResults: seq<bool>, readResults: seq<Reply>, events: seq<Event>)
      ensures out == [] && this.writeResults == writeResults
      ensures this.readResults == readResults && this.events == events
    {
      out := [];
      this.writeResults := writeResults;
      this.readResults := readResults;
      this.events := events;
    }

    /** A synchronous write of buf[..len] to the bulk-out endpoint: -1 on failure, else len. */
    method BulkWrite(buf: array<bv8>, len: nat) returns (ret: int)
      requires len <= buf.Length
      modifies this
      ensures out == old(out) + [buf[..len]]
      ensures ret == WriteRet(old(writeResults), len)
      ensures writeResults == Tail(old(writeResults))
      ensures readResults == old(readResults) && events == old(events)
    {
      out := out + [buf[..len]];
      ret := WriteRet(writeResults, len);
      writeResults := Tail(writeResults);
    }

    /**
     * A synchronous read of at most len bytes into buf: -1 on failure, else
     * the number of bytes stored at the front of buf.
     */
    method BulkRead(buf: array<bv8>, len: nat) returns (ret: int)
      requires len <= buf.Length
      modifies this, buf
      ensures readResults == Tail(old(readResults))
      ensures out == old(out) && writeResults == old(writeResults) && events == old(events)
      ensures NextRead(old(readResults)).None? ==> ret == -1 && buf[..] == old(buf[..])
      ensures NextRead(old(readResults)).Some? ==>
        var d := NextRead(old(readResults)).value;
        ret == Min(|d|, len) && buf[..ret] == d[..ret] && buf[ret..] == old(buf[ret..])
    {
      var reply := NextRead(readResults);
      readResults := Tail(readResults);
      match reply
      case None =>
        ret := -1;
      case Some(d) =>
        var n := Min(|d|, len);
        forall i | 0 <= i < n {
          buf[i] := d[i];
        }
        ret := n;
    }

    /** Submission of an asynchronous transfer of buf[..len] to the bulk-out endpoint. */
    method SubmitOut(buf: array<bv8>, len: nat)
      requires len <= buf.Length
      modifies this
      ensures out == old(out) + [buf[..len]]
      ensures writeResults == old(writeResults) && readResults == old(readResults)
      ensures events == old(events)
    {
      out := out + [buf[..len]];
    }

    /** One round of the event pump. */
    method Pump() returns (e: Event)
      modifies this
      ensures e == NextEvent(old(events)) && events == Tail(old(events))
      ensures out == old(out) && writeResults == old(writeResults)
      ensures readResults == old(readResults)
    {
      e := NextEvent(events);
      events := Tail(events);
    }
  }
}
