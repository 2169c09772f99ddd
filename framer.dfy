/** Control frames: chip select and bus speed. */
module Framer {
  import opened Ch341Defs
  import opened Bits
  import opened Transport

  /**
   * The pin-stream frame that drives chip select. Output pins D0..D5 carry the
   * pattern 0x36 with D0, the chip-select line, low when the flash is selected
   * and high otherwise; only the asserting frame also sets D0..D5 as outputs.
   */
  function CsFrame(selected: bool): (f: seq<bv8>)
    ensures |f| == if selected then 4 else 3
    ensures f[0] == CmdUioStream && f[|f| - 1] == CmdUioStmEnd
    ensures f[1] & 0xC0 == CmdUioStmOut && f[1] & 0x3E == 0x36
    ensures Bit(f[1], 0) == !selected
    ensures selected ==> f[2] & 0xC0 == CmdUioStmDir && f[2] & 0x3F == 0x3F
  {
    [CmdUioStream, CmdUioStmOut | (if selected then 0x36 else 0x37)]
    + (if selected then [CmdUioStmDir | 0x3F] else [])
    + [CmdUioStmEnd]
  }

  /** The two frames on the wire. */
  lemma CsFrameBytes()
    ensures CsFrame(true) == [0xAB, 0xB6, 0x7F, 0x20]
    ensures CsFrame(false) == [0xAB, 0xB7, 0x20]
  {}

  /**
   * ch341SpiCs: writes the chip-select frame at the front of a through an
   * advancing pointer and leaves every later byte as it was.
   */
  method SpiCs(a: array<bv8>, selected: bool)
    requires |CsFrame(selected)| <= a.Length
    modifies a
    ensures a[..|CsFrame(selected)|] == CsFrame(selected)
    ensures a[|CsFrame(selected)|..] == old(a[|CsFrame(selected)|..])
  {
    var ptr := 0;
    a[ptr] := CmdUioStream;
    ptr := ptr + 1;
    a[ptr] := CmdUioStmOut | (if selected then 0x36 else 0x37);
    ptr := ptr + 1;
    if selected {
      a[ptr] := CmdUioStmDir | 0x3F;
      ptr := ptr + 1;
    }
    a[ptr] := CmdUioStmEnd;
  }

  /**
   * The I2C-stream frame that sets the bus speed: bits 1..0 of the mode pick
   * the clock, bit 2 single or double SPI width; the higher bits are dropped.
   */
  function SpeedFrame(speed: bv32): (f: seq<bv8>)
    ensures |f| == 3 && f[0] == CmdI2cStream && f[2] == CmdI2cStmEnd
    ensures f[1] & 0xF8 == CmdI2cStmSet && f[1] & 0x07 == (speed & 0x07) as bv8
  {
    [CmdI2cStream, CmdI2cStmSet | (speed & 0x07) as bv8, CmdI2cStmEnd]
  }

  /** Only the low three bits of the speed argument reach the device. */
  lemma SpeedFrameLowBits(s: bv32, t: bv32)
    ensures SpeedFrame(s) == SpeedFrame(t) <==> s & 0x07 == t & 0x07
  {
    if SpeedFrame(s) == SpeedFrame(t) {
      assert SpeedFrame(s)[1] == SpeedFrame(t)[1];
    }
  }

  /** ch341SetStream: sends the 3-byte speed frame and returns the transfer's result. */
  method SetStream(dev: Device, speed: bv32) returns (ret: int)
    modifies dev
    ensures dev.out == old(dev.out) + [SpeedFrame(speed)]
    ensures ret == WriteRet(old(dev.writeResults), 3)
    ensures dev.writeResults == Tail(old(dev.writeResults))
    ensures dev.readResults == old(dev.readResults) && dev.events == old(dev.events)
  {
    var buf := new bv8[3];
    buf[0] := CmdI2cStream;
    buf[1] := CmdI2cStmSet | (speed & 0x07) as bv8;
    buf[2] := CmdI2cStmEnd;
    assert buf[..3] == SpeedFrame(speed);
    ret := dev.BulkWrite(buf, 3);
  }
}
