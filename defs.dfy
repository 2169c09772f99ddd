/** Constants of the CH341A vendor protocol, as the header defines them. */
module Ch341Defs {
  /** Size of one USB micro-packet: an opcode byte plus up to 31 payload bytes. */
  const PacketLength: nat := 0x20
  /** Size of the largest outbound buffer the driver builds in one go. */
  const MaxPacketLen: nat := 4096

  /** Opcode of a stream of SPI bytes inside one micro-packet. */
  const CmdSpiStream: bv8 := 0xA8
  /** Opcode of an I2C command stream (used to set the bus speed). */
  const CmdI2cStream: bv8 := 0xAA
  /** Opcode of a pin (UIO) command stream (used to drive chip select). */
  const CmdUioStream: bv8 := 0xAB

  /** I2C stream sub-command "set speed", its low three bits carry the mode. */
  const CmdI2cStmSet: bv8 := 0x60
  /** I2C stream terminator. */
  const CmdI2cStmEnd: bv8 := 0x00

  /** UIO stream sub-command "set pin directions", low six bits are the mask. */
  const CmdUioStmDir: bv8 := 0x40
  /** UIO stream sub-command "set output pins", low six bits are the levels. */
  const CmdUioStmOut: bv8 := 0x80
  /** UIO stream terminator. */
  const CmdUioStmEnd: bv8 := 0x20
}
