/**
 Requests and responses as the port handlers see them (Client/Src/Command.h, Firmware/UARTEthernetBridge/command.h).
 */
module Command {

  /** `uint8_t` used as a small number. */
  type u8 = x: int | 0 <= x < 0x100

  const NO_COMMAND: u8 := 0x00
  const RESET: u8 := 0x01
  const OPEN: u8 := 0x02
  const RESET_OPEN: u8 := 0x03
  const CLOSE: u8 := 0x04
  const DATA: u8 := 0x08

  datatype Request = Request(kind: u8, arg: u8, plSz: u8)
  datatype Response = Response(kind: u8, arg: u8, plSz: u8)

  /** `half<<7|(session&0x7F)`: the response argument carries the half-full flag above a seven-bit session id. */
  function PackArg(half: bool, session: u8): u8 {
    (if half then 0x80 else 0) + session % 0x80
  }

  /** `arg&0x80`. */
  predicate HalfFlag(arg: u8) { arg / 0x80 == 1 }

  /** `arg&0x7F`. */
  function SessionOf(arg: u8): u8 { arg % 0x80 }

  lemma ArgRoundTrip(half: bool, session: u8)
    ensures HalfFlag(PackArg(half, session)) == half
    ensures session < 0x80 ==> SessionOf(PackArg(half, session)) == session
  {
  }

  /** `WriteU32Value`: little-endian octets of a 32-bit value. */
  function U32Bytes(v: bv32): seq<bv8> {
    [(v & 0xFF) as bv8, ((v >> 8) & 0xFF) as bv8, ((v >> 16) & 0xFF) as bv8, ((v >> 24) & 0xFF) as bv8]
  }
}
