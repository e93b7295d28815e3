/**
 * The parts of the wire-format class `Transport` that the connection engine
 * relies on: segment type tags, the size constants and the header fields.
 * The codec itself (pack/unpack) is not part of this model.
 */
module TransportDefs {
  /** An 8-bit byte of payload. */
  type Byte = b: int | 0 <= b < 0x100

  /** Segment type tags (Transport.SYN, ACK, FIN, DATA). */
  datatype Kind = SYN | ACK | FIN | DATA

  /** Largest port number a socket may bind (Transport.MAX_PORT_NUM). */
  const MAX_PORT_NUM: int := 255

  /** Largest payload a single segment carries (Transport.MAX_PAYLOAD_SIZE). */
  const MAX_PAYLOAD_SIZE: int := 107

  /** A segment header plus payload, as handed to or received from the network. */
  datatype Transport = Transport(
    srcPort: int,
    destPort: int,
    kind: Kind,
    window: int,
    seqNum: int,
    payload: seq<Byte>)
}
