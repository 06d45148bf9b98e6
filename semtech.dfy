/** The wire-level view of the Semtech UDP packet-forwarder protocol that the
    adapter relies on. The codec itself (the `semtech` Go package) is not part
    of this model: marshalling and unmarshalling are supplied as a `Codec`
    value, two total functions that may fail. */
module Semtech {
  import opened Wrappers

  newtype byte = x: int | 0 <= x < 256

  type Bytes = seq<byte>

  /** Protocol version written into every frame this side builds
      (version 1 of the Semtech packet-forwarder protocol). */
  const VERSION: byte := 1

  /** Frame identifiers of the packet-forwarder protocol. */
  const PUSH_DATA: byte := 0
  const PUSH_ACK: byte := 1
  const PULL_DATA: byte := 2
  const PULL_ACK: byte := 4

  /** One received-radio-packet record; opaque to the adapter, which only
      forwards it. */
  type RXPK(==)

  /** The JSON payload of a PUSH_DATA frame, reduced to its RXPK array. */
  datatype Payload = Payload(rxpk: seq<RXPK>)

  /** A decoded frame. A nil `*Payload` is `None`. */
  datatype Packet = Packet(
    version: byte,
    token: Bytes,
    identifier: byte,
    gatewayId: Bytes,
    payload: Option<Payload>)

  /** `semtech.Marshal` and `semtech.Unmarshal`, as uninterpreted functions
      whose `None` result is the error return. */
  datatype Codec = Codec(
    marshal: Packet -> Option<Bytes>,
    unmarshal: Bytes -> Option<Packet>)
}
