/** The values that travel on the adapter's two lanes, the recipient of a
    forwarded record, and the adapter's error sentinels. */
module Messages {
  import opened Wrappers
  import opened Semtech

  /** A remote UDP address (`*net.UDPAddr`), opaque. */
  type Addr(==)

  /** A UDP socket (`*net.UDPConn`), opaque; equality is handle identity. */
  type Conn(==)

  /** A command for the socket owner: `conn` asks it to switch to a new
      socket, `raw` asks it to write bytes to `addr`. Nil fields are `None`. */
  datatype UdpMsg = UdpMsg(conn: Option<Conn>, addr: Option<Addr>, raw: Option<Bytes>)

  /** The originating gateway: the address the datagram came from and the
      gateway identifier carried in the frame. */
  datatype Recipient = Recipient(address: Addr, id: Bytes)

  /** One delivery event: a record together with the gateway it came from. */
  datatype RxpkMsg = RxpkMsg(rxpk: RXPK, recipient: Recipient)

  /** The four error sentinels, as a closed enumeration. */
  datatype Error = ErrInvalidPort | ErrNotInitialized | ErrNotSupported | ErrInvalidPacket

  /** The command that installs `c` as the socket owner's connection. */
  function Install(c: Conn): UdpMsg
  {
    UdpMsg(Some(c), None, None)
  }

  /** The command that writes `raw` to `addr` on the current connection. */
  function WriteTo(addr: Addr, raw: Bytes): UdpMsg
  {
    UdpMsg(None, Some(addr), Some(raw))
  }
}
