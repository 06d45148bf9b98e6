/** The adapter's public face: construction, the initialisation probe, the
    blocking fetch of the next forwarded record, and the two operations this
    adapter does not support. The two goroutine channels are modelled as
    FIFO lanes: `conn` holds every command sent to the socket owner, in
    order (the socket owner is run over the whole lane), `next` the delivery
    events not yet taken by a consumer; a nil channel is `None`. */
module Facade {
  import opened Wrappers
  import opened Semtech
  import opened Messages

  datatype Adapter = Adapter(conn: Option<seq<UdpMsg>>, next: Option<seq<RxpkMsg>>)

  /** The router's internal packet (`core.Packet`), opaque. */
  type CorePacket(==)

  /** The acknowledgement handle handed out with each record, bound to the
      gateway the record came from (and, implicitly, to the adapter's
      command lane). */
  datatype AckNacker = AckNacker(recipient: Recipient)

  /** What a receiving operation returns: a packet and its handle, an error,
      or, while the delivery lane is empty, no return yet. */
  datatype NextResult = Delivered(packet: CorePacket, acker: AckNacker) | Failed(error: Error) | Blocked

  /** `NewAdapter`: `bind` is the outcome of `ListenUDP` (the error of the
      address resolution before it is never checked). On success both lanes
      exist, and the bound socket is already handed to the socket owner as
      the first command, before any datagram can be read. */
  function NewAdapter(bind: Option<Conn>): (r: Result<Adapter, Error>)
    ensures bind.None? <==> r == Failure(ErrInvalidPort)
    ensures bind.Some? ==> r.Success? && Ok(Some(r.value))
    ensures bind.Some? ==> r.value.conn == Some([Install(bind.value)]) && r.value.next == Some([])
  {
    match bind
    case None => Failure(ErrInvalidPort)
    case Some(c) => Success(Adapter(Some([Install(c)]), Some([])))
  }

  /** `ok`: the adapter exists and both of its lanes exist. */
  predicate Ok(a: Option<Adapter>)
  {
    a.Some? && a.value.conn.Some? && a.value.next.Some?
  }

  /** `Send` is not supported, whatever the adapter's state. */
  function Send(a: Option<Adapter>, p: CorePacket, recipients: seq<Recipient>): (r: Result<CorePacket, Error>)
    ensures r.Failure? && r.error == ErrNotSupported
  {
    Failure(ErrNotSupported)
  }

  /** `NextRegistration` is not supported, whatever the adapter's state. */
  function NextRegistration(a: Option<Adapter>): (r: NextResult)
    ensures r == Failed(ErrNotSupported)
  {
    Failed(ErrNotSupported)
  }

  /** What `Next` returns for the event it received. */
  function Converted(msg: RxpkMsg, convert: RXPK -> Option<CorePacket>): NextResult
  {
    match convert(msg.rxpk)
    case None => Failed(ErrInvalidPacket)
    case Some(p) => Delivered(p, AckNacker(msg.recipient))
  }

  /** `Next`: the result and the adapter afterwards. `convert` is
      `core.ConvertRXPK`. */
  function Next(a: Option<Adapter>, convert: RXPK -> Option<CorePacket>): (NextResult, Option<Adapter>)
  {
    if !Ok(a) then (Failed(ErrNotInitialized), a)
    else
      var q := a.value.next.value;
      if q == [] then (Blocked, a)
      else (Converted(q[0], convert), Some(a.value.(next := Some(q[1..]))))
  }

  /** `k` successive calls of `Next`. */
  function Fetch(a: Option<Adapter>, convert: RXPK -> Option<CorePacket>, k: nat): seq<NextResult>
    decreases k
  {
    if k == 0 then [] else [Next(a, convert).0] + Fetch(Next(a, convert).1, convert, k - 1)
  }

  /** On an adapter that is nil, or whose lanes are nil, `Next` fails with
      ErrNotInitialized at once and receives nothing. */
  lemma NextNotInitialized(a: Option<Adapter>, convert: RXPK -> Option<CorePacket>)
    requires !Ok(a)
    ensures Next(a, convert) == (Failed(ErrNotInitialized), a)
  {
  }

  /** The zero-value adapter and the nil adapter are not initialised;
      every adapter `NewAdapter` returns is. */
  lemma ZeroValueNotInitialized(c: Conn)
    ensures !Ok(None) && !Ok(Some(Adapter(None, None)))
    ensures Ok(Some(NewAdapter(Some(c)).value))
  {
  }

  /** `Next` on an initialised adapter receives the oldest event: a failed
      conversion is ErrInvalidPacket and the event is consumed all the same;
      otherwise the packet comes with a handle bound to the event's gateway. */
  lemma NextReceivesOldest(a: Option<Adapter>, convert: RXPK -> Option<CorePacket>, m: RxpkMsg, rest: seq<RxpkMsg>)
    requires Ok(a) && a.value.next == Some([m] + rest)
    ensures convert(m.rxpk).None? ==> Next(a, convert).0 == Failed(ErrInvalidPacket)
    ensures convert(m.rxpk).Some? ==>
      Next(a, convert).0 == Delivered(convert(m.rxpk).value, AckNacker(m.recipient))
    ensures Next(a, convert).1 == Some(a.value.(next := Some(rest)))
  {
    assert ([m] + rest)[1..] == rest;
  }

  /** The unsupported operations report ErrNotSupported even on an adapter
      that is not initialised, where `Next` reports ErrNotInitialized. */
  lemma UnsupportedBeforeInitialized(a: Option<Adapter>, p: CorePacket, rs: seq<Recipient>, convert: RXPK -> Option<CorePacket>)
    requires !Ok(a)
    ensures Send(a, p, rs) == Failure(ErrNotSupported)
    ensures NextRegistration(a) == Failed(ErrNotSupported)
    ensures Next(a, convert).0 == Failed(ErrNotInitialized)
  {
  }

  /** Successive calls of `Next` hand out the queued events in FIFO order,
      one per call, each converted on its own. */
  lemma {:induction false} FetchInOrder(a: Option<Adapter>, convert: RXPK -> Option<CorePacket>, k: nat)
    requires Ok(a) && k <= |a.value.next.value|
    ensures |Fetch(a, convert, k)| == k
    ensures forall i :: 0 <= i < k ==> Fetch(a, convert, k)[i] == Converted(a.value.next.value[i], convert)
    decreases k
  {
    if k > 0 {
      var q := a.value.next.value;
      var a' := Next(a, convert).1;
      assert a' == Some(a.value.(next := Some(q[1..])));
      FetchInOrder(a', convert, k - 1);
      forall i | 0 <= i < k
        ensures Fetch(a, convert, k)[i] == Converted(q[i], convert)
      {
        if i > 0 {
          assert Fetch(a, convert, k)[i] == Fetch(a', convert, k - 1)[i - 1];
          assert q[1..][i - 1] == q[i];
        }
      }
    }
  }

  /** Once the queued events are used up, `Next` does not return. */
  lemma {:induction false} FetchBlocksWhenDrained(a: Option<Adapter>, convert: RXPK -> Option<CorePacket>, k: nat)
    requires Ok(a) && k > |a.value.next.value|
    ensures |Fetch(a, convert, k)| == k
    ensures Fetch(a, convert, k)[|a.value.next.value|] == Blocked
    decreases k
  {
    var q := a.value.next.value;
    var a' := Next(a, convert).1;
    if q == [] {
      assert Fetch(a, convert, k)[0] == Blocked;
      FetchLength(a', convert, k - 1);
    } else {
      assert a' == Some(a.value.(next := Some(q[1..])));
      FetchBlocksWhenDrained(a', convert, k - 1);
    }
  }

  lemma {:induction false} FetchLength(a: Option<Adapter>, convert: RXPK -> Option<CorePacket>, k: nat)
    ensures |Fetch(a, convert, k)| == k
    decreases k
  {
    if k > 0 {
      FetchLength(Next(a, convert).1, convert, k - 1);
    }
  }
}
