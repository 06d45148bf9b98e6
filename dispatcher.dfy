/** The inbound dispatcher: the body of the adapter's read loop. Each datagram
    (or read error) is turned into the effects the loop performs for it, in
    order: commands sent to the socket owner's lane and delivery events sent
    to the consumer's lane. */
module Dispatcher {
  import opened Wrappers
  import opened Semtech
  import opened Messages

  /** Why a `ReadFromUDP` call failed: a transient condition, or the socket
      having been closed (every later read fails the same way). */
  datatype ReadError = Transient | Closed

  /** The outcome of one `ReadFromUDP` call. */
  datatype ReadResult = ReadFailed(reason: ReadError) | Datagram(data: Bytes, sender: Addr)

  /** One channel send performed by the read loop. */
  datatype Effect = Command(cmd: UdpMsg) | Event(event: RxpkMsg)

  /** The acknowledgement frame built for `pkt`: the version is always
      VERSION, never the incoming one, and only the token is echoed. */
  function Ack(pkt: Packet, identifier: byte): Packet
  {
    Packet(VERSION, pkt.token, identifier, [], None)
  }

  /** One delivery event per record, in payload order. */
  function Deliveries(rxpks: seq<RXPK>, to: Recipient): seq<Effect>
  {
    if rxpks == [] then [] else [Event(RxpkMsg(rxpks[0], to))] + Deliveries(rxpks[1..], to)
  }

  /** What one iteration of the read loop does with one read. */
  function Dispatch(read: ReadResult, codec: Codec): seq<Effect>
  {
    match read
    case ReadFailed(_) => []
    case Datagram(data, sender) =>
      match codec.unmarshal(data)
      case None => []
      case Some(pkt) =>
        if pkt.identifier == PULL_DATA then
          match codec.marshal(Ack(pkt, PULL_ACK))
          case None => []
          case Some(pullAck) => [Command(WriteTo(sender, pullAck))]
        else if pkt.identifier == PUSH_DATA then
          match codec.marshal(Ack(pkt, PUSH_ACK))
          case None => []
          case Some(pushAck) =>
            [Command(WriteTo(sender, pushAck))] +
            match pkt.payload
            case None => []
            case Some(p) => Deliveries(p.rxpk, Recipient(sender, pkt.gatewayId))
        else []
  }

  /** The commands among `es`, in order. */
  function Commands(es: seq<Effect>): seq<UdpMsg>
  {
    if es == [] then []
    else (if es[0].Command? then [es[0].cmd] else []) + Commands(es[1..])
  }

  /** The delivery events among `es`, in order. */
  function Events(es: seq<Effect>): seq<RxpkMsg>
  {
    if es == [] then []
    else (if es[0].Event? then [es[0].event] else []) + Events(es[1..])
  }

  /** The effects of the read loop over a finite run of reads. */
  function Trace(input: seq<ReadResult>, codec: Codec): seq<Effect>
  {
    if input == [] then []
    else Trace(input[..|input| - 1], codec) + Dispatch(input[|input| - 1], codec)
  }

  /** The read loop of `listen` as written, run over the reads the socket
      returns: every read error is skipped with `continue`, so the loop
      performs every read it is offered, including those that fail because
      the socket has been closed. */
  method Listen(input: seq<ReadResult>, codec: Codec) returns (trace: seq<Effect>, attempts: nat)
    ensures attempts == |input|
    ensures trace == Trace(input, codec)
  {
    trace, attempts := [], 0;
    for i := 0 to |input|
      invariant attempts == i
      invariant trace == Trace(input[..i], codec)
    {
      TraceExtend(input, i, codec);
      trace := trace + Dispatch(input[i], codec);
      attempts := attempts + 1;
    }
    assert input[..|input|] == input;
  }

  /** The number of reads a loop that ends when its socket is closed
      performs: up to and including the first read that reports the socket
      closed, or all of them. */
  function ReadsUntilClosed(input: seq<ReadResult>): (k: nat)
    ensures k <= |input|
    ensures forall j :: 0 <= j < k - 1 ==> input[j] != ReadFailed(Closed)
    ensures k == |input| || (0 < k && input[k - 1] == ReadFailed(Closed))
  {
    if input == [] then 0
    else if input[0] == ReadFailed(Closed) then 1
    else 1 + ReadsUntilClosed(input[1..])
  }

  /** Two stopping points that both end at the first closed-socket error
      are the same. */
  lemma FirstClosedUnique(input: seq<ReadResult>, k: nat, k': nat)
    requires k <= |input| && k' <= |input|
    requires forall j :: 0 <= j < k - 1 ==> input[j] != ReadFailed(Closed)
    requires k == |input| || (0 < k && input[k - 1] == ReadFailed(Closed))
    requires forall j :: 0 <= j < k' - 1 ==> input[j] != ReadFailed(Closed)
    requires k' == |input| || (0 < k' && input[k' - 1] == ReadFailed(Closed))
    ensures k == k'
  {
  }

  /** The read loop as its comment describes it ("terminates when the
      connection is closed"): the same dispatch of every read, ending at the
      first read that reports the socket closed. */
  method ListenUntilClosed(input: seq<ReadResult>, codec: Codec) returns (trace: seq<Effect>, attempts: nat)
    ensures attempts == ReadsUntilClosed(input)
    ensures trace == Trace(input[..attempts], codec)
  {
    trace, attempts := [], 0;
    while attempts < |input|
      invariant attempts <= |input|
      invariant forall j :: 0 <= j < attempts ==> input[j] != ReadFailed(Closed)
      invariant trace == Trace(input[..attempts], codec)
    {
      var read := input[attempts];
      TraceExtend(input, attempts, codec);
      trace := trace + Dispatch(read, codec);
      attempts := attempts + 1;
      if read == ReadFailed(Closed) {
        ClosedReadEndsLoop(input, attempts);
        return;
      }
    }
    FirstClosedUnique(input, attempts, ReadsUntilClosed(input));
  }

  /** One more read extends the trace by that read's effects. */
  lemma TraceExtend(input: seq<ReadResult>, i: nat, codec: Codec)
    requires i < |input|
    ensures Trace(input[..i + 1], codec) == Trace(input[..i], codec) + Dispatch(input[i], codec)
  {
    assert input[..i + 1][..i] == input[..i];
  }

  /** A read that reports the socket closed, preceded by none, is where
      `ReadsUntilClosed` stops. */
  lemma ClosedReadEndsLoop(input: seq<ReadResult>, k: nat)
    requires 0 < k <= |input| && input[k - 1] == ReadFailed(Closed)
    requires forall j :: 0 <= j < k - 1 ==> input[j] != ReadFailed(Closed)
    ensures k == ReadsUntilClosed(input)
  {
    FirstClosedUnique(input, k, ReadsUntilClosed(input));
  }

  /** On a socket that has been closed, `n` reads all fail with the closed
      error. The loop as written (`Listen`, which performs every read it is
      offered) keeps reading all `n` of them and never exits, while the loop
      that ends on close stops after the first. */
  lemma ClosedSocketSpins(n: nat, codec: Codec)
    requires n >= 2
    ensures var input := seq(n, _ => ReadFailed(Closed));
      && Trace(input, codec) == []
      && ReadsUntilClosed(input) == 1 < |input|
  {
    var input := seq(n, _ => ReadFailed(Closed));
    NoDatagramsNoEffects(input, codec);
  }

  /** Reads that all fail produce no effect at all. */
  lemma {:induction false} NoDatagramsNoEffects(input: seq<ReadResult>, codec: Codec)
    requires forall j :: 0 <= j < |input| ==> input[j].ReadFailed?
    ensures Trace(input, codec) == []
  {
    if input != [] {
      NoDatagramsNoEffects(input[..|input| - 1], codec);
    }
  }

  /** A datagram that the adapter answers: it decodes, it is a PULL_DATA or a
      PUSH_DATA, and its acknowledgement marshals. */
  predicate Acknowledged(read: ReadResult, codec: Codec)
  {
    && read.Datagram?
    && codec.unmarshal(read.data).Some?
    && var pkt := codec.unmarshal(read.data).value;
       || (pkt.identifier == PULL_DATA && codec.marshal(Ack(pkt, PULL_ACK)).Some?)
       || (pkt.identifier == PUSH_DATA && codec.marshal(Ack(pkt, PUSH_ACK)).Some?)
  }

  lemma {:induction false} CommandsAppend(a: seq<Effect>, b: seq<Effect>)
    ensures Commands(a + b) == Commands(a) + Commands(b)
  {
    if a == [] {
      assert a + b == b;
    } else {
      var h := if a[0].Command? then [a[0].cmd] else [];
      assert (a + b)[0] == a[0];
      assert (a + b)[1..] == a[1..] + b;
      CommandsAppend(a[1..], b);
      SeqAssoc(h, Commands(a[1..]), Commands(b));
    }
  }

  lemma {:induction false} EventsAppend(a: seq<Effect>, b: seq<Effect>)
    ensures Events(a + b) == Events(a) + Events(b)
  {
    if a == [] {
      assert a + b == b;
    } else {
      var h := if a[0].Event? then [a[0].event] else [];
      assert (a + b)[0] == a[0];
      assert (a + b)[1..] == a[1..] + b;
      EventsAppend(a[1..], b);
      SeqAssoc(h, Events(a[1..]), Events(b));
    }
  }

  /** Forwarding a payload yields exactly one event per record, in payload
      order, each addressed to `to`, and no command. */
  lemma {:induction false} DeliveriesInOrder(rxpks: seq<RXPK>, to: Recipient)
    ensures |Deliveries(rxpks, to)| == |rxpks|
    ensures Commands(Deliveries(rxpks, to)) == []
    ensures |Events(Deliveries(rxpks, to))| == |rxpks|
    ensures forall i :: 0 <= i < |rxpks| ==>
      Deliveries(rxpks, to)[i] == Event(RxpkMsg(rxpks[i], to)) &&
      Events(Deliveries(rxpks, to))[i] == RxpkMsg(rxpks[i], to)
  {
    if rxpks != [] {
      DeliveriesInOrder(rxpks[1..], to);
    }
  }

  /** A decoded PULL_DATA whose PULL_ACK marshals yields exactly one command:
      the marshalled `{VERSION, token, PULL_ACK}` frame, written to the
      sender, and no delivery event. */
  lemma PullDataAcknowledged(data: Bytes, sender: Addr, codec: Codec, pkt: Packet, pullAck: Bytes)
    requires codec.unmarshal(data) == Some(pkt) && pkt.identifier == PULL_DATA
    requires codec.marshal(Packet(VERSION, pkt.token, PULL_ACK, [], None)) == Some(pullAck)
    ensures Dispatch(Datagram(data, sender), codec) == [Command(UdpMsg(None, Some(sender), Some(pullAck)))]
    ensures Commands(Dispatch(Datagram(data, sender), codec)) == [UdpMsg(None, Some(sender), Some(pullAck))]
    ensures Events(Dispatch(Datagram(data, sender), codec)) == []
  {
  }

  /** A decoded PUSH_DATA whose PUSH_ACK marshals and whose payload is present
      yields the PUSH_ACK command first, written to the sender, then one
      event per record, in payload order, each addressed to the sender's
      address and the frame's gateway identifier. */
  lemma PushDataAcknowledgedThenForwarded(
    data: Bytes, sender: Addr, codec: Codec, pkt: Packet, pushAck: Bytes, p: Payload)
    requires codec.unmarshal(data) == Some(pkt) && pkt.identifier == PUSH_DATA
    requires codec.marshal(Packet(VERSION, pkt.token, PUSH_ACK, [], None)) == Some(pushAck)
    requires pkt.payload == Some(p)
    ensures var es := Dispatch(Datagram(data, sender), codec);
      && |es| == 1 + |p.rxpk|
      && es[0] == Command(UdpMsg(None, Some(sender), Some(pushAck)))
      && (forall i :: 0 <= i < |p.rxpk| ==>
            es[1 + i] == Event(RxpkMsg(p.rxpk[i], Recipient(sender, pkt.gatewayId))))
      && Commands(es) == [UdpMsg(None, Some(sender), Some(pushAck))]
      && |Events(es)| == |p.rxpk|
  {
    var to := Recipient(sender, pkt.gatewayId);
    var head := [Command(WriteTo(sender, pushAck))];
    assert Dispatch(Datagram(data, sender), codec) == head + Deliveries(p.rxpk, to);
    DeliveriesInOrder(p.rxpk, to);
    CommandsAppend(head, Deliveries(p.rxpk, to));
    EventsAppend(head, Deliveries(p.rxpk, to));
  }

  /** A PUSH_DATA without a payload is acknowledged and forwards nothing; a
      payload with an empty RXPK array forwards nothing either. */
  lemma PushDataWithoutRecords(data: Bytes, sender: Addr, codec: Codec, pkt: Packet, pushAck: Bytes)
    requires codec.unmarshal(data) == Some(pkt) && pkt.identifier == PUSH_DATA
    requires codec.marshal(Packet(VERSION, pkt.token, PUSH_ACK, [], None)) == Some(pushAck)
    requires pkt.payload == None || pkt.payload == Some(Payload([]))
    ensures Dispatch(Datagram(data, sender), codec) == [Command(UdpMsg(None, Some(sender), Some(pushAck)))]
    ensures Events(Dispatch(Datagram(data, sender), codec)) == []
  {
  }

  /** A frame that is neither PULL_DATA nor PUSH_DATA is neither acknowledged
      nor forwarded. */
  lemma OtherIdentifiersIgnored(data: Bytes, sender: Addr, codec: Codec, pkt: Packet)
    requires codec.unmarshal(data) == Some(pkt)
    requires pkt.identifier != PULL_DATA && pkt.identifier != PUSH_DATA
    ensures Dispatch(Datagram(data, sender), codec) == []
  {
  }

  lemma SeqAssoc<T>(x: seq<T>, y: seq<T>, z: seq<T>)
    ensures x + y + z == x + (y + z)
  {
  }

  /** A read error or an undecodable datagram produces no effect. */
  lemma UnreadableIgnored(read: ReadResult, codec: Codec)
    requires read.ReadFailed? || codec.unmarshal(read.data).None?
    ensures Dispatch(read, codec) == []
  {
  }

  /** When the acknowledgement fails to marshal nothing at all is emitted for
      the datagram: for a PUSH_DATA no record is forwarded either. */
  lemma AckMarshalFailureDropsDatagram(data: Bytes, sender: Addr, codec: Codec, pkt: Packet)
    requires codec.unmarshal(data) == Some(pkt)
    requires || (pkt.identifier == PULL_DATA && codec.marshal(Ack(pkt, PULL_ACK)).None?)
             || (pkt.identifier == PUSH_DATA && codec.marshal(Ack(pkt, PUSH_ACK)).None?)
    ensures Dispatch(Datagram(data, sender), codec) == []
  {
  }

  /** The incoming frame's version has no influence on what is emitted. */
  lemma VersionIgnored(data: Bytes, data': Bytes, sender: Addr, codec: Codec, pkt: Packet, v: byte)
    requires codec.unmarshal(data) == Some(pkt)
    requires codec.unmarshal(data') == Some(pkt.(version := v))
    ensures Dispatch(Datagram(data, sender), codec) == Dispatch(Datagram(data', sender), codec)
  {
    assert Ack(pkt, PULL_ACK) == Ack(pkt.(version := v), PULL_ACK);
    assert Ack(pkt, PUSH_ACK) == Ack(pkt.(version := v), PUSH_ACK);
  }

  /** The effects of an acknowledged PUSH_DATA: the PUSH_ACK, then one event
      per record of the payload (none without a payload). */
  lemma PushDataShape(read: ReadResult, codec: Codec)
    requires read.Datagram? && codec.unmarshal(read.data).Some?
    requires var pkt := codec.unmarshal(read.data).value;
      pkt.identifier == PUSH_DATA && codec.marshal(Ack(pkt, PUSH_ACK)).Some?
    ensures var pkt := codec.unmarshal(read.data).value;
      var es := Dispatch(read, codec);
      && Commands(es) == [WriteTo(read.sender, codec.marshal(Ack(pkt, PUSH_ACK)).value)]
      && es[0].Command? && |es| == 1 + |Events(es)|
      && (forall e :: e in Events(es) ==> e.recipient == Recipient(read.sender, pkt.gatewayId))
  {
    var pkt := codec.unmarshal(read.data).value;
    var es := Dispatch(read, codec);
    var head := [Command(WriteTo(read.sender, codec.marshal(Ack(pkt, PUSH_ACK)).value))];
    var to := Recipient(read.sender, pkt.gatewayId);
    var rxpks := if pkt.payload.Some? then pkt.payload.value.rxpk else [];
    assert Deliveries([], to) == [];
    assert es == head + Deliveries(rxpks, to);
    DeliveriesInOrder(rxpks, to);
    CommandsAppend(head, Deliveries(rxpks, to));
    EventsAppend(head, Deliveries(rxpks, to));
    assert Events(es) == Events(Deliveries(rxpks, to));
    forall e | e in Events(es)
      ensures e.recipient == to
    {
      var i :| 0 <= i < |Events(es)| && Events(es)[i] == e;
    }
  }

  /** For every read: a command is emitted exactly when the datagram is
      acknowledged, there is at most one, it only writes to the sender and
      never replaces the socket, it precedes every event, and every event is
      addressed to the sender. */
  lemma DispatchShape(read: ReadResult, codec: Codec)
    ensures var es := Dispatch(read, codec);
      && (|Commands(es)| == 1 <==> Acknowledged(read, codec))
      && (|Commands(es)| == 0 <==> !Acknowledged(read, codec))
      && (forall m :: m in Commands(es) ==>
            read.Datagram? && m.conn.None? && m.addr == Some(read.sender) && m.raw.Some?)
      && (Events(es) != [] ==> es[0].Command? && |es| == 1 + |Events(es)|)
      && (forall e :: e in Events(es) ==>
            read.Datagram? && e.recipient.address == read.sender &&
            e.recipient.id == codec.unmarshal(read.data).value.gatewayId)
  {
    if read.Datagram? && codec.unmarshal(read.data).Some? {
      var pkt := codec.unmarshal(read.data).value;
      if pkt.identifier == PUSH_DATA && codec.marshal(Ack(pkt, PUSH_ACK)).Some? {
        PushDataShape(read, codec);
      }
    }
  }

  /** Reads are processed independently: the loop's effects over `a + b` are
      those over `a` followed by those over `b`. */
  lemma {:induction false} TraceSplit(a: seq<ReadResult>, b: seq<ReadResult>, codec: Codec)
    ensures Trace(a + b, codec) == Trace(a, codec) + Trace(b, codec)
    decreases |b|
  {
    if b == [] {
      assert a + b == a;
    } else {
      var b', last := b[..|b| - 1], b[|b| - 1];
      var ab := a + b;
      assert ab[..|ab| - 1] == a + b';
      assert ab[|ab| - 1] == last;
      TraceSplit(a, b', codec);
      SeqAssoc(Trace(a, codec), Trace(b', codec), Dispatch(last, codec));
    }
  }

  /** A read error or an undecodable datagram does not stop the loop: the
      reads after it are processed as if it had not happened. */
  lemma UnreadableSkipped(a: seq<ReadResult>, bad: ReadResult, b: seq<ReadResult>, codec: Codec)
    requires bad.ReadFailed? || codec.unmarshal(bad.data).None?
    ensures Trace(a + [bad] + b, codec) == Trace(a, codec) + Trace(b, codec)
  {
    var ab := a + [bad];
    assert Trace(ab, codec) == Trace(a, codec) by {
      assert ab[..|ab| - 1] == a;
      assert Dispatch(bad, codec) == [];
      assert Trace(a, codec) + [] == Trace(a, codec);
    }
    TraceSplit(ab, b, codec);
  }

  /** The read loop never asks the socket owner to replace the socket: every
      command it sends writes bytes to an address. */
  lemma {:induction false} TraceOnlyWrites(input: seq<ReadResult>, codec: Codec)
    ensures forall m :: m in Commands(Trace(input, codec)) ==>
      m.conn.None? && m.addr.Some? && m.raw.Some?
  {
    if input != [] {
      var prefix := input[..|input| - 1];
      TraceOnlyWrites(prefix, codec);
      DispatchShape(input[|input| - 1], codec);
      CommandsAppend(Trace(prefix, codec), Dispatch(input[|input| - 1], codec));
    }
  }
}
