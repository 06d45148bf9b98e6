/** The adapter as a whole: a constructed adapter whose read loop has
    processed some datagrams, whose socket owner works through the command
    lane, and whose consumer calls `Next`. */
module Pipeline {
  import opened Wrappers
  import opened Semtech
  import opened Messages
  import opened Dispatcher
  import opened SocketOwner
  import opened Facade

  /** The effects of the read loop over `input`, the loop ending when the
      socket is reported closed (see `ListenUntilClosed`). */
  function Listening(input: seq<ReadResult>, codec: Codec): seq<Effect>
  {
    Trace(input[..ReadsUntilClosed(input)], codec)
  }

  /** On a real socket every read after one that reported the socket closed
      fails as well. On such input the loop as written (`Listen`) and the
      loop that ends on close have the same effects, so the results below
      hold of `listen` as written too. */
  lemma ListeningMatchesListen(input: seq<ReadResult>, codec: Codec)
    requires forall i, j :: 0 <= i < j < |input| && input[i] == ReadFailed(Closed) ==> input[j].ReadFailed?
    ensures Trace(input, codec) == Listening(input, codec)
  {
    var k := ReadsUntilClosed(input);
    var rest := input[k..];
    assert input == input[..k] + rest;
    forall j | 0 <= j < |rest|
      ensures rest[j].ReadFailed?
    {
      assert input[k + j] == rest[j];
    }
    NoDatagramsNoEffects(rest, codec);
    TraceSplit(input[..k], rest, codec);
    assert Trace(input[..k], codec) + [] == Trace(input[..k], codec);
  }

  /** The adapter after its read loop has processed `input`: the commands it
      sent wait on the command lane behind those already there, the events
      it sent on the delivery lane. */
  function Listened(a: Adapter, input: seq<ReadResult>, codec: Codec): (a': Adapter)
    requires Ok(Some(a))
    ensures Ok(Some(a'))
  {
    var t := Listening(input, codec);
    Adapter(Some(a.conn.value + Commands(t)), Some(a.next.value + Events(t)))
  }

  /** Because the bound socket is installed before the read loop starts,
      every acknowledgement the loop sends is written through that socket,
      to the address it names, in the order the loop sent them; the socket
      is closed only when the lane ends, exactly once. */
  lemma AcksWrittenOnBoundSocket(c: Conn, input: seq<ReadResult>, codec: Codec, net: Network)
    ensures var a := Listened(NewAdapter(Some(c)).value, input, codec);
      var cmds := Commands(Listening(input, codec));
      var st := Run(Idle, a.conn.value, net);
      && st.active == Some(c)
      && st.closed == []
      && |st.writes| == |cmds|
      && (forall i :: 0 <= i < |cmds| ==>
            cmds[i].raw.Some? &&
            st.writes[i] == Write(c, cmds[i].addr, cmds[i].raw.value, net(c, cmds[i].addr, cmds[i].raw.value)))
      && Shutdown(st).closed == [c]
  {
    var a := Listened(NewAdapter(Some(c)).value, input, codec);
    var cmds := Commands(Listening(input, codec));
    assert a.conn.value == [Install(c)] + cmds;
    forall i | 0 <= i < |cmds|
      ensures cmds[i].conn.None? && cmds[i].raw.Some?
    {
      TraceOnlyWrites(input[..ReadsUntilClosed(input)], codec);
      assert cmds[i] in cmds;
    }
    InstallThenWrite(c, cmds, net);
  }

  /** A lane that installs `c` and then only writes: every write goes
      through `c`, in lane order, and `c` is closed once, at shutdown. */
  lemma InstallThenWrite(c: Conn, cmds: seq<UdpMsg>, net: Network)
    requires forall i :: 0 <= i < |cmds| ==> cmds[i].conn.None? && cmds[i].raw.Some?
    ensures var st := Run(Idle, [Install(c)] + cmds, net);
      && st.active == Some(c)
      && st.closed == []
      && |st.writes| == |cmds|
      && (forall i :: 0 <= i < |cmds| ==>
            st.writes[i] == Write(c, cmds[i].addr, cmds[i].raw.value, net(c, cmds[i].addr, cmds[i].raw.value)))
      && Shutdown(st).closed == [c]
  {
    RunSplit(Idle, [Install(c)], cmds, net);
    var s1 := Run(Idle, [Install(c)], net);
    assert s1 == OwnerState(Some(c), [], []) by {
      assert [Install(c)][..0] == [];
    }
    RunOnFixedConnection(s1, cmds, net, c);
    WritesThroughEveryCommand(c, cmds, net);
  }

  /** The consumer receives the forwarded records in the order the read loop
      forwarded them, one per call of `Next`. */
  lemma UplinksDeliveredInOrder(c: Conn, input: seq<ReadResult>, codec: Codec, convert: RXPK -> Option<CorePacket>, k: nat)
    requires k <= |Events(Listening(input, codec))|
    ensures var a := Listened(NewAdapter(Some(c)).value, input, codec);
      var evs := Events(Listening(input, codec));
      && |Fetch(Some(a), convert, k)| == k
      && forall i :: 0 <= i < k ==> Fetch(Some(a), convert, k)[i] == Converted(evs[i], convert)
  {
    var a := Listened(NewAdapter(Some(c)).value, input, codec);
    assert a.next.value == [] + Events(Listening(input, codec));
    FetchInOrder(Some(a), convert, k);
  }

  /** A PULL_DATA with token 0x1234 is answered with one PULL_ACK written to
      the sender through the bound socket, and delivers nothing. */
  lemma PullDataScenario(
    c: Conn, data: Bytes, sender: Addr, codec: Codec, v: byte, gw: Bytes, pl: Option<Payload>,
    pullAck: Bytes, net: Network, convert: RXPK -> Option<CorePacket>)
    requires codec.unmarshal(data) == Some(Packet(v, [0x12, 0x34], PULL_DATA, gw, pl))
    requires codec.marshal(Packet(VERSION, [0x12, 0x34], PULL_ACK, [], None)) == Some(pullAck)
    ensures var a := Listened(NewAdapter(Some(c)).value, [Datagram(data, sender)], codec);
      && Run(Idle, a.conn.value, net).writes == [Write(c, Some(sender), pullAck, net(c, Some(sender), pullAck))]
      && Next(Some(a), convert).0 == Blocked
  {
    var input := [Datagram(data, sender)];
    assert input[..0] == [];
    var pkt := codec.unmarshal(data).value;
    PullDataAcknowledged(data, sender, codec, pkt, pullAck);
    assert ReadsUntilClosed(input) == 1 by {
      assert input[1..] == [];
    }
    assert input[..1] == input;
    assert Trace(input, codec) == Dispatch(Datagram(data, sender), codec);
    assert Listening(input, codec) == Dispatch(Datagram(data, sender), codec);
    AcksWrittenOnBoundSocket(c, input, codec, net);
  }

  /** A PUSH_DATA with token 0xABCD and two records is answered with one
      PUSH_ACK written to the sender through the bound socket; then two calls
      of `Next` return the two converted records, in order, each with a
      handle bound to the gateway; a third call does not return. */
  lemma PushDataScenario(
    c: Conn, data: Bytes, sender: Addr, codec: Codec, v: byte, gw: Bytes, r1: RXPK, r2: RXPK,
    pushAck: Bytes, net: Network, convert: RXPK -> Option<CorePacket>, p1: CorePacket, p2: CorePacket)
    requires codec.unmarshal(data) == Some(Packet(v, [0xAB, 0xCD], PUSH_DATA, gw, Some(Payload([r1, r2]))))
    requires codec.marshal(Packet(VERSION, [0xAB, 0xCD], PUSH_ACK, [], None)) == Some(pushAck)
    requires convert(r1) == Some(p1) && convert(r2) == Some(p2)
    ensures var a := Listened(NewAdapter(Some(c)).value, [Datagram(data, sender)], codec);
      && Run(Idle, a.conn.value, net).writes == [Write(c, Some(sender), pushAck, net(c, Some(sender), pushAck))]
      && Fetch(Some(a), convert, 3) ==
           [Delivered(p1, AckNacker(Recipient(sender, gw))), Delivered(p2, AckNacker(Recipient(sender, gw))), Blocked]
  {
    var input := [Datagram(data, sender)];
    var pkt := codec.unmarshal(data).value;
    var p := Payload([r1, r2]);
    var to := Recipient(sender, gw);
    var a := Listened(NewAdapter(Some(c)).value, input, codec);
    var es := Dispatch(Datagram(data, sender), codec);
    assert Listening(input, codec) == es by {
      assert ReadsUntilClosed(input) == 1 by {
        assert input[1..] == [];
      }
      assert input[..1] == input;
      assert input[..0] == [];
      assert Trace(input, codec) == [] + es;
    }
    assert Events(es) == [RxpkMsg(r1, to), RxpkMsg(r2, to)] by {
      PushDataAcknowledgedThenForwarded(data, sender, codec, pkt, pushAck, p);
      DeliveriesInOrder(p.rxpk, to);
      EventsAppend([Command(WriteTo(sender, pushAck))], Deliveries(p.rxpk, to));
    }
    assert Run(Idle, a.conn.value, net).writes == [Write(c, Some(sender), pushAck, net(c, Some(sender), pushAck))] by {
      PushDataAcknowledgedThenForwarded(data, sender, codec, pkt, pushAck, p);
      AcksWrittenOnBoundSocket(c, input, codec, net);
    }
    assert a.next.value == [RxpkMsg(r1, to), RxpkMsg(r2, to)];
    FetchTwoThenBlock(Some(a), convert, RxpkMsg(r1, to), RxpkMsg(r2, to));
  }

  /** Two queued events are fetched in order, then `Next` blocks. */
  lemma FetchTwoThenBlock(a: Option<Adapter>, convert: RXPK -> Option<CorePacket>, m1: RxpkMsg, m2: RxpkMsg)
    requires Ok(a) && a.value.next == Some([m1, m2])
    ensures Fetch(a, convert, 3) == [Converted(m1, convert), Converted(m2, convert), Blocked]
  {
    var a1 := Next(a, convert).1;
    assert [m1, m2][1..] == [m2];
    var a2 := Next(a1, convert).1;
    assert [m2][1..] == [];
    var a3 := Next(a2, convert).1;
    assert Fetch(a3, convert, 0) == [];
  }
}
