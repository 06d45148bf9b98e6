/** The socket owner (`monitorConnection`): the one task that replaces,
    writes to and closes the adapter's UDP socket, driven by the commands of
    its lane in arrival order. Closing and writing are recorded in ghost logs. */
module SocketOwner {
  import opened Wrappers
  import opened Semtech
  import opened Messages

  /** One `WriteToUDP` call: the socket used, the destination, the bytes,
      and whether the operating system reported an error. */
  datatype Write = Write(conn: Conn, addr: Option<Addr>, raw: Bytes, failed: bool)

  /** The network's answer to a write: true when `WriteToUDP` fails. The
      answer depends only on the socket, the destination and the bytes, so
      two identical writes get the same answer; a network that fails a write
      once and accepts the same write later is not expressed. */
  type Network = (Conn, Option<Addr>, Bytes) -> bool

  /** The socket owner's active connection, every connection it has closed
      (in closing order) and every write it has attempted (in order). */
  datatype OwnerState = OwnerState(active: Option<Conn>, closed: seq<Conn>, writes: seq<Write>)

  /** Before the first command: no connection, nothing closed or written. */
  const Idle := OwnerState(None, [], [])

  /** The connection `o` holds, as a sequence of zero or one handles. */
  function Live(o: Option<Conn>): seq<Conn>
  {
    if o.Some? then [o.value] else []
  }

  /** One iteration of the `for msg := range a.conn` loop. */
  function Step(s: OwnerState, msg: UdpMsg, net: Network): OwnerState
  {
    var s' := if msg.conn.Some? then OwnerState(msg.conn, s.closed + Live(s.active), s.writes) else s;
    if s'.active.Some? && msg.raw.Some? then
      var c, raw := s'.active.value, msg.raw.value;
      s'.(writes := s'.writes + [Write(c, msg.addr, raw, net(c, msg.addr, raw))])
    else s'
  }

  /** The loop over a finite lane of commands. */
  function Run(s: OwnerState, lane: seq<UdpMsg>, net: Network): OwnerState
  {
    if lane == [] then s else Step(Run(s, lane[..|lane| - 1], net), lane[|lane| - 1], net)
  }

  /** What happens once the lane is closed: the connection still held is
      closed and the task ends, so no connection stays active. */
  function Shutdown(s: OwnerState): OwnerState
  {
    OwnerState(None, s.closed + Live(s.active), s.writes)
  }

  /** The connections a lane installs, in order. */
  function Installed(lane: seq<UdpMsg>): seq<Conn>
  {
    if lane == [] then []
    else Installed(lane[..|lane| - 1]) + (if lane[|lane| - 1].conn.Some? then [lane[|lane| - 1].conn.value] else [])
  }

  /** A write without its outcome. */
  datatype Attempt = Attempt(conn: Conn, addr: Option<Addr>, raw: Bytes)

  function Attempts(ws: seq<Write>): seq<Attempt>
  {
    seq(|ws|, i requires 0 <= i < |ws| => Attempt(ws[i].conn, ws[i].addr, ws[i].raw))
  }

  class Owner {
    /** The local `udpConn` of `monitorConnection`. */
    var active: Option<Conn>
    ghost var closed: seq<Conn>
    ghost var writes: seq<Write>

    ghost function State(): OwnerState
      reads this
    {
      OwnerState(active, closed, writes)
    }

    constructor ()
      ensures State() == Idle
    {
      active := None;
      closed := [];
      writes := [];
    }

    /** Handle one command from the lane. */
    method Process(msg: UdpMsg, net: Network)
      modifies this
      ensures State() == Step(old(State()), msg, net)
    {
      if msg.conn.Some? {
        if active.Some? {
          closed := closed + [active.value];
        }
        active := msg.conn;
      }
      if active.Some? && msg.raw.Some? {
        var failed := net(active.value, msg.addr, msg.raw.value);
        writes := writes + [Write(active.value, msg.addr, msg.raw.value, failed)];
      }
    }

    /** The lane has been closed: close the connection still held. */
    method LaneClosed()
      modifies this
      ensures State() == Shutdown(old(State()))
    {
      if active.Some? {
        closed := closed + [active.value];
      }
      active := None;
    }

    /** `monitorConnection`: process every command of the lane in order,
        then shut down. */
    method MonitorConnection(lane: seq<UdpMsg>, net: Network)
      modifies this
      ensures State() == Shutdown(Run(old(State()), lane, net))
    {
      for i := 0 to |lane|
        invariant State() == Run(old(State()), lane[..i], net)
      {
        assert lane[..i + 1][..i] == lane[..i];
        Process(lane[i], net);
      }
      assert lane[..|lane|] == lane;
      LaneClosed();
    }
  }

  /** Commands are processed one after the other: running `a + b` is running
      `a`, then `b` from where `a` left off. */
  lemma {:induction false} RunSplit(s: OwnerState, a: seq<UdpMsg>, b: seq<UdpMsg>, net: Network)
    ensures Run(s, a + b, net) == Run(Run(s, a, net), b, net)
    decreases |b|
  {
    if b == [] {
      assert a + b == a;
    } else {
      var ab := a + b;
      assert ab[..|ab| - 1] == a + b[..|b| - 1];
      assert ab[|ab| - 1] == b[|b| - 1];
      RunSplit(s, a, b[..|b| - 1], net);
    }
  }

  /** A command carrying a connection closes the previously active one, if
      any, exactly once, and makes the new one active. */
  lemma StepReplacesConnection(s: OwnerState, msg: UdpMsg, net: Network)
    requires msg.conn.Some?
    ensures Step(s, msg, net).active == msg.conn
    ensures Step(s, msg, net).closed == s.closed + Live(s.active)
  {
  }

  /** A command without a connection neither closes nor replaces anything. */
  lemma StepKeepsConnection(s: OwnerState, msg: UdpMsg, net: Network)
    requires msg.conn.None?
    ensures Step(s, msg, net).active == s.active
    ensures Step(s, msg, net).closed == s.closed
  {
  }

  /** A write happens exactly when a connection is active (after any
      replacement) and the command carries bytes; it uses that connection,
      the command's address and bytes. */
  lemma StepWrites(s: OwnerState, msg: UdpMsg, net: Network)
    ensures var s' := Step(s, msg, net);
      && (|s'.writes| == |s.writes| + 1 <==> s'.active.Some? && msg.raw.Some?)
      && (|s'.writes| == |s.writes| <==> !(s'.active.Some? && msg.raw.Some?))
      && s'.writes[..|s.writes|] == s.writes
      && (|s'.writes| > |s.writes| ==>
            var w := s'.writes[|s.writes|];
            Some(w.conn) == s'.active && w.addr == msg.addr && Some(w.raw) == msg.raw)
  {
  }

  /** A failing write changes nothing but its own log entry: the active
      connection and the closed ones are the same whatever the network
      answers. */
  lemma StepIgnoresWriteErrors(s: OwnerState, msg: UdpMsg, net1: Network, net2: Network)
    ensures Step(s, msg, net1).active == Step(s, msg, net2).active
    ensures Step(s, msg, net1).closed == Step(s, msg, net2).closed
    ensures Attempts(Step(s, msg, net1).writes) == Attempts(Step(s, msg, net2).writes)
  {
  }

  /** Over a whole lane, write errors never influence which connection is
      active, which are closed, or which writes are attempted. */
  lemma {:induction false} RunIgnoresWriteErrors(s: OwnerState, lane: seq<UdpMsg>, net1: Network, net2: Network)
    ensures Run(s, lane, net1).active == Run(s, lane, net2).active
    ensures Run(s, lane, net1).closed == Run(s, lane, net2).closed
    ensures Attempts(Run(s, lane, net1).writes) == Attempts(Run(s, lane, net2).writes)
  {
    if lane != [] {
      var prefix, msg := lane[..|lane| - 1], lane[|lane| - 1];
      var r1, r2 := Run(s, prefix, net1), Run(s, prefix, net2);
      RunIgnoresWriteErrors(s, prefix, net1, net2);
      var t1, t2 := Step(r1, msg, net1), Step(r2, msg, net2);
      assert |r1.writes| == |r2.writes| by {
        assert |Attempts(r1.writes)| == |Attempts(r2.writes)|;
      }
      assert |t1.writes| == |t2.writes|;
      forall i | 0 <= i < |t1.writes|
        ensures Attempts(t1.writes)[i] == Attempts(t2.writes)[i]
      {
        if i < |r1.writes| {
          assert t1.writes[i] == r1.writes[i] && t2.writes[i] == r2.writes[i];
          assert Attempts(r1.writes)[i] == Attempts(r2.writes)[i];
        }
      }
    }
  }

  /** The active connection after a lane is the last one the lane installed,
      or the initial one when it installed none. */
  lemma {:induction false} RunActiveIsLastInstalled(s: OwnerState, lane: seq<UdpMsg>, net: Network)
    ensures var inst := Installed(lane);
      Run(s, lane, net).active == if inst == [] then s.active else Some(inst[|inst| - 1])
  {
    if lane != [] {
      RunActiveIsLastInstalled(s, lane[..|lane| - 1], net);
    }
  }

  /** At most one connection is live, and connections are closed in the
      order they were installed: what has been closed followed by what is
      active is what was closed or active before, followed by everything the
      lane installed. */
  lemma {:induction false} RunClosesInInstallOrder(s: OwnerState, lane: seq<UdpMsg>, net: Network)
    ensures Run(s, lane, net).closed + Live(Run(s, lane, net).active)
         == s.closed + Live(s.active) + Installed(lane)
  {
    if lane != [] {
      var prefix, msg := lane[..|lane| - 1], lane[|lane| - 1];
      RunClosesInInstallOrder(s, prefix, net);
      var r := Run(s, prefix, net);
      if msg.conn.Some? {
        calc {
          Step(r, msg, net).closed + Live(Step(r, msg, net).active);
          r.closed + Live(r.active) + [msg.conn.value];
          s.closed + Live(s.active) + Installed(prefix) + [msg.conn.value];
          s.closed + Live(s.active) + Installed(lane);
        }
      }
    }
  }

  /** From an idle owner, once the lane is closed every connection the lane
      installed has been closed exactly once, in installation order, and none
      stays active. */
  lemma ShutdownClosesEveryConnection(lane: seq<UdpMsg>, net: Network)
    ensures Shutdown(Run(Idle, lane, net)).closed == Installed(lane)
    ensures Shutdown(Run(Idle, lane, net)).active == None
  {
    RunClosesInInstallOrder(Idle, lane, net);
    assert Idle.closed + Live(Idle.active) == [];
  }

  /** The writes that commands carrying bytes make through `c`, in lane
      order; commands without bytes make none. */
  function WritesThrough(c: Conn, lane: seq<UdpMsg>, net: Network): seq<Write>
  {
    if lane == [] then []
    else
      var msg := lane[|lane| - 1];
      WritesThrough(c, lane[..|lane| - 1], net) +
        if msg.raw.Some? then [Write(c, msg.addr, msg.raw.value, net(c, msg.addr, msg.raw.value))] else []
  }

  /** While no command replaces the active connection `c`, nothing is
      closed, `c` stays active, and the writes are exactly those of the
      commands carrying bytes, through `c`, in lane order. */
  lemma {:induction false} RunOnFixedConnection(s: OwnerState, lane: seq<UdpMsg>, net: Network, c: Conn)
    requires s.active == Some(c)
    requires forall i :: 0 <= i < |lane| ==> lane[i].conn.None?
    ensures Run(s, lane, net).active == Some(c)
    ensures Run(s, lane, net).closed == s.closed
    ensures Run(s, lane, net).writes == s.writes + WritesThrough(c, lane, net)
  {
    if lane != [] {
      RunOnFixedConnection(s, lane[..|lane| - 1], net, c);
    }
  }

  /** When every command carries bytes, each one is written through `c`:
      one write per command, in lane order. */
  lemma {:induction false} WritesThroughEveryCommand(c: Conn, lane: seq<UdpMsg>, net: Network)
    requires forall i :: 0 <= i < |lane| ==> lane[i].raw.Some?
    ensures |WritesThrough(c, lane, net)| == |lane|
    ensures forall i :: 0 <= i < |lane| ==>
      WritesThrough(c, lane, net)[i] ==
        Write(c, lane[i].addr, lane[i].raw.value, net(c, lane[i].addr, lane[i].raw.value))
  {
    if lane != [] {
      WritesThroughEveryCommand(c, lane[..|lane| - 1], net);
    }
  }
}
