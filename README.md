# Semtech UDP adapter of The Things Network router core, in Dafny

This project models the Semtech packet-forwarder adapter of The Things
Network's router core (`core/adapters/semtech/adapter.go`) and proves
properties of the model. The adapter sits between LoRaWAN gateways that speak
the Semtech UDP packet-forwarder protocol and the router. It has three parts.

- The **inbound dispatcher** (`listen`) reads datagrams, decodes them and acts
  by frame kind. A PULL_DATA is answered with a PULL_ACK. A PUSH_DATA is
  answered with a PUSH_ACK, and each of its RXPK records is forwarded as a
  delivery event. Any other frame is ignored. The acknowledgement rules are
  those of the Semtech packet-forwarder protocol (PROTOCOL.TXT, section 3,
  "Upstream protocol", and section 5, "Downstream protocol").
- The **socket owner** (`monitorConnection`) is the only task that writes
  to or replaces the UDP socket. It replaces, writes to and closes the socket
  as its command lane tells it. The read loop reads from the same socket
  (adapter.go:95) and defers a close that is never reached (adapter.go:91).
- The **façade** is the public side: `NewAdapter`, the initialisation probe
  `ok`, `Next` (fetch the next forwarded record), and `Send` and
  `NextRegistration`, which this adapter does not support.

Goroutines and channels are modelled as FIFO sequences ("lanes"):

- The dispatcher's loop body is a pure function from one read to the channel
  sends it performs (`Dispatcher.Dispatch`). The loop itself is a method over
  a finite run of reads (`Dispatcher.Listen`).
- The socket owner is a class, `SocketOwner.Owner`. Its field `active` is the
  current connection. Ghost logs record the connections it closed and the
  writes it attempted. Its methods are proved against the pure transition
  functions `Step`, `Run` and `Shutdown`.
- The façade works on adapter values. Each of the two lanes is either nil
  (`None`) or a sequence: `conn` holds every command sent to the socket
  owner, in order, starting with the `Install` that `NewAdapter` sends, and
  `next` holds the delivery events not yet received by a consumer.
- The `Pipeline` module connects the three parts: construction, the read
  loop, the socket owner and the consumer.

The `semtech` wire package, `core.ConvertRXPK` and the operating system are
not part of this model. They appear as parameters:

- a `Codec` with two possibly failing functions stands for `semtech.Marshal`
  and `semtech.Unmarshal`;
- a conversion function `RXPK -> Option<CorePacket>` stands for
  `core.ConvertRXPK`;
- the outcome of binding the port is an `Option<Conn>`;
- `Network` answers whether a given write fails, and `ReadResult` is what one
  read returned.

Connections, addresses, RXPK records and router packets are opaque types.
The protocol constants are those of version 1 of the packet-forwarder
protocol: VERSION = 1, PUSH_DATA = 0, PUSH_ACK = 1, PULL_DATA = 2,
PULL_ACK = 4.

Two details of the code matter for the contracts:

- The acknowledgement's version is the constant VERSION. It is not the
  version of the incoming frame (adapter.go:111, 123; `Dispatcher.VersionIgnored`).
- When the PUSH_ACK fails to marshal, the `continue` at adapter.go:127-130
  also skips record forwarding, despite the branch's comment
  `PUSH_DATA -> Transfer all RXPK to the component` (adapter.go:121). In the
  model, too, nothing is emitted for that datagram
  (`Dispatcher.AckMarshalFailureDropsDatagram`).

The functions that carry the behaviour, and the lines they model:

- `Dispatcher.Dispatch` is one iteration of the read loop (adapter.go:95-147).
- `SocketOwner.Step` is one iteration of the socket owner's loop
  (adapter.go:155-167).
- `Facade.Ok` is `ok` (adapter.go:61-63).
- `Facade.Next` is `Next` (adapter.go:71-82).

Their behaviour is stated by the lemmas in the table below.

## Model

| member | source | states |
|---|---|---|
| `Dispatcher.Listen` | core/adapters/semtech/adapter.go:90-149 | The read loop as written: it performs every read it is offered, even those that report the socket closed. Its effects are each read's dispatch, concatenated in read order. |
| `Dispatcher.ReadsUntilClosed` | core/adapters/semtech/adapter.go:55 | How many reads a loop that ends on socket close performs: up to and including the first read that reports the socket closed, or all of them. |
| `Dispatcher.ListenUntilClosed` | core/adapters/semtech/adapter.go:90-99 | The corrected read loop. It stops at exactly the first closed-socket error, and its effects are those of the reads before that point. |
| `Dispatcher.ClosedSocketSpins` | core/adapters/semtech/adapter.go:93-99 | On a closed socket every read fails. The loop as written keeps reading all n times; the corrected loop stops after one read. |
| `Dispatcher.NoDatagramsNoEffects` | core/adapters/semtech/adapter.go:96-99 | A run of failed reads sends nothing on either lane. |
| `Dispatcher.DeliveriesInOrder` | core/adapters/semtech/adapter.go:138-143 | Forwarding a payload gives exactly one event per RXPK, in payload order, each addressed to the given recipient, and no command. |
| `Dispatcher.PullDataAcknowledged` | core/adapters/semtech/adapter.go:109-120 | Take a decoded PULL_DATA whose ACK marshals. It yields exactly one command: the marshalled {VERSION, token, PULL_ACK} frame with no payload, written to the sender. It yields no event. |
| `Dispatcher.PushDataAcknowledgedThenForwarded` | core/adapters/semtech/adapter.go:121-143 | Take a decoded PUSH_DATA whose ACK marshals and whose payload is present. It yields the PUSH_ACK to the sender first, then one event per RXPK in payload order, each addressed to Recipient{sender, gateway id}. It yields exactly 1 + N effects. |
| `Dispatcher.PushDataWithoutRecords` | core/adapters/semtech/adapter.go:132-143 | A PUSH_DATA with a nil payload, or with an empty RXPK array, is acknowledged and forwards nothing. |
| `Dispatcher.OtherIdentifiersIgnored` | core/adapters/semtech/adapter.go:144-146 | A frame that is neither PULL_DATA nor PUSH_DATA yields no command and no event. |
| `Dispatcher.UnreadableIgnored` | core/adapters/semtech/adapter.go:95-106 | A read error or an unmarshal failure yields no command and no event. |
| `Dispatcher.AckMarshalFailureDropsDatagram` | core/adapters/semtech/adapter.go:110-130 | If the PULL_ACK or PUSH_ACK fails to marshal, nothing is emitted for that datagram. For a PUSH_DATA this includes no forwarded record. |
| `Dispatcher.VersionIgnored` | core/adapters/semtech/adapter.go:110-126 | Two frames that differ only in version produce identical effects: the ACK carries VERSION, never the incoming version. |
| `Dispatcher.PushDataShape` | core/adapters/semtech/adapter.go:121-143 | An acknowledged PUSH_DATA emits exactly its PUSH_ACK as its one command, first. Everything after it is an event addressed to the sender and the frame's gateway id. |
| `Dispatcher.DispatchShape` | core/adapters/semtech/adapter.go:108-147 | This holds for every read. Exactly one command is emitted if the datagram is acknowledged (decoded, PULL_DATA or PUSH_DATA, and its ACK marshals), and none otherwise. The command writes to the sender and never replaces the socket. The ACK precedes every event. Every event carries the sender's address and the gateway id. |
| `Dispatcher.TraceSplit` | core/adapters/semtech/adapter.go:93-148 | Reads are processed independently. The effects of a + b are those of a followed by those of b. |
| `Dispatcher.UnreadableSkipped` | core/adapters/semtech/adapter.go:95-106 | A read error or an undecodable datagram does not stop the loop. Later reads are processed as if it had not occurred. |
| `Dispatcher.TraceOnlyWrites` | core/adapters/semtech/adapter.go:120-132 | Every command the read loop sends is a write of bytes to an address. None replaces the socket. |
| `SocketOwner.Owner.constructor` | core/adapters/semtech/adapter.go:153 | The owner starts with no active connection and empty logs. |
| `SocketOwner.Owner.Process` | core/adapters/semtech/adapter.go:154-167 | One command moves the owner's whole state by one `Step`: a possible replacement with a close, then a possible write. |
| `SocketOwner.Owner.LaneClosed` | core/adapters/semtech/adapter.go:169-171 | When the lane ends, the connection still held, if any, is closed, and none stays active. |
| `SocketOwner.Owner.MonitorConnection` | core/adapters/semtech/adapter.go:152-172 | The owner processes the whole lane in order, then shuts down. |
| `SocketOwner.RunSplit` | core/adapters/semtech/adapter.go:154-168 | Commands are processed one after another. Running a + b is running a, then b from the resulting state. |
| `SocketOwner.StepReplacesConnection` | core/adapters/semtech/adapter.go:155-161 | A command carrying a connection closes the previously active one, if any, exactly once. The new connection becomes active. |
| `SocketOwner.StepKeepsConnection` | core/adapters/semtech/adapter.go:155-161 | A command without a connection neither closes nor replaces anything. |
| `SocketOwner.StepWrites` | core/adapters/semtech/adapter.go:163-167 | A write is attempted exactly when a connection is active and the command carries bytes. It uses the current active connection and the command's address and bytes. Earlier writes are untouched. |
| `SocketOwner.StepIgnoresWriteErrors` | core/adapters/semtech/adapter.go:164-166 | Whatever the network answers, the active connection, the closed connections and the attempted writes are the same. |
| `SocketOwner.RunIgnoresWriteErrors` | core/adapters/semtech/adapter.go:154-168 | The same holds over a whole lane: write errors never affect socket state. |
| `SocketOwner.RunActiveIsLastInstalled` | core/adapters/semtech/adapter.go:154-161 | After a lane, the active connection is the last one the lane installed. If it installed none, it is the initial one. |
| `SocketOwner.RunClosesInInstallOrder` | core/adapters/semtech/adapter.go:154-161 | At most one connection is live. Closed connections followed by the active one equal the earlier ones followed by everything the lane installed, in order. |
| `SocketOwner.ShutdownClosesEveryConnection` | core/adapters/semtech/adapter.go:152-171 | Start from an idle owner. Once the lane ends, every installed connection has been closed exactly once, in installation order, and none is active. |
| `SocketOwner.RunOnFixedConnection` | core/adapters/semtech/adapter.go:154-167 | While no command replaces the active connection c, c stays active and nothing is closed. The writes are exactly those of the commands that carry bytes, each through c to its address, in lane order. Commands without bytes are skipped. |
| `SocketOwner.WritesThroughEveryCommand` | core/adapters/semtech/adapter.go:163-167 | On a lane in which every command carries bytes, there is one write per command, through c, to that command's address, in lane order. |
| `Facade.NewAdapter` | core/adapters/semtech/adapter.go:38-58 | A failed bind gives ErrInvalidPort, and only a failed bind does. On success both lanes exist and the adapter is initialised. The bound socket is the first command on the owner's lane, before any datagram is read. The delivery lane is empty. |
| `Facade.Send` | core/adapters/semtech/adapter.go:65-68 | Always fails with ErrNotSupported. |
| `Facade.NextRegistration` | core/adapters/semtech/adapter.go:84-87 | Always fails with ErrNotSupported. |
| `Facade.NextNotInitialized` | core/adapters/semtech/adapter.go:61-74 | On a nil adapter or one with a nil lane, `ok` is false. `Next` then fails with ErrNotInitialized and receives nothing. |
| `Facade.ZeroValueNotInitialized` | core/adapters/semtech/adapter.go:60-63 | The nil adapter and the zero-value adapter are not initialised. Every adapter NewAdapter returns is. |
| `Facade.NextReceivesOldest` | core/adapters/semtech/adapter.go:75-81 | `Next` receives the oldest queued event. A failed conversion gives ErrInvalidPacket, and the event is still consumed. Otherwise the packet comes with a handle bound to the event's recipient. |
| `Facade.UnsupportedBeforeInitialized` | core/adapters/semtech/adapter.go:65-87 | On an adapter that is not initialised, Send and NextRegistration still report ErrNotSupported, while Next reports ErrNotInitialized. |
| `Facade.FetchInOrder` | core/adapters/semtech/adapter.go:75-81 | Successive calls of `Next` hand out the queued events in FIFO order, one per call, each converted on its own. |
| `Facade.FetchBlocksWhenDrained` | core/adapters/semtech/adapter.go:75 | Once the queued events are used up, the next call of `Next` does not return. |
| `Pipeline.Listened` | core/adapters/semtech/adapter.go:120-142 | The read loop's sends keep both lanes of an initialised adapter live. |
| `Pipeline.ListeningMatchesListen` | core/adapters/semtech/adapter.go:93-148 | On a real socket, every read after one that reported the socket closed also fails. On such input, the loop as written and the loop that ends on close have the same effects, so the pipeline results hold of the code as written. |
| `Pipeline.AcksWrittenOnBoundSocket` | core/adapters/semtech/adapter.go:53-55 | The bound socket is installed before the read loop starts. So every ACK the loop sends is written through that socket, to the address it names, in send order. Nothing is closed until the lane ends, and then the socket is closed exactly once. |
| `Pipeline.InstallThenWrite` | core/adapters/semtech/adapter.go:152-171 | A lane that installs c and then only writes. The socket owner ends with c active and nothing closed, with one write per command through c, in lane order. At shutdown c is closed exactly once. |
| `Pipeline.UplinksDeliveredInOrder` | core/adapters/semtech/adapter.go:138-143 | The consumer receives the forwarded records in the order the read loop forwarded them, one per `Next`. |
| `Pipeline.PullDataScenario` | core/adapters/semtech/adapter.go:109-120 | A PULL_DATA with token 0x1234 is answered with one PULL_ACK, written to the sender through the bound socket. Nothing is delivered. |
| `Pipeline.PushDataScenario` | core/adapters/semtech/adapter.go:121-143 | A PUSH_DATA with token 0xABCD and two records is answered with one PUSH_ACK, written to the sender through the bound socket. Two calls of `Next` return both converted records in order, each with a handle bound to the gateway. A third call does not return. |

## Findings

| source | as written | input that shows it | evidently intended | confidence | as-written member | corrected member |
|---|---|---|---|---|---|---|
| core/adapters/semtech/adapter.go:93-99 | The read loop is an unconditional `for`, and every read error, including "use of closed network connection", is handled with `continue`. | The listening socket is closed (by the socket owner, on replacement or when its lane ends). Every later read fails at once, and the loop spins on them forever, logging each one. Nothing in adapter.go triggers this: `NewAdapter` installs exactly one socket and the command lane is never closed. The spin stays latent unless code outside the file replaces or closes the socket. | The loop ends when the connection is closed, as the comment at adapter.go:55 says and the `defer conn.Close()` at adapter.go:91 presumes. | medium; not executed | `Dispatcher.Listen`, `Dispatcher.ClosedSocketSpins` | `Dispatcher.ListenUntilClosed` |

The composition lemmas in `Pipeline` use the corrected loop
(`Pipeline.Listening`). `Pipeline.ListeningMatchesListen` shows that on a real
socket its effects are those of the loop as written.

## Left out

- Goroutines and blocking channel semantics are not modelled (adapter.go:53-55, 75, 120, 132, 139). Lanes are sequences, so there is no backpressure, no interleaving of the two tasks, and no concurrent consumers.
- A blocking receive in `Next` on an empty lane is the outcome `Blocked`, which leaves the adapter unchanged.
- Real UDP I/O is not modelled: `net.ResolveUDPAddr`, `ListenUDP`, `ReadFromUDP`, `WriteToUDP` and `Close`. Binding is an input `Option<Conn>`, a read is a `ReadResult`, and a write's outcome comes from the `Network` parameter. Closing is a ghost log entry.
- `Facade.NewAdapter`: the error of `net.ResolveUDPAddr` (adapter.go:47) is overwritten at adapter.go:48 and never checked. A port that does not resolve, such as 70000, leaves the address nil. `ListenUDP` then binds an arbitrary free port, and `NewAdapter` succeeds instead of returning ErrInvalidPort. The model takes only the outcome of `ListenUDP`, so it does not capture this.
- `SocketOwner.RunIgnoresWriteErrors`: `Network` is a function of the socket, the destination and the bytes, so identical writes always get the same answer. A network that fails a write once and accepts the same bytes later is not covered, although nothing in `Step` other than the `failed` flag reads the answer.
- The 128-byte receive buffer is not modelled (adapter.go:94-95): a datagram is the bytes the read returned, with no truncation. In the source, a longer datagram is cut to 128 bytes before `Unmarshal` sees it. A PUSH_DATA whose JSON payload carries even one RXPK is likely to exceed that, fail to unmarshal, and get neither a PUSH_ACK nor forwarding. The model cannot show this, because the codec is uninterpreted.
- `semtech.Marshal`, `semtech.Unmarshal` and `core.ConvertRXPK` are uninterpreted, possibly failing function parameters. The semtech package and core are not part of this model. Only the RXPK array of a payload is kept, not its stat and txpk parts.
- Logging (`Logf`/`Log` and the `MultiLogger` built in `NewAdapter`) is not modelled.
- `semtechAckNacker` is not defined in adapter.go. `AckNacker` keeps only the recipient it is bound to; the reference to the command lane and its Ack/Nack behaviour are not modelled.
- The deferred `conn.Close()` of `listen` (adapter.go:91) is not modelled: only the socket owner's closes are recorded.
- `SocketOwner.Owner.LaneClosed`: after the lane ends, the model's `active` is `None`, whereas the Go local variable still points to the closed socket. The goroutine and that variable end at the same moment.
