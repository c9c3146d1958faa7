# A model of the Pocket Relay client's tunnels and local servers

The client lets a game talk to a Pocket Relay server. Its hardest part is the tunnel: datagrams from
the local game are carried over one server connection, and back, by five cooperating tasks written as
hand-made poll state machines. This project models these tasks, the wire formats below them and the
small servers beside them, and proves what they keep over whole runs. `dafny verify dfyconfig.toml`
checks everything.

## What is modelled

**The wire formats** (`Framing`, `TunnelCodec`, `FireCodec`). Both codecs are incremental decoders
that keep a parsed header between calls. `Framing` describes that scheme once, with the header size,
the number of bytes the decoder waits for, and the two directions of the header as parameters; chunk
independence, byte conservation and the exact round-trip condition are proved for every such format
and then used for tunnel frames and Fire frames. The codec classes change their buffers in place and
are proved to do what the scheme says.

**The TCP tunnel** (`Channels`, `FramedIo`, `TunnelTask`, `SocketTask`, `TunnelSystem`,
`TunnelGuarantees`, `TunnelShutdown`). The tunnel and its four sockets form one step machine. A step is
one call of a poll function by one task, and carries the answer of the outside world (ready, failed or
pending; how many bytes were taken; which reads succeed), so a run is any finite sequence of steps and
a statement about every run covers every interleaving and every environment. Histories record what
was received, started, confirmed and sent. `Phase` says where a task is within a poll; a failed
`expect` or a `panic!` is the phase `Crashed`.

**The same tasks as objects** (`TunnelObjects`, `SocketObjects`, `UdpObjects`, `Deployment`). `Tunnel`,
`Socket`, `UdpTunnel`, `Framed` and `Channel` are classes with the source's fields; their methods have
the source's branches and loops. Each is proved to be a run of the step machine, and each loop to end.
`Deployment` wires a tunnel and its sockets together as the source does; `RunTasks` polls them in any
order and is proved to be a run of the system, so what holds for every run holds for the objects.

**The UDP tunnel** (`UdpTask`, `UdpGuarantees`, `UdpSystem`). A sibling with different behaviour: a keep-alive
replaces what the writer holds, and a message leaves the state before the socket has accepted it. Its
conservation law therefore has loss terms. Its sockets are the TCP tunnel's sockets up to how a payload
is wrapped: `UdpSystem` puts tunnel and sockets together, with each socket seeing the channels through
that wrapping.

**The small servers** (`Redirector`, `Retry`, `Telemetry`): the redirector's request loop over a byte
stream, the reconnect and handshake loops, and the telemetry decoder.

## Where the code does not do what one might expect

These are modelled as the code has them, with the exact condition under which the expectation holds.

- A tunnel header has three bytes, but the decoder waits for five (`src/servers/tunnel.rs:558`). A last
  frame with a payload of no or one byte, such as a single keep-alive of the format documented at
  `src/servers/tunnel.rs:517-519`, stays unread until more bytes arrive: `TunnelCodecs.TunnelRoundTripIff`
  and `TunnelCodecs.LoneKeepAliveIsHeld`.
- Lengths are cast to 16 bits (`src/servers/tunnel.rs:591`, `src/fire.rs:177`), so longer payloads do not
  come back. Datagrams are shorter: their own length field has 16 bits ("Fields" in RFC 768).
- The UDP writer takes its message before a send that may be pending (`src/servers/udp_tunnel.rs:354-361`).
  The message is then lost, and the next poll of a ready socket panics: `UdpGuarantees.HoleEnteredIff`,
  `HoleIsFatal`, `PanicsIff` and the concrete run of `PendingAfterReadyPanics`.
- The UDP keep-alive reply overwrites a message that waits to be sent (`src/servers/udp_tunnel.rs:437`):
  `UdpGuarantees.LossIff`, `NothingLostIff` and the concrete run of `OverwriteLoses`.
- A socket whose tunnel has ended still delivers what it was handed, unless a datagram arrives first:
  it cannot pass that on and stops (`src/servers/tunnel.rs:450-455`): `TunnelShutdown.SocketCascade` and
  the concrete runs of `CascadeWitness` and `InterruptionLoses`.
- The UDP liveness check computes the time from the last keep-alive to now in the wrong direction
  (`src/servers/udp_tunnel.rs:389`); with a monotone clock and a difference that stops at zero it never
  fires: `UdpGuarantees.CheckNeverFails` and `SilenceGoesUnnoticed`.
- A client that closes within a frame is a read error for the redirector, but not if exactly the frame's header had
  arrived, since the decoder has then taken it from the buffer (`src/fire.rs:133-152`): `Redirector.CleanEnd`.
- `length - 12` (`src/servers/telemetry.rs:66`) overflows for shorter lengths: `Telemetry.OverflowIff`.

## Model

| member | source | states |
|---|---|---|
| Framing.DrainSplit | src/servers/tunnel.rs:553-579 | Draining the decoder, adding input and draining again gives the same messages and final decoder as draining the joined input, from any decoder state. |
| Framing.FeedIsDrain | src/fire.rs:123-169 | Cutting the input into any chunks changes neither the messages nor the final decoder. |
| Framing.DrainConserves | src/servers/tunnel.rs:553-594 | For arbitrary bytes and any decoder state: the messages given out, re-encoded, followed by the bytes still held are exactly the bytes held before. |
| Framing.DrainEncoded | src/servers/tunnel.rs:556-594 | Decoding encoded messages gives the list back; a last frame below the threshold stays in the buffer, untouched. |
| Framing.RoundTripIff | src/servers/tunnel.rs:556-594 | A list survives encoding and decoding if and only if every message does by itself and the last frame reaches the threshold. |
| TunnelCodecs.TunnelStreamConserved | src/servers/tunnel.rs:553-594 | Whatever bytes arrive in whatever chunks: messages re-encoded, the header waited on and the unread bytes are the bytes fed in, independent of the chunks; every decoded payload fits 16 bits. |
| TunnelCodecs.TunnelRoundTrip | src/servers/tunnel.rs:556-594 | For fitting payloads the whole list comes back, or all but a last message shorter than two bytes, whose frame alone stays buffered with no header taken. |
| TunnelCodecs.TunnelRoundTripIff | src/servers/tunnel.rs:558-591 | The exact condition: all payloads below 65536 bytes and the last of at least two. |
| TunnelCodecs.LoneKeepAliveIsHeld | src/servers/tunnel.rs:515-560 | A keep-alive as the documentation describes it, alone on the wire, decodes to nothing. |
| TunnelCodecs.TunnelLayout | src/servers/tunnel.rs:497-562 | Byte by byte: index, length with the high byte first and as many payload bytes as it says decode to exactly that message, completely. |
| TunnelCodecs.EncodedLayout | src/servers/tunnel.rs:590-592 | Byte by byte: what is written is the index, the payload's length modulo 65536 with the high byte first, and the payload. |
| TunnelCodecs.TunnelCodec.Decode | src/servers/tunnel.rs:553-579 | The in-place decoder, `partial` and buffer together, does one decoding step of the tunnel format. |
| TunnelCodecs.TunnelCodec.Encode | src/servers/tunnel.rs:585-594 | Appends exactly the frame of the message to the buffer. |
| Channels.Channel.Send | src/servers/tunnel.rs:253 | Appends to the queue; once the receiver is gone it fails and changes nothing. |
| Channels.Channel.PollRecv | src/servers/tunnel.rs:170-177 | Takes the oldest message; gives `None` only if the queue is empty and no sender is left. |
| FramedIo.Framed.PollReady | src/servers/tunnel.rs:181 | May move a front part of the write buffer to the transport, and records the outcome. |
| FramedIo.Framed.StartSend | src/servers/tunnel.rs:187-190 | Callable only directly after a successful `poll_ready`; appends the frame to the write buffer. |
| FramedIo.Framed.PollFlush | src/servers/tunnel.rs:200 | On success the write buffer has gone out completely and every started message counts as confirmed. |
| FramedIo.Framed.PollNext | src/servers/tunnel.rs:220 | The read loop over decoder and transport: reads only while nothing can be decoded. |
| FramedIo.PollNextFaithful | src/servers/tunnel.rs:218-223 | The messages read so far and the reader's remainder are always what decoding all received bytes at once gives; a read call gives at most one message and does not touch the writing side. |
| TunnelTask.TunnelStepOk | src/servers/tunnel.rs:166-285 | Every step of the tunnel, with any answers and including the write inside a read, keeps the whole invariant: writer state, bytes, conservation, reply count, pool. |
| TunnelObjects.Tunnel.PollWriteState | src/servers/tunnel.rs:166-211 | The object's write call is the machine's, for every state and answer. |
| TunnelObjects.Tunnel.PollReadState | src/servers/tunnel.rs:218-257 | The same for the read call, with its re-entry into the write call. |
| TunnelObjects.Tunnel.Deliver | src/servers/tunnel.rs:248-254 | Only the channel with the message's index gets it, and none if there is no such index; the channel may be closed. |
| TunnelObjects.Tunnel.WriteLoop | src/servers/tunnel.rs:266-274 | The write loop ends after at most three calls a queued message and a constant, and is the run with exactly the answers given. Blocked although every call was accepted, it has drained its channel and flushed; with all senders gone it ends the tunnel instead. |
| TunnelObjects.Tunnel.ReadLoop | src/servers/tunnel.rs:276-282 | The read loop ends once no read succeeds any more, is the run with exactly the answers given and keeps the invariant. |
| TunnelObjects.Tunnel.Poll | src/servers/tunnel.rs:263-285 | One poll is the run with exactly the answers given: the write steps, then the read steps if the writer was blocked; done exactly if the tunnel stopped. With every write call accepted the write loop drains the channel, and ends the tunnel, with everything flushed, if all senders are gone. |
| TunnelObjects.Tunnel.Drop | src/servers/tunnel.rs:111-119 | Ending the future closes its receiver and its end of each pool channel. |
| SocketTask.SocketStepOk | src/servers/tunnel.rs:395-485 | Every step of a socket keeps: it took exactly what its channel accepted, in order, and sent bytes plus unsent rest are the payloads taken. |
| SocketTask.SocketWriteLaw | src/servers/tunnel.rs:395-427 | Exactly when a socket's write call fails, closes, is blocked or goes on, for every state and answer, and what it sent and still holds then. |
| SocketTask.SocketReadLaw | src/servers/tunnel.rs:434-456 | Exactly when a socket's read call ends it, is blocked or goes on; a datagram goes to the tunnel's queue with the socket's index and its own bytes, up to 65536 of them. |
| SocketObjects.Socket.PollWriteState | src/servers/tunnel.rs:395-427 | The object's write call is the machine's, with partial sends. |
| SocketObjects.Socket.PollReadState | src/servers/tunnel.rs:434-456 | A datagram is sent on with the socket's index; stops if the tunnel is gone. |
| SocketObjects.Socket.WriteLoop | src/servers/tunnel.rs:465-473 | For any answers the run with exactly these; no more calls than one a message and one a byte, and two, and one for each send that takes nothing of a message that is not empty. With the tunnel gone, more accepted sends than that end the socket. |
| SocketObjects.Socket.ReadLoop | src/servers/tunnel.rs:475-481 | One call a datagram and one more; the run with exactly the answers given. |
| SocketObjects.Socket.Poll | src/servers/tunnel.rs:462-484 | One poll of a socket is the run with exactly the answers given. With the tunnel gone and more accepted sends than there is work and stalls, it ends the socket with everything sent, empty messages included. |
| SocketObjects.NoStalls | src/servers/tunnel.rs:408-421 | A run whose sends all take something has no stalls. |
| TunnelSystem.SystemStepOk | src/servers/tunnel.rs:160-485 | Any step of any of the five tasks keeps the invariant of all of them, channels included. |
| TunnelSystem.Reachable | src/servers/tunnel.rs:160-485 | The invariant holds after every run from the initial state. |
| TunnelSystem.InvitedCounted | src/servers/tunnel.rs:225-246 | Over any run the reply counter rises by exactly the number of reads that give a keep-alive while the writer waits. |
| TunnelGuarantees.NeverPanics | src/servers/tunnel.rs:166-246 | In every run: no panic or failed `expect` in any task, the running writer is in Recv, Flush or Write with a message, and every `start_send` directly follows a successful `poll_ready`. |
| TunnelGuarantees.TunnelWriteLaw | src/servers/tunnel.rs:166-211 | Exactly when a write call ends the tunnel (a failed connection while writing or flushing; an empty channel without senders), is blocked or goes on, and to which state. |
| TunnelGuarantees.PollNextIs | src/servers/tunnel.rs:220 | Polling the connection gives the first message of all that is buffered and read, the end exactly if there is none and it is closed, and otherwise nothing yet. |
| TunnelGuarantees.TunnelReadLaw | src/servers/tunnel.rs:218-257 | Exactly when a read call ends the tunnel (closed with nothing left to decode; a keep-alive of index 255 whose reply fails), is blocked or goes on, and the writer's state then. |
| TunnelGuarantees.OutboundConservation | src/servers/tunnel.rs:166-257 | While the tunnel runs, the datagrams socket i received are, in order, its messages already started, the one held, those queued; nothing is lost, doubled or reordered. |
| TunnelGuarantees.OutboundOrder | src/servers/tunnel.rs:434-456 | Even after the end, what was started for a socket is a prefix of what it received. |
| TunnelGuarantees.TaggedAre | src/servers/tunnel.rs:434-447 | The messages a socket makes are its datagrams one for one, byte by byte, with its index, cut only after 65536 bytes. |
| TunnelGuarantees.WireRefinement | src/servers/tunnel.rs:179-206 | The bytes produced, cut in any way, decode to exactly the started messages if and only if all fit and the last has at least two bytes; if they fit, a short last one is all that is missing. |
| TunnelGuarantees.WirePrefix | src/servers/tunnel.rs:198-206 | The wire holds a prefix of the started messages' encoding, all of it unless flushing; the peer decodes nothing else. |
| TunnelGuarantees.OutboundEndToEnd | src/servers/tunnel.rs:166-206 | From datagrams to the peer: what the peer decodes for socket i is a prefix of its very datagrams, and all of them up to a short last message when the tunnel waits with nothing queued. |
| TunnelGuarantees.InboundRefinement | src/servers/tunnel.rs:218-257 | While socket i runs, sent bytes, unsent rest and queued payloads are the payloads of the messages read with index i; messages are taken whole and in order. |
| TunnelGuarantees.EverythingDecoded | src/servers/tunnel.rs:276-282 | Outside its read loop, and when it has ended because the connection or the channel did, the tunnel has decoded every message in the bytes it received, however they were cut. |
| TunnelGuarantees.InboundEndToEnd | src/servers/tunnel.rs:395-427 | From received bytes to a running socket, in the same states: sent, unsent and queued bytes are its payloads in the received byte stream. |
| TunnelGuarantees.KeepAliveAccounting | src/servers/tunnel.rs:225-246 | Replies placed are as many as the keep-alives read while the writer waited, never more than those read, empty with index 255; everything else started came from a socket. |
| TunnelGuarantees.AnsweredIff | src/servers/tunnel.rs:225-246 | Handling a message places exactly one reply if it is a keep-alive, the writer waits and the connection does not fail, and none otherwise; it stops the tunnel exactly if that reply's write fails. |
| TunnelGuarantees.FlushDiscipline | src/servers/tunnel.rs:168-206 | At most one started message is unconfirmed, exactly while flushing; a tunnel stopped by its closed channel has every message ever enqueued on the wire and flushed. |
| TunnelShutdown.SocketStepWork | src/servers/tunnel.rs:395-427 | With no sender left, each write call that takes a message or a byte lowers the socket's remaining work. |
| TunnelShutdown.CascadeBound | src/servers/tunnel.rs:459-485 | Over any run after the tunnel's end: a socket still running was served no more often than its work at the start allows, and one that has stopped stays so. |
| TunnelShutdown.SocketStopsIff | src/servers/tunnel.rs:397-455 | A socket that stops has taken and sent everything in its channel if and only if the step was no socket error and no datagram with something left. |
| TunnelShutdown.SocketEnds | src/servers/tunnel.rs:459-485 | A run after the tunnel's end that serves a socket more often than its work (a call that gets through, or that finds it stopped) has ended it. |
| TunnelShutdown.SocketCascade | src/servers/tunnel.rs:397-455 | After the tunnel's end, in every run: a stopped socket sent every message the tunnel read for it, whole, if and only if nothing interrupted it with something left; without errors and datagrams it stops only because its channel closed. |
| TunnelShutdown.ShutdownEndToEnd | src/servers/tunnel.rs:218-485 | From the bytes the tunnel received to the socket's end: if the connection or the channel ended the tunnel, a stopped socket sent every message with its index in those bytes if and only if nothing interrupted it. |
| TunnelShutdown.CascadeWitness | src/servers/tunnel.rs:248-282 | For any payload of two bytes or more a run from the start: the tunnel reads it and ends, the socket sends it whole and ends. |
| TunnelShutdown.InterruptionLoses | src/servers/tunnel.rs:434-456 | For any such payload and any datagram a run from the start that fails: the socket waits to send, receives the datagram, stops and has sent nothing. |
| TunnelShutdown.TunnelStepWork | src/servers/tunnel.rs:166-246 | With no sender left, each step lowers the tunnel's remaining work, up to two calls for a keep-alive reply. |
| TunnelShutdown.DrainBound | src/servers/tunnel.rs:263-285 | Over any run after the sockets' end, a tunnel still running was served no more often than its queue and the replies placed meanwhile allow. |
| TunnelShutdown.TunnelEnds | src/servers/tunnel.rs:225-282 | A run after the sockets' end that serves the tunnel more often than its work, and twice more for each keep-alive it answers meanwhile, has ended it. |
| TunnelShutdown.TunnelCascade | src/servers/tunnel.rs:168-206 | After the sockets' end, a tunnel that has stopped without its connection failing or ending has every message it was ever given on the wire, and flushed. |
| Deployment.AllocatePool | src/servers/tunnel.rs:344-356 | Four sockets with indices 0 to 3, new, with distinct new channels of their own and the shared sender, exactly if every socket could be bound and connected; otherwise the error of one that could not, and the channels made lose their sender. |
| Deployment.Assemble | src/servers/tunnel.rs:110-116 | The tunnel object made of the channel and the pool is wired to its sockets and in the initial state. |
| Deployment.CreateTunnel | src/servers/tunnel.rs:95-120 | Succeeds exactly if the server connection and all sockets do; then all objects are new, wired to each other and in the system's initial state. Otherwise the sockets started so far find both their channels closed. |
| Deployment.TunnelRunInSystem | src/servers/tunnel.rs:263-285 | A run of the tunnel's steps, as its poll makes one, is a run of the system. |
| Deployment.SocketRunInSystem | src/servers/tunnel.rs:462-484 | The same for each socket. |
| Deployment.PollTunnel | src/servers/tunnel.rs:263-285 | Polling the deployed tunnel moves the state of all objects by the run with exactly the answers given, keeps wiring and invariant, and ends it, flushed, once the sockets are gone and all writes accepted. |
| Deployment.PollSocket | src/servers/tunnel.rs:462-484 | Polling a deployed socket moves the state of all objects by the run with exactly the answers given, keeps wiring and invariant, and ends it, everything sent, once the tunnel is gone and enough sends are accepted. |
| Deployment.Turn | src/servers/tunnel.rs:260-485 | One choice of a schedule is served: the whole poll of a waiting task, until it waits again or has completed. |
| Deployment.RunTasks | src/servers/tunnel.rs:260-485 | For every schedule of polls and all answers, the objects end in the state after the run made of exactly these polls, one after the other, none for a task that has completed; so every statement on runs applies to them. |
| Deployment.RunTunnel | src/servers/tunnel.rs:95-120 | Creating a tunnel and running its tasks by any schedule is the run of these polls. |
| UdpTask.UdpStepOk | src/servers/udp_tunnel.rs:338-485 | Every step of the UDP tunnel, its senders and the clock keeps the invariant: order of the queue, one fate a message, bounded losses, pool, clock. |
| UdpTask.UdpReachable | src/servers/udp_tunnel.rs:338-485 | The invariant holds after every run. |
| UdpGuarantees.UdpWriteLaw | src/servers/udp_tunnel.rs:338-375 | Exactly when a write call closes, fails or panics the UDP tunnel, is blocked or goes on, for every writer state and answer, and the state then. |
| UdpGuarantees.UdpReadLaw | src/servers/udp_tunnel.rs:382-456 | Exactly when a read call ends or panics the UDP tunnel (failed read or malformed packet whatever the writer holds; a keep-alive whose reply fails), what the writer then holds, what was sent, and that only a keep-alive sets the time. |
| UdpGuarantees.UdpAccounting | src/servers/udp_tunnel.rs:338-448 | Every message taken is exactly one of sent, held, overwritten, lost to a pending send, discarded at the end; the sent ones are an in-order subsequence; losses are at most the keep-alives plus the pending-after-ready sends. |
| UdpGuarantees.LossIff | src/servers/udp_tunnel.rs:338-448 | A step loses a message by overwriting exactly if it reads a keep-alive while the writer holds one, by a pending send exactly if a ready socket does not take it, by discarding exactly if the tunnel ends holding it, and delivers it exactly if a ready socket takes it. |
| UdpGuarantees.FatesCounted | src/servers/udp_tunnel.rs:338-448 | Over any run the messages of each fate are as many as the steps of that kind. |
| UdpGuarantees.NothingLostIff | src/servers/udp_tunnel.rs:338-448 | Sent messages followed by the one held are exactly the messages taken, in order, if and only if no step of the run was one of the three losing kinds; while the tunnel runs, the same goes for the whole channel. |
| UdpGuarantees.UdpShutdown | src/servers/udp_tunnel.rs:342-349 | A tunnel that ended because its sockets were gone has taken every message it was ever given, and sent them all, in order, if and only if no keep-alive overwrote one and no send left one unsent. |
| UdpGuarantees.OverwriteLoses | src/servers/udp_tunnel.rs:434-447 | A concrete run, for any message, that loses it to a keep-alive reply and goes on. |
| UdpGuarantees.UdpInbound | src/servers/udp_tunnel.rs:421-431 | Each socket's channel gets exactly the payloads addressed to it, in order. |
| UdpGuarantees.AddressedAre | src/servers/udp_tunnel.rs:423-431 | The payloads addressed to a socket are exactly those of the packets forwarded with its index, in order. |
| UdpGuarantees.HoleEnteredIff | src/servers/udp_tunnel.rs:351-370 | The writer gets to hold nothing in its write state by exactly the steps where a ready socket then answers the send with pending. |
| UdpGuarantees.HoleIsFatal | src/servers/udp_tunnel.rs:351-365 | From then on, without a keep-alive, nothing is sent or taken off the channel in any run, and the first write call on a ready socket panics. |
| UdpGuarantees.PanicsIff | src/servers/udp_tunnel.rs:351-373 | A step panics exactly if a ready socket is polled with nothing to write or its send fails. |
| UdpGuarantees.DependableNeverPanics | src/servers/udp_tunnel.rs:351-370 | If a socket reported ready always takes the packet, no run panics and nothing is lost but by overwriting. |
| UdpGuarantees.PendingAfterReadyPanics | src/servers/udp_tunnel.rs:354-363 | A concrete run, for any message, that loses it and panics. |
| UdpGuarantees.CheckIs | src/servers/udp_tunnel.rs:284-395 | In any state the liveness check fails exactly if the last keep-alive lies more than 40 s in the future. |
| UdpGuarantees.CheckNeverFails | src/servers/udp_tunnel.rs:384-395 | In every reachable state the last keep-alive is past, so the check never fails and no run ends by a timeout. |
| UdpGuarantees.SilenceGoesUnnoticed | src/servers/udp_tunnel.rs:281-395 | After any silence, of any length, a check leaves the tunnel running. |
| UdpObjects.UdpTunnel.PollWriteState | src/servers/udp_tunnel.rs:338-375 | The object's write call is the machine's, including the early take. |
| UdpObjects.UdpTunnel.PollReadState | src/servers/udp_tunnel.rs:382-456 | The object's read call is the machine's, including the check before reading. |
| UdpObjects.UdpTunnel.Pong | src/servers/udp_tunnel.rs:434-448 | A keep-alive sets the clock, replaces the write state and writes at once. |
| UdpObjects.UdpTunnel.Deliver | src/servers/udp_tunnel.rs:423-431 | Only the channel of the index gets the payload. |
| UdpObjects.UdpTunnel.WriteLoop | src/servers/udp_tunnel.rs:466-473 | The write loop is the run with exactly the answers given; with a socket that takes what it is given it sends exactly the packet held and then the queue, and ends the tunnel exactly if its sockets are gone. |
| UdpObjects.UdpTunnel.Poll | src/servers/udp_tunnel.rs:462-484 | One poll is the run with exactly the answers given; its write loop makes at most two calls a queued message and a constant; with such a socket and the pool gone it sends all that is left and ends. |
| UdpObjects.UdpTunnel.Drop | src/servers/udp_tunnel.rs:192-204 | Ending the future discards what is held and closes its channel ends. |
| UdpObjects.RunUdp | src/servers/udp_tunnel.rs:154-205 | A new tunnel object, polled by any schedule while its sockets use the channels and time passes, is in the state after the run from the initial state made of exactly these polls and events. |
| UdpSystems.RunProjected | src/servers/udp_tunnel.rs:338-683 | Every run of the UDP tunnel with its sockets is, for the tunnel, a run of its own machine, so all that is proved of those applies. |
| UdpSystems.UdpSystemStepOk | src/servers/udp_tunnel.rs:338-683 | Any step of the UDP tunnel, of a socket or of the clock keeps the invariant of all of them, channels included. |
| UdpSystems.UdpSystemReachable | src/servers/udp_tunnel.rs:338-683 | The invariant holds after every run from the start. |
| UdpSystems.UdpOutboundEndToEnd | src/servers/udp_tunnel.rs:338-375 | What the tunnel sent for socket i is an in-order part of the datagrams that socket received; while it runs, and if no overwriting and no unsent send occurred, sent, held and queued are all of them, in order. |
| UdpSystems.UdpInboundEndToEnd | src/servers/udp_tunnel.rs:594-626 | While socket i runs, its sent, unsent and queued bytes are the payloads the server addressed to it, whole and in order. |
| UdpSystems.UdpSocketCascade | src/servers/udp_tunnel.rs:594-683 | After the tunnel's end a stopped socket sent everything the server addressed to it if and only if no error and no datagram interrupted it with something left. |
| Retry.StartTunnelServer | src/servers/tunnel.rs:51-87 | Gives up exactly at the first five failures in a row, with the last of their errors, after pauses of one second each or one per failure in a row; the fallback error is never used. |
| Retry.TrailingMeans | src/servers/tunnel.rs:57-76 | The count of failures in a row is the length of the run of failures at the end of the outcomes. |
| Retry.TrailingSnoc | src/servers/tunnel.rs:59-84 | A success resets the count and costs a second; a failure adds one to it and costs as many seconds as failures in a row. |
| Retry.LimitedIs | src/servers/udp_tunnel.rs:223-237 | A reply within five seconds counts as it is; a later one is a timeout that took five. |
| Retry.AttemptTunnelHandshake | src/servers/udp_tunnel.rs:214-249 | The first successful try ends it; otherwise exactly six tries, 315 s of sleep and the sixth error; the time taken is exactly the sleeps and what each reply took, at most five seconds. |
| Retry.CreateUdpTunnel | src/servers/udp_tunnel.rs:154-205 | The outcome of binding, connecting, handshake and pool in that order, within 345 s and the time these stages and the running tunnel take the outside. |
| Retry.StartUdpTunnelServer | src/servers/udp_tunnel.rs:107-145 | The same giving-up rule over real handshakes; five failures and nothing else take at most 1740 s and the time the stages take the outside. |
| FireCodecs.NibbleRoundTrip | src/fire.rs:22-32 | Types survive the nibble shifts; options do exactly if below 16. |
| FireCodecs.FireRoundTripIff | src/fire.rs:117-187 | A list of frames comes back from its encoding, under any chunking, if and only if each has its contents' length below 65536 in the header and options below 16; then nothing is left over. |
| FireCodecs.FireLayout | src/fire.rs:133-168 | Byte by byte: twelve header bytes and as many contents as the first two say decode to exactly one frame, with length, component, command, error, type, options and sequence number each from its own bytes. |
| FireCodecs.EncodedFireLayout | src/fire.rs:175-187 | Byte by byte: where each field of a frame is written, for every frame, with lengths modulo 65536 and options modulo 16. |
| FireCodecs.ReencodedIsNormal | src/fire.rs:123-187 | For arbitrary bytes, re-encoding the decoded frames gives the normal form: low nibbles of bytes 8 and 9 cleared, unknown types 0, all else unchanged. |
| FireCodecs.NormalFormIdempotent | src/fire.rs:22-187 | The normal form decodes to the same frames, completely, and is its own normal form. |
| FireCodecs.FireCodec.Decode | src/fire.rs:123-169 | The in-place decoder does one decoding step of the Fire format. |
| FireCodecs.FireCodec.Encode | src/fire.rs:175-187 | Appends exactly the frame's bytes. |
| Redirector.OneResponseEach | src/servers/redirector.rs:78-100 | One response for each request up to the first for the instance and none after, each with the request's component, command and sequence number and no error or options; only that last one has a body. |
| Redirector.BeforeIsFirst | src/servers/redirector.rs:80-82 | The place where the answers end is the first request with component 5 and command 1. |
| Redirector.ScriptMeans | src/servers/redirector.rs:71-77 | What arrives is the chunks up to the first timeout, error or end, joined, and the stream ends as that says. |
| Redirector.CleanEnd | src/servers/redirector.rs:71-77 | After whole frames a clean end is one for the handler exactly if nothing follows them, or exactly one more header; any other bytes make it a read error. The requests are those frames either way. |
| Redirector.ClientStream.TryNext | src/servers/redirector.rs:71-76 | Gives the next frame of the byte stream, or how the stream ends, and then no frame in it was missed. |
| Redirector.ClientStream.Send | src/servers/redirector.rs:87-99 | The whole frame goes out, or on failure a front part of it. |
| Redirector.Serve | src/servers/redirector.rs:71-100 | A turn keeps: everything decoded is answered and none of it asked for the instance; or it ends the loop with the right outcome and the right number of answers sent whole. |
| Redirector.Handle | src/servers/redirector.rs:63-104 | For every read script and all send outcomes: the output is the encoded answers to all requests that arrive, or, if the k-th send is the first to fail, the first k answers whole and a front part of the next; the result is success once the instance was asked for, otherwise how the reads end. |
| Redirector.InstanceAnswered | src/servers/redirector.rs:78-100 | Byte by byte: a request with component 5 and command 1 is answered with these twelve header bytes and the body, and ends the loop. |
| Redirector.ClientSeesResponses | src/servers/redirector.rs:71-101 | A client decoding the output gets exactly the responses, for any request bytes and a body below 65536 bytes. |
| Telemetry.JoinOfSplit | src/servers/telemetry.rs:74-76 | Splitting loses nothing: joining the parts gives the input, and no part has a separator. |
| Telemetry.SplitOfJoin | src/servers/telemetry.rs:74-76 | Splitting what was joined from parts without separator gives the parts. |
| Telemetry.SplitOnceLaw | src/servers/telemetry.rs:78-83 | The split in two is at the first separator, and fails exactly without one. |
| Telemetry.ParseOfJoinedIff | src/servers/telemetry.rs:74-83 | Newline-joined `key=value` lines parse to exactly their pairs if and only if no key has an equals sign and nothing a newline. |
| Telemetry.ParseOfLines | src/servers/telemetry.rs:74-83 | Any lines are parsed each on its own, those without an equals sign dropped. |
| Telemetry.PairsOfLine | src/servers/telemetry.rs:76-83 | Each line on its own gives its key and value, split at the first equals sign, or nothing without one, whatever lines are around it. |
| Telemetry.CipherInvolutiveIff | src/servers/telemetry.rs:122-133 | The cipher keeps the length, gives only ASCII, and applied twice is the identity exactly on ASCII input. |
| Telemetry.CipherLaw | src/servers/telemetry.rs:122-133 | Applied twice from the same position of any key, the cipher gives each byte modulo 128. |
| Telemetry.CipherAt | src/servers/telemetry.rs:122-133 | Every output byte is the input byte combined with the repeating key's byte, modulo 128. |
| Telemetry.PlainIsAscii | src/servers/telemetry.rs:85-115 | Text built without a UTF-8 check comes only from the TLM3 key and is ASCII, hence valid. |
| Telemetry.Tlm3Value | src/servers/telemetry.rs:85-115 | A line `TLM3=p-q` gives the bytes of q decrypted with the 27 bytes of the key written out. |
| Telemetry.DebugValue | src/servers/telemetry.rs:85-115 | A line with any other key, or without a dash, gives the debug form of its own value. |
| Telemetry.NextEventIs | src/servers/telemetry.rs:54-71 | Exactly what reading an event gives, for every stream: the event of as many bytes as the header's last two say, the end, or the overflow. |
| Telemetry.EventsTile | src/servers/telemetry.rs:53-71 | The events read tile the stream up to where the next one cannot be read. |
| Telemetry.EventsOfWire | src/servers/telemetry.rs:53-71 | Well-formed events written one after the other are read back exactly, whatever incomplete bytes follow. |
| Telemetry.OverflowIff | src/servers/telemetry.rs:63-66 | Reading panics exactly if overflow is checked and a complete header has a length below twelve. |
| Telemetry.ReadTelemetryEvent | src/servers/telemetry.rs:53-98 | Reads one event off the stream and gives its values; fails at the end of the stream, panics on overflow. |
| Telemetry.PublishedAt | src/servers/telemetry.rs:37-43 | The k-th publication is the values of the k-th event's body. |
| Telemetry.Handle | src/servers/telemetry.rs:37-43 | Publishes the values of every event on the stream, in order, and nothing else. |

## Left out

- The HTTP proxy, the Blaze and QoS servers, the update check, the user interface and the calls to the Pocket Relay API: they forward to libraries or hold no state worth an invariant.
- `src/servers/mod.rs`, the list of tasks to abort: only easy members.
- Early returns of the tunnel starters without an association token or host: nothing happens then.
- The wire format of the UDP tunnel's messages: it is in another library; messages are an abstract datatype, and bytes that do not deserialize are an answer of the outside.
- The exchange of packets inside one handshake: it is one reply with a duration and a result.
- Wakers, the scheduler and real time: any order of polls is a run, time is an integer that never falls. Progress statements count the calls that get through in place of a fairness assumption.
- Messages that other tasks put into a channel in the middle of one `Poll` of an object: the object methods see their channels unchanged by others during a poll; the step machine has every interleaving.
- The inside of the framing library: it is a read buffer with repeated decoding and a write buffer of which the transport takes front parts; how many bytes, and when, is an answer of the outside. A stream that ends with undecoded bytes is a read error, as the library's default has it.
- A send on a datagram socket that reports more bytes than it was given: the count is capped.
- What binding and connecting a socket do: each comes to a success or an error. The sockets of a pool start one after the other here and at once in the source, so which of several errors is reported differs; and the sockets started before a failure are not run on.
- The sockets of the UDP tunnel as objects: their code is that of `SocketObjects.Socket` with other types on the channels; they are the machine of `SocketTask` in `UdpSystem`, and events between polls for the tunnel object.
- The SSL accept, the accept loops and the 60 second limit of the redirector as a number: a timeout is an event among the reads.
- TDF serialization of the instance answer: the body is any byte string.
- Text decoding of telemetry keys and the debug form of values: keys are compared as bytes, and a value is `Plain` bytes or the `Debug` form of bytes.
- Errors when publishing telemetry: they are logged and change nothing.
- Whether arithmetic overflow is checked: the parameter `checked` stands for the build profile.
