/** What the tunnel system guarantees in every reachable state of every run. */
module TunnelGuarantees {
  import opened Wrappers
  import opened Bytes
  import opened Framing
  import opened TunnelCodecs
  import opened FramedIo
  import opened Selection
  import opened TunnelTask
  import opened SocketTask
  import opened TunnelSystem

  function After(steps: seq<SystemStep>): System {
    Exec(Initial(), steps)
  }

  lemma {:induction false} StartsFollowReady(calls: seq<SinkCall>)
    requires SinkUsedWell(calls)
    ensures forall k | 0 <= k < |calls| && calls[k].StartSend? :: LastIsReady(calls[..k])
  {
    if calls != [] {
      var front := calls[..|calls| - 1];
      StartsFollowReady(front);
      forall k | 0 <= k < |calls| && calls[k].StartSend? ensures LastIsReady(calls[..k]) {
        if k < |front| {
          assert front[k] == calls[k] && front[..k] == calls[..k];
        }
      }
    }
  }

  /** No `expect` or `panic!` is ever reached, in any task; between calls the writer waits,
      holds a message or flushes; and the sink protocol is respected. */
  lemma NeverPanics(steps: seq<SystemStep>)
    ensures var s := After(steps);
            && !s.tunnel.phase.Crashed?
            && (s.tunnel.phase.Live() ==> s.tunnel.WriterReady())
            && (forall k | 0 <= k < |s.tunnel.io.calls| && s.tunnel.io.calls[k].StartSend? ::
                  LastIsReady(s.tunnel.io.calls[..k]))
            && |s.socks| == SOCKET_POOL_SIZE
            && (forall i: byte | i < SOCKET_POOL_SIZE ::
                  !s.socks[i].phase.Crashed? && (s.socks[i].phase.Live() ==> !s.socks[i].ws.SStop?))
  {
    Reachable(steps);
    var s := After(steps);
    StartsFollowReady(s.tunnel.io.calls);
    forall i: byte | i < SOCKET_POOL_SIZE
      ensures !s.socks[i].phase.Crashed? && (s.socks[i].phase.Live() ==> !s.socks[i].ws.SStop?)
    {
      assert s.SocketOk(i);
    }
  }

  /** While the tunnel runs, the datagrams a socket received are, in order: the messages with
      its index already given to the connection, the one the writer holds, those queued. */
  lemma OutboundConservation(steps: seq<SystemStep>, i: byte)
    requires i < SOCKET_POOL_SIZE
    requires After(steps).tunnel.phase.Live()
    ensures var s := After(steps);
            && |s.socks| == SOCKET_POOL_SIZE
            && Tagged(i, s.socks[i].got) ==
               Select(HasIndex(i), s.tunnel.io.started) + Select(HasIndex(i), s.tunnel.HeldMessage()) +
               Select(HasIndex(i), s.tunnel.rx.queue)
  {
    Reachable(steps);
    var t := After(steps).tunnel;
    assert After(steps).SocketOk(i);
    SelectConcat(HasIndex(i), Select(IsData, t.io.started) + Select(IsData, t.HeldMessage()), t.rx.queue);
    SelectConcat(HasIndex(i), Select(IsData, t.io.started), Select(IsData, t.HeldMessage()));
    SelectNested(HasIndex(i), IsData, t.io.started);
    SelectNested(HasIndex(i), IsData, t.HeldMessage());
  }

  /** Even after the tunnel ended, what went out for a socket is a prefix of what it got. */
  lemma OutboundOrder(steps: seq<SystemStep>, i: byte)
    requires i < SOCKET_POOL_SIZE
    ensures var s := After(steps);
            && |s.socks| == SOCKET_POOL_SIZE
            && Select(HasIndex(i), s.tunnel.io.started) <= Tagged(i, s.socks[i].got)
  {
    Reachable(steps);
    var t := After(steps).tunnel;
    assert After(steps).SocketOk(i);
    SelectNested(HasIndex(i), IsData, t.io.started);
    SelectPrefix(HasIndex(i), Select(IsData, t.io.started), t.rx.log);
  }

  /** The bytes produced, cut into reads in any way, decode at the peer to exactly the started
      messages if and only if every payload fits the length field and the last one has at
      least two bytes; a shorter last message is the only one the peer does not see yet. */
  lemma WireRefinement(steps: seq<SystemStep>, chunks: seq<seq<byte>>)
    requires var io := After(steps).tunnel.io; Concat(chunks) == io.wire + io.writeBuffer
    ensures var started := After(steps).tunnel.io.started;
            var seen := Feed(TunnelFormat(), Decoder(None, []), chunks).0;
            var fits := forall m | m in started :: Fits(m);
            var complete := started == [] || |started[|started| - 1].payload| >= 2;
            && (seen == started <==> fits && complete)
            && (fits && !complete ==> seen == started[..|started| - 1])
  {
    Reachable(steps);
    var started := After(steps).tunnel.io.started;
    TunnelStreamConserved(chunks);
    TunnelRoundTripIff(started);
    if forall m | m in started :: Fits(m) {
      TunnelRoundTrip(started);
    }
  }

  /** What has reached the wire is a prefix of the started messages' encoding, all of it
      unless the tunnel is flushing; the peer never decodes anything but started messages. */
  lemma WirePrefix(steps: seq<SystemStep>)
    ensures var t := After(steps).tunnel;
            && t.io.wire <= EncodeAll(TunnelFormat(), t.io.started)
            && (t.phase.Live() && !t.ws.Flush? ==> t.io.wire == EncodeAll(TunnelFormat(), t.io.started))
            && ((forall m | m in t.io.started :: Fits(m)) ==> Messages(TunnelFormat(), t.io.wire) <= t.io.started)
  {
    Reachable(steps);
    var io := After(steps).tunnel.io;
    assert io.wire + io.writeBuffer == EncodeAll(TunnelFormat(), io.started);
    MessagesPrefix(TunnelFormat(), io.wire, io.writeBuffer);
    if forall m | m in io.started :: Fits(m) {
      TunnelRoundTrip(io.started);
    }
  }

  lemma {:induction false} PayloadsConcat(a: seq<Message>, b: seq<Message>)
    ensures Payloads(a + b) == Payloads(a) + Payloads(b)
  {
    if b == [] {
      assert a + b == a;
    } else {
      var front, last := b[..|b| - 1], b[|b| - 1];
      PayloadsConcat(a, front);
      assert (a + b)[..|a + b| - 1] == a + front && (a + b)[|a + b| - 1] == last;
      SeqAssoc(Payloads(a), Payloads(front), last.payload);
    }
  }

  /** While a socket runs, it took exactly the messages with its index among those read from
      the server, in order and whole; the bytes it sent, its unsent rest and what is queued
      are their payloads. Messages with other indices reach no socket. */
  lemma InboundRefinement(steps: seq<SystemStep>, i: byte)
    requires i < SOCKET_POOL_SIZE
    ensures var s := After(steps);
            && s.Shaped()
            && s.tunnel.io.decoded <= Messages(TunnelFormat(), s.tunnel.io.received)
            && var mine := Select(HasIndex(i), s.tunnel.io.decoded);
               var sock := s.socks[i];
            && sock.taken <= mine && sock.sent <= Payloads(sock.taken)
            && (sock.phase.Live() ==>
                  && sock.taken + s.tunnel.pool[i].queue == mine
                  && sock.sent + sock.Rest() == Payloads(sock.taken)
                  && sock.sent + sock.Rest() + Payloads(s.tunnel.pool[i].queue) == Payloads(mine))
  {
    Reachable(steps);
    var s := After(steps);
    assert s.SocketOk(i);
    assert s.tunnel.PoolOk();
    PayloadsConcat(s.socks[i].taken, s.tunnel.pool[i].queue);
  }

  // ---- Nothing readable stays unread ----

  /** Between read loops, or ended because the connection or the channel did. */
  predicate Settled(phase: Phase) {
    phase.Idle? || phase.Writing? || phase == Finished(ReadEnded) || phase == Finished(ChannelClosed)
  }

  /** Then the tunnel has handled every message in the bytes it received. */
  ghost predicate CaughtUp(t: TunnelState) {
    Settled(t.phase) ==> Drain(TunnelFormat(), t.io.reader).0 == []
  }

  lemma {:induction false} PollNextCaughtUp(io: Io, chunks: seq<seq<byte>>, closed: bool)
    requires io.ReadsFaithfully()
    ensures var (c, end) := io.PollNext(chunks, closed);
            c.Pending? || c == Ready(None) ==> Drain(TunnelFormat(), end.reader).0 == []
    decreases |chunks|
  {
    DecodeFaithful(io);
    var next := io.Decode().1;
    if io.Decode().0.None? && chunks != [] {
      FedFaithful(next, chunks[0]);
      PollNextCaughtUp(next.Fed(chunks[0]), chunks[1..], closed);
    }
  }

  lemma ReadCaughtUp(t: TunnelState, r: ReadAnswer, a: IoAnswer)
    requires t.io.ReadsFaithfully() && t.WriterReady()
    ensures var (c, t') := t.PollRead(r, a);
            c.Pending? || (c == Ready(ReadStop) && !t'.ws.Stop?) ==> Drain(TunnelFormat(), t'.io.reader).0 == []
  {
    PollNextCaughtUp(t.io, r.chunks, r.closed);
  }

  lemma StepCaughtUp(t: TunnelState, step: Step)
    requires t.io.ReadsFaithfully() && CaughtUp(t) && (t.phase.Live() ==> t.WriterReady())
    ensures CaughtUp(t.Next(step))
  {
    hide Drain, Io.PollNext;
    match step
    case Wake =>
    case WriteStep(a) => WriteFrame(t, a);
    case ReadStep(r, a) =>
      if t.phase.Reading? {
        ReadCaughtUp(t, r, a);
        ReadSeen(t, r, a);
      }
  }

  lemma {:induction false} ReachableCaughtUp(steps: seq<SystemStep>)
    ensures CaughtUp(After(steps).tunnel)
    decreases |steps|
  {
    if steps != [] {
      var front, last := steps[..|steps| - 1], steps[|steps| - 1];
      ReachableCaughtUp(front);
      Reachable(front);
      if last.OfTunnel? {
        StepCaughtUp(After(front).tunnel, last.t);
      }
    }
  }

  /** Between its read loops, and when it has ended without an error of its writer, the tunnel
      has decoded exactly the messages in the bytes it received, however they were cut. */
  lemma EverythingDecoded(steps: seq<SystemStep>)
    requires Settled(After(steps).tunnel.phase)
    ensures var io := After(steps).tunnel.io; io.decoded == Messages(TunnelFormat(), io.received)
  {
    Reachable(steps);
    ReachableCaughtUp(steps);
    var io := After(steps).tunnel.io;
    assert io.decoded + [] == io.decoded;
  }

  /** End to end inwards: what a running socket has sent, still holds and has queued are the
      payloads of its messages in the bytes the tunnel received. */
  lemma InboundEndToEnd(steps: seq<SystemStep>, i: byte)
    requires i < SOCKET_POOL_SIZE
    requires Settled(After(steps).tunnel.phase)
    ensures var s := After(steps);
            && s.Shaped()
            && (s.socks[i].phase.Live() ==>
                  s.socks[i].sent + s.socks[i].Rest() + Payloads(s.tunnel.pool[i].queue) ==
                  Payloads(Select(HasIndex(i), Messages(TunnelFormat(), s.tunnel.io.received))))
  {
    InboundRefinement(steps, i);
    EverythingDecoded(steps);
  }

  /** A reply for each keep-alive that was read while the writer was waiting, never more, and
      never more than keep-alives read; a reply is empty with index 255, and anything else
      started came from a socket. */
  lemma KeepAliveAccounting(steps: seq<SystemStep>)
    ensures var t := After(steps).tunnel;
            var invited := Invited(Initial(), steps);
            && (t.phase.Live() ==> |t.Placed()| == invited)
            && |t.Placed()| <= invited <= |Select(IsPing, t.io.decoded)|
            && (forall m | m in t.io.started ::
                  m == Message(255, []) || (m.index < 4 && m in t.rx.log))
  {
    Reachable(steps);
    InvitedCounted(Initial(), steps);
    var t := After(steps).tunnel;
    forall m | m in t.io.started
      ensures m == Message(KEEP_ALIVE, []) || (m.index < SOCKET_POOL_SIZE && m in t.rx.log)
    {
      if IsPing(m) {
        SelectKeeps(IsPing, t.io.started, m);
        assert m in t.Placed();
      } else {
        SelectKeeps(IsData, t.io.started, m);
      }
    }
  }

  /** Reading a message places one reply at the end exactly if it is a keep-alive, the writer was
      waiting and the connection does not fail; if it does the tunnel stops, and otherwise goes
      on. In every other case the replies stay as they are. */
  lemma AnsweredIff(t: TunnelState, m: Message, a: IoAnswer)
    requires t.WriterReady()
    ensures var (c, t') := t.Handle(m, a);
            var reply := if m.index == 255 && t.ws.Recv? then [Message(255, [])] else [];
            var fails := reply != [] && a.IoErr?;
            && c == Ready(if fails then ReadStop else ReadContinue)
            && t'.Placed() == if fails then t.Placed() else t.Placed() + reply
  {
    hide Io.Accept, Select;
    SelectNone<Message>(IsPing);
    assert t.Placed() + [] == t.Placed();
    if IsPing(m) && t.ws.Recv? {
      var ping := Message(KEEP_ALIVE, []);
      var waiting := t.(ws := Write(Some(ping)), pongs := t.pongs + 1);
      SelectAppend(IsPing, [], ping);
      assert [] + [ping] == [ping];
      assert waiting.Placed() == t.Placed() + [ping];
      SendKeepsPlaced(waiting, ping, a);
      SendStays(waiting, ping, a);
    } else {
      assert t.Deliver(m).Placed() == t.Placed();
    }
  }

  lemma SendStays(t: TunnelState, m: Message, a: IoAnswer)
    requires t.ws == Write(Some(m))
    ensures var (c, t') := t.WriteMessage(Some(m), a);
            c.Ready? && c.value.Stop? ==> t'.ws == t.ws && t'.Placed() == t.Placed()
  {
  }

  lemma {:induction false} SelectKeeps<T>(keep: T -> bool, s: seq<T>, x: T)
    requires x in s && keep(x)
    ensures x in Select(keep, s)
  {
    if x in s[..|s| - 1] {
      SelectKeeps(keep, s[..|s| - 1], x);
    }
  }

  // ---- Exactly what a step does ----

  /** What a write call comes to: it fails the tunnel exactly if the connection fails while a
      message is written or flushed, closes it exactly if the channel is empty and its senders
      gone, and is blocked exactly if there is nothing to do yet. */
  lemma TunnelWriteLaw(t: TunnelState, a: IoAnswer)
    requires t.Ok() && t.phase.Writing?
    ensures var t' := t.Next(WriteStep(a));
            && (t'.phase == Finished(WriteFailed) <==> (t.ws.Write? || t.ws.Flush?) && a.IoErr?)
            && (t'.phase == Finished(ChannelClosed) <==> t.ws.Recv? && t.rx.queue == [] && t.rx.senders == {})
            && (t'.phase == Reading <==>
                  if t.ws.Recv? then t.rx.queue == [] && t.rx.senders != {} else a.IoPending?)
            && (t'.phase.Live() ==> t'.phase == Reading || t'.phase == Writing)
            && (t'.phase.Finished? ==> t'.phase in {Finished(WriteFailed), Finished(ChannelClosed)})
            && !t'.phase.Crashed?
            && (t'.phase == Writing ==>
                  match t.ws
                  case Recv => t'.ws == Write(Some(t.rx.queue[0])) && t'.rx.queue == t.rx.queue[1..]
                  case Write(message) => t'.ws == Flush && t'.io.started == t.io.started + [message.value]
                  case Flush => t'.ws == Recv
                  case Stop => false)
            && (t'.phase == Reading ==> t'.ws == t.ws)
  {
  }

  /** What polling the connection gives: the first message of all that has arrived, if any. */
  lemma {:induction false} PollNextIs(io: Io, chunks: seq<seq<byte>>, closed: bool)
    ensures var found := Drain(TunnelFormat(), io.reader.Fed(Concat(chunks))).0;
            io.PollNext(chunks, closed).0 ==
            if found != [] then Ready(Some(found[0])) else if closed then Ready(None) else Pending
    decreases |chunks|
  {
    var f, all := TunnelFormat(), Concat(chunks);
    DecodeMonotone(f, io.reader, all);
    var (m, next) := io.Decode();
    if m.None? {
      if chunks == [] {
        assert io.reader.Fed([]) == io.reader;
        assert next.reader.Fed([]) == next.reader;
      } else {
        PollNextIs(next.Fed(chunks[0]), chunks[1..], closed);
        assert next.reader.Fed(chunks[0]).Fed(Concat(chunks[1..])) == next.reader.Fed(all) by {
          SeqAssoc(next.reader.buffer, chunks[0], Concat(chunks[1..]));
        }
      }
    }
  }

  /** What a read call comes to, for `found` the messages among what is buffered and what the
      call reads: it ends the tunnel exactly if there is none and the connection is closed, or
      if the first is a keep-alive whose reply fails; it is blocked exactly if there is none
      yet. */
  lemma TunnelReadLaw(t: TunnelState, r: ReadAnswer, a: IoAnswer)
    requires t.Ok() && t.phase.Reading?
    ensures var t' := t.Next(ReadStep(r, a));
            var found := Drain(TunnelFormat(), t.io.reader.Fed(Concat(r.chunks))).0;
            && (t'.phase == Finished(ReadEnded) <==> found == [] && r.closed)
            && (t'.phase == Finished(WriteFailed) <==>
                  found != [] && found[0].index == 255 && t.ws.Recv? && a.IoErr?)
            && (t'.phase == Idle <==> found == [] && !r.closed)
            && (t'.phase.Live() ==> t'.phase == Idle || t'.phase == Reading)
            && (t'.phase.Finished? ==> t'.phase in {Finished(ReadEnded), Finished(WriteFailed)})
            && !t'.phase.Crashed?
            && (t'.phase.Live() ==>
                  t'.ws == if found != [] && found[0].index == 255 && t.ws.Recv? then
                             (if a.IoOk? then Flush else Write(Some(Message(255, []))))
                           else t.ws)
  {
    hide TunnelState.Ok, Drain, Io.PollNext, Io.Accept;
    OkFacts(t);
    PollNextIs(t.io, r.chunks, r.closed);
    var (c, io) := t.io.PollNext(r.chunks, r.closed);
    if c.Ready? && c.value.Some? {
      HandleFrame(t.(io := io), c.value.value, a);
    }
  }

  // ---- From datagrams to the peer ----

  /** The messages a socket makes of its datagrams are the datagrams themselves, up to the
      65536 bytes its buffer holds. */
  lemma {:induction false} TaggedAre(i: byte, got: seq<seq<byte>>)
    ensures |Tagged(i, got)| == |got|
    ensures forall k | 0 <= k < |got| ::
              Tagged(i, got)[k] == Message(i, if |got[k]| <= 65536 then got[k] else got[k][..65536])
  {
    if got != [] {
      var front := got[..|got| - 1];
      TaggedAre(i, front);
      forall k | 0 <= k < |front| ensures Tagged(i, got)[k] == Tagged(i, front)[k] && got[k] == front[k] {
      }
    }
  }

  /** The datagrams as messages of socket `i`, byte by byte. */
  function Verbatim(i: byte, got: seq<seq<byte>>): seq<Message> {
    seq(|got|, k requires 0 <= k < |got| => Message(i, got[k]))
  }

  lemma {:induction false} TaggedFrom(i: byte, got: seq<seq<byte>>, m: Message)
    requires m in Tagged(i, got)
    ensures exists d :: d in got && m == Message(i, Received(d))
  {
    var last := got[|got| - 1];
    if m == Message(i, Received(last)) {
      assert last in got;
    } else {
      TaggedFrom(i, got[..|got| - 1], m);
    }
  }

  /** Every datagram the sockets received fits the length field, as real ones do ("Fields" in
      RFC 768). */
  predicate DatagramsFit(s: System) {
    forall k, d | 0 <= k < |s.socks| && d in s.socks[k].got :: |d| < 0x1_0000
  }

  lemma StartedFit(steps: seq<SystemStep>)
    requires DatagramsFit(After(steps))
    ensures forall m | m in After(steps).tunnel.io.started :: Fits(m)
  {
    Reachable(steps);
    KeepAliveAccounting(steps);
    var s := After(steps);
    forall m | m in s.tunnel.io.started && m.index < SOCKET_POOL_SIZE && m in s.tunnel.rx.log ensures Fits(m) {
      assert s.SocketOk(m.index);
      SelectKeeps(HasIndex(m.index), s.tunnel.rx.log, m);
      TaggedFrom(m.index, s.socks[m.index].got, m);
    }
  }

  /** The last message, if it is too short for the peer to see it yet. */
  function Unseen(started: seq<Message>): seq<Message> {
    if started == [] || |started[|started| - 1].payload| >= 2 then [] else [started[|started| - 1]]
  }

  /** End to end outwards: the messages of socket `i` that the peer decodes from the bytes on
      the wire are a prefix of the datagrams that socket received; when the tunnel waits with
      nothing queued they are all of them, up to a short last message. */
  lemma OutboundEndToEnd(steps: seq<SystemStep>, i: byte)
    requires i < SOCKET_POOL_SIZE
    requires DatagramsFit(After(steps))
    ensures var s := After(steps);
            var seen := Messages(TunnelFormat(), s.tunnel.io.wire);
            && |s.socks| == SOCKET_POOL_SIZE
            && Select(HasIndex(i), seen) <= Verbatim(i, s.socks[i].got)
            && (s.tunnel.phase.Live() && s.tunnel.ws.Recv? && s.tunnel.rx.queue == [] ==>
                  Select(HasIndex(i), seen + Unseen(s.tunnel.io.started)) == Verbatim(i, s.socks[i].got))
  {
    hide Exec, Select, Drain, Tagged, EncodeAll;
    StartedFit(steps);
    WirePrefix(steps);
    OutboundOrder(steps, i);
    FittingVerbatim(After(steps), i);
    var t := After(steps).tunnel;
    SelectPrefix(HasIndex(i), Messages(TunnelFormat(), t.io.wire), t.io.started);
    if t.phase.Live() && t.ws.Recv? && t.rx.queue == [] {
      OutboundConservation(steps, i);
      SeenAndUnseen(t.io.started);
      SelectNone<Message>(HasIndex(i));
      assert t.HeldMessage() == [];
      assert Select(HasIndex(i), t.io.started) + [] + [] == Select(HasIndex(i), t.io.started);
    }
  }

  lemma FittingVerbatim(s: System, i: byte)
    requires DatagramsFit(s) && i as int < |s.socks|
    ensures Tagged(i, s.socks[i].got) == Verbatim(i, s.socks[i].got)
  {
    TaggedAre(i, s.socks[i].got);
  }

  lemma SeenAndUnseen(started: seq<Message>)
    requires forall m | m in started :: Fits(m)
    ensures Messages(TunnelFormat(), EncodeAll(TunnelFormat(), started)) + Unseen(started) == started
  {
    TunnelRoundTrip(started);
  }

  /** At most one message is started and not yet confirmed by a flush, and only while
      flushing. A tunnel that ends because its sockets are gone has put every message it was
      ever given on the wire, completely. */
  lemma FlushDiscipline(steps: seq<SystemStep>)
    ensures var t := After(steps).tunnel;
            && t.io.confirmed <= |t.io.started| <= t.io.confirmed + 1
            && (t.phase.Live() ==> (|t.io.started| == t.io.confirmed + 1 <==> t.ws.Flush?))
            && (t.phase == Finished(ChannelClosed) ==> t.Flushed())
  {
    Reachable(steps);
    var io := After(steps).tunnel.io;
    assert io.wire + io.writeBuffer == EncodeAll(TunnelFormat(), io.started);
  }
}
