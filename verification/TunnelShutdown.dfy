/**
 How the end of one side ends the other. Two things are proved for each side over every run:
 what has been delivered once it has stopped, and that it stops. Fairness enters the second
 only as a count: the write calls that get through. Each lowers a potential, so a run that
 serves the task more often than its potential at the start has ended it.
 */
module TunnelShutdown {
  import opened Wrappers
  import opened Bytes
  import opened Framing
  import opened TunnelCodecs
  import opened FramedIo
  import opened Channels
  import opened Selection
  import opened TunnelTask
  import opened SocketTask
  import opened TunnelSystem
  import opened TunnelGuarantees
  import Runs

  // ---- The sockets, once the tunnel is gone: work ----

  /** Calls that sending these bytes can take: one a byte, and one for no bytes at all. */
  function SendWork(rest: seq<byte>): nat {
    if rest == [] then 1 else |rest|
  }

  function QueueWork(queue: seq<Message>): nat {
    if queue == [] then 0 else 1 + SendWork(queue[0].payload) + QueueWork(queue[1..])
  }

  /** The most write calls that can get through before the socket finds its channel closed. */
  function SocketWork(v: SocketView): nat {
    QueueWork(v.inbox.queue) + (if v.s.ws.SWrite? then SendWork(v.s.ws.rest) else 0)
  }

  /** The call takes something off the channel, or sends at least a byte of what is left. */
  predicate SocketProgress(v: SocketView, step: SocketStep) {
    && step.SocketWrite? && v.s.phase.Writing?
    && (v.s.ws.SWrite? ==> step.a.SendOk? && (step.a.count >= 1 || v.s.ws.rest == []))
  }

  lemma SocketStepWork(v: SocketView, step: SocketStep)
    requires v.Ok() && v.inbox.senders == {}
    ensures var v' := v.Next(step);
            v'.s.phase.Live() ==> SocketWork(v') + (if SocketProgress(v, step) then 1 else 0) <= SocketWork(v)
  {
  }

  /** A write call that gets through, or that finds the socket stopped already. */
  predicate SocketServed(v: SocketView, step: SocketStep) {
    SocketProgress(v, step) || (step.SocketWrite? && !v.s.phase.Live())
  }

  /** How often a run serves socket `i`. */
  function SocketServings(s: System, steps: seq<SystemStep>, i: byte): nat
    requires s.Shaped() && i < SOCKET_POOL_SIZE
    decreases |steps|
  {
    if steps == [] then 0
    else
      var front, last := steps[..|steps| - 1], steps[|steps| - 1];
      ExecShaped(s, front);
      SocketServings(s, front, i) +
      (if last.OfSocket? && last.i == i && SocketServed(Exec(s, front).View(i), last.s) then 1 else 0)
  }

  lemma {:induction false} ExecShaped(s: System, steps: seq<SystemStep>)
    requires s.Shaped()
    ensures Exec(s, steps).Shaped()
    decreases |steps|
  {
    if steps != [] {
      ExecShaped(s, steps[..|steps| - 1]);
    }
  }

  // ---- The sockets, once the tunnel is gone: delivery ----

  /** The step stops the socket, by an error or by a datagram it cannot pass on any more, while
      a message waits to be sent or to be taken. */
  predicate Interrupts(v: SocketView, step: SocketStep) {
    && (v.inbox.queue != [] || v.s.ws.SWrite?)
    && (match step
        case SocketWake => false
        case SocketWrite(a) => v.s.phase.Writing? && v.s.ws.SWrite? && a.SendErr?
        case SocketRead(r) => v.s.phase.Reading? && !r.RecvPending?)
  }

  predicate Interrupted(s: System, steps: seq<SystemStep>, i: byte)
    requires s.Shaped() && i < SOCKET_POOL_SIZE
    decreases |steps|
  {
    steps != [] &&
    var front, last := steps[..|steps| - 1], steps[|steps| - 1];
    ExecShaped(s, front);
    || Interrupted(s, front, i)
    || (last.OfSocket? && last.i == i && Interrupts(Exec(s, front).View(i), last.s))
  }

  /** Neither a socket error nor a datagram to pass on. */
  predicate SocketCalm(step: SocketStep) {
    && (step.SocketWrite? ==> !step.a.SendErr?)
    && (step.SocketRead? ==> step.r.RecvPending?)
  }

  predicate CalmFor(steps: seq<SystemStep>, i: byte) {
    forall step | step in steps :: step.OfSocket? && step.i == i ==> SocketCalm(step.s)
  }

  /** The socket took all these messages and sent them whole. */
  ghost predicate AllSent(s: SocketState, ms: seq<Message>) {
    s.taken == ms && s.completed == |ms| && s.sent == Payloads(ms)
  }

  /** Exactly when a socket that stops has left something behind. */
  lemma SocketStopsIff(v: SocketView, step: SocketStep)
    requires v.Ok() && v.s.phase.Live() && v.inbox.senders == {} && !v.tunnel.receiving
    ensures var v' := v.Next(step);
            && (v'.s.phase.Live() ==> !Interrupts(v, step))
            && (!v'.s.phase.Live() ==> (AllSent(v'.s, v'.inbox.log) <==> !Interrupts(v, step)))
            && (SocketCalm(step) ==> v'.s.phase.Live() || v'.s.phase == Finished(ChannelClosed))
  {
    var v' := v.Next(step);
    SocketStepSeen(v, step);
    if !v'.s.phase.Live() {
      assert v'.s.taken == v.s.taken && v'.s.completed == v.s.completed && v'.s.sent == v.s.sent;
      if v.inbox.queue == [] {
        assert v.s.taken == v.inbox.log;
        assert v.s.sent + [] == v.s.sent;
      } else {
        assert |v.s.taken| < |v.s.taken + v.inbox.queue|;
      }
    }
  }

  lemma OtherStepKeepsSocket(s: System, step: SystemStep, i: byte)
    requires s.Ok() && !s.tunnel.phase.Live() && i < SOCKET_POOL_SIZE
    requires step.OfSocket? ==> step.i != i
    ensures var s' := s.Next(step);
            && s'.View(i).inbox == s.View(i).inbox && s'.View(i).s == s.View(i).s
            && s'.tunnel.phase == s.tunnel.phase && s'.tunnel.io == s.tunnel.io
  {
    if step.OfTunnel? {
      TunnelStepSeen(s.tunnel, step.t);
    }
  }

  /** How one step of a run after the tunnel's end moves socket `i`. */
  lemma CascadeStep(s: System, step: SystemStep, i: byte)
    requires s.Ok() && !s.tunnel.phase.Live() && i < SOCKET_POOL_SIZE
    ensures var e := s.Next(step);
            var own := step.OfSocket? && step.i == i;
            && !e.tunnel.phase.Live() && e.tunnel.io == s.tunnel.io
            && (!s.socks[i].phase.Live() ==>
                  && e.socks[i] == s.socks[i] && e.tunnel.pool[i] == s.tunnel.pool[i]
                  && (own ==> !Interrupts(s.View(i), step.s)))
            && (s.socks[i].phase.Live() && !own ==>
                  e.socks[i] == s.socks[i] && e.tunnel.pool[i] == s.tunnel.pool[i])
            && (own ==> e.View(i) == s.View(i).Next(step.s))
  {
    OwnView(s, i);
    if step.OfSocket? && step.i == i {
      SocketStepSeen(s.View(i), step.s);
    } else {
      OtherStepKeepsSocket(s, step, i);
    }
  }

  /** What is known of socket `i` after the tunnel's end. */
  lemma AfterTunnel(s: System, i: byte)
    requires s.Ok() && !s.tunnel.phase.Live() && i < SOCKET_POOL_SIZE
    ensures s.View(i).Ok() && s.tunnel.pool[i].senders == {} && !s.tunnel.rx.receiving
    ensures s.socks[i].phase.Live() ==> s.tunnel.pool[i].log == Select(HasIndex(i), s.tunnel.io.decoded)
  {
    OwnView(s, i);
    ChannelFacts(s);
  }

  lemma {:induction false} CascadeBound(s: System, steps: seq<SystemStep>, i: byte)
    requires s.Ok() && !s.tunnel.phase.Live() && i < SOCKET_POOL_SIZE
    ensures var e := Exec(s, steps);
            && e.Ok() && !e.tunnel.phase.Live() && e.tunnel.io == s.tunnel.io
            && (!s.socks[i].phase.Live() ==> !e.socks[i].phase.Live())
            && (e.socks[i].phase.Live() ==>
                  SocketServings(s, steps, i) + SocketWork(e.View(i)) <= SocketWork(s.View(i)))
    decreases |steps|
  {
    if steps != [] {
      var front, last := steps[..|steps| - 1], steps[|steps| - 1];
      var mid := Exec(s, front);
      CascadeBound(s, front, i);
      SystemStepOk(mid, last);
      AfterTunnel(mid, i);
      CascadeStep(mid, last, i);
      if last.OfSocket? && last.i == i {
        SocketStepWork(mid.View(i), last.s);
      }
    }
  }

  /** A run after the tunnel's end that serves a socket more often than its potential has
      ended it. */
  lemma SocketEnds(s: System, steps: seq<SystemStep>, i: byte)
    requires s.Ok() && !s.tunnel.phase.Live() && i < SOCKET_POOL_SIZE
    ensures Exec(s, steps).Shaped()
    ensures SocketServings(s, steps, i) > SocketWork(s.View(i)) ==> !Exec(s, steps).socks[i].phase.Live()
  {
    CascadeBound(s, steps, i);
  }

  /** Everything the tunnel read for the socket has been taken and sent. */
  ghost predicate Delivered(e: System, i: byte)
    requires e.Shaped() && i < SOCKET_POOL_SIZE
  {
    AllSent(e.socks[i], Select(HasIndex(i), e.tunnel.io.decoded))
  }

  /** Once the tunnel is gone, a socket that has stopped has delivered everything the tunnel
      handed it if and only if no socket error and no datagram interrupted it with something
      left. Without errors and datagrams it stops only because its channel closed. */
  lemma {:induction false} SocketCascade(s: System, steps: seq<SystemStep>, i: byte)
    requires s.Ok() && !s.tunnel.phase.Live() && i < SOCKET_POOL_SIZE
    requires s.socks[i].phase.Live()
    ensures var e := Exec(s, steps);
            && e.Shaped()
            && (e.socks[i].phase.Live() ==> !Interrupted(s, steps, i))
            && (!e.socks[i].phase.Live() ==> (Delivered(e, i) <==> !Interrupted(s, steps, i)))
            && (CalmFor(steps, i) ==> e.socks[i].phase.Live() || e.socks[i].phase == Finished(ChannelClosed))
    decreases |steps|
  {
    if steps != [] {
      var front, last := steps[..|steps| - 1], steps[|steps| - 1];
      var mid := Exec(s, front);
      SocketCascade(s, front, i);
      CascadeBound(s, front, i);
      AfterTunnel(mid, i);
      CascadeStep(mid, last, i);
      if mid.socks[i].phase.Live() && last.OfSocket? && last.i == i {
        SocketStopsIff(mid.View(i), last.s);
        SocketStepSeen(mid.View(i), last.s);
      }
    }
  }

  /** From the bytes received to the last socket's end: if the tunnel ended because its
      connection did, a socket that has stopped has sent every message with its index in those
      bytes, however they were cut, if and only if nothing interrupted it. */
  lemma ShutdownEndToEnd(before: seq<SystemStep>, steps: seq<SystemStep>, i: byte)
    requires i < SOCKET_POOL_SIZE && After(before).Shaped()
    requires var t := After(before).tunnel; !t.phase.Live() && Settled(t.phase)
    requires After(before).socks[i].phase.Live()
    ensures var s, e := After(before), Exec(After(before), steps);
            && e.Shaped()
            && (!e.socks[i].phase.Live() ==>
                  (AllSent(e.socks[i], Select(HasIndex(i), Messages(TunnelFormat(), s.tunnel.io.received))) <==>
                   !Interrupted(s, steps, i)))
  {
    Reachable(before);
    EverythingDecoded(before);
    SocketCascade(After(before), steps, i);
    CascadeBound(After(before), steps, i);
  }

  // ---- Two runs of this kind ----

  /** The tunnel reads one message for socket 0, and then the connection ends. */
  function ReadAndEnd(payload: seq<byte>): seq<SystemStep> {
    [OfTunnel(Wake), OfTunnel(WriteStep(IoOk(0))),
     OfTunnel(ReadStep(ReadAnswer([EncodeMessage(Message(0, payload))], false), IoOk(0))),
     OfTunnel(ReadStep(ReadAnswer([], true), IoOk(0)))]
  }

  /** The socket takes the message, sends it whole and finds its channel closed. */
  function SendAndEnd(payload: seq<byte>): seq<SystemStep> {
    [OfSocket(0, SocketWake), OfSocket(0, SocketWrite(SendPending)),
     OfSocket(0, SocketWrite(SendOk(|payload|))), OfSocket(0, SocketWrite(SendPending))]
  }

  lemma ReadOne(payload: seq<byte>)
    requires 2 <= |payload| < 0x1_0000
    ensures var m := Message(0, payload);
            var (c, io) := FreshIo().PollNext([EncodeMessage(m)], false);
            && c == Ready(Some(m)) && io.decoded == [m]
            && io.PollNext([], true) == (Ready(None), io)
  {
    var m := Message(0, payload);
    TunnelFormatSound();
    TunnelFaithful(m);
    EncodedParts(m);
    DecodeFrame(TunnelFormat(), m, []);
    assert EncodeMessage(m) + [] == [] + EncodeMessage(m);
    assert [] + [m] == [m];
  }

  lemma FourSteps(s: System, a: SystemStep, b: SystemStep, c: SystemStep, d: SystemStep)
    ensures Exec(s, [a, b, c, d]) == s.Next(a).Next(b).Next(c).Next(d)
  {
    hide System.Next;
    Runs.RunFour(SystemNext, s, a, b, c, d);
  }

  /** The tunnel is gone and the message is in the socket's channel. */
  lemma WitnessTunnel(payload: seq<byte>)
    requires 2 <= |payload| < 0x1_0000
    ensures var m := Message(0, payload);
            var s := Exec(Initial(), ReadAndEnd(payload));
            && s.Shaped() && !s.tunnel.phase.Live()
            && s.View(0) == SocketView(Initial().socks[0], Chan([m], [m], {}, true), s.tunnel.rx)
            && s.tunnel.io.decoded == [m]
  {
    hide Io.PollNext;
    var m := Message(0, payload);
    ReadOne(payload);
    var steps := ReadAndEnd(payload);
    FourSteps(Initial(), steps[0], steps[1], steps[2], steps[3]);
    var t1 := Initial().tunnel.Next(steps[0].t).Next(steps[1].t);
    assert t1 == Initial().tunnel.(phase := Reading);
    var t2 := t1.Next(steps[2].t);
    assert t2.phase == Reading && t2.pool[0] == Chan([m], [m], {0}, true) && t2.io.decoded == [m];
    var t3 := t2.Next(steps[3].t);
    assert t3.phase == Finished(ReadEnded) && t3.pool[0].senders == {};
  }

  lemma WitnessSocket(v: SocketView, m: Message)
    requires v.s == SocketState(0, SRecv, Idle, [], 0, [], []) && v.inbox == Chan([m], [m], {}, true)
    requires m.payload != []
    ensures var end := v.Next(SocketWake).Next(SocketWrite(SendPending)).Next(SocketWrite(SendOk(|m.payload|)));
            var v' := end.Next(SocketWrite(SendPending));
            v'.s.phase == Finished(ChannelClosed) && v'.s.sent == m.payload && AllSent(v'.s, [m])
  {
    var v2 := v.Next(SocketWake).Next(SocketWrite(SendPending));
    assert v2.s == SocketState(0, SWrite(m.payload), Writing, [m], 0, [], []) by {
      assert [] + [m] == [m];
    }
    var v3 := v2.Next(SocketWrite(SendOk(|m.payload|)));
    assert v3.s == SocketState(0, SRecv, Writing, [m], 1, m.payload, []) by {
      assert [] + m.payload[..|m.payload|] == m.payload;
    }
    assert Payloads([m]) == [] + m.payload == m.payload;
  }

  /** For any payload of at least two bytes there is such a run: the tunnel reads it and ends,
      the socket then sends it whole and ends too. */
  lemma CascadeWitness(payload: seq<byte>)
    requires 2 <= |payload| < 0x1_0000
    ensures var s := Exec(Initial(), ReadAndEnd(payload));
            var e := Exec(s, SendAndEnd(payload));
            && s.Ok() && !s.tunnel.phase.Live() && s.socks[0].phase.Live()
            && CalmFor(SendAndEnd(payload), 0)
            && e.Shaped() && e.socks[0].phase == Finished(ChannelClosed)
            && e.socks[0].sent == payload
            && Delivered(e, 0)
  {
    hide Exec, System.Ok, SocketView.Next, Select, AllSent, CalmFor;
    var m := Message(0, payload);
    var s := Exec(Initial(), ReadAndEnd(payload));
    WitnessTunnel(payload);
    Reachable(ReadAndEnd(payload));
    WitnessSocket(s.View(0), m);
    WitnessCalm(s, payload);
    CascadeBound(s, SendAndEnd(payload), 0);
    SelectNone<Message>(HasIndex(0));
    SelectAppend(HasIndex(0), [], m);
    assert [] + [m] == [m];
  }

  /** The socket takes the message, cannot send it yet, and receives a datagram. */
  function ReceiveAndEnd(datagram: seq<byte>): seq<SystemStep> {
    [OfSocket(0, SocketWake), OfSocket(0, SocketWrite(SendPending)), OfSocket(0, SocketWrite(SendPending)),
     OfSocket(0, SocketRead(Datagram(datagram)))]
  }

  lemma InterruptedSocket(v: SocketView, m: Message, datagram: seq<byte>)
    requires v.s == SocketState(0, SRecv, Idle, [], 0, [], []) && v.inbox == Chan([m], [m], {}, true)
    requires !v.tunnel.receiving
    ensures var end := v.Next(SocketWake).Next(SocketWrite(SendPending)).Next(SocketWrite(SendPending));
            var v' := end.Next(SocketRead(Datagram(datagram)));
            v'.s.phase == Finished(TunnelGone) && v'.s.sent == [] && v'.s.completed == 0
  {
    var v2 := v.Next(SocketWake).Next(SocketWrite(SendPending));
    assert v2.s == SocketState(0, SWrite(m.payload), Writing, [m], 0, [], []) by {
      assert [] + [m] == [m];
    }
    assert v2.Next(SocketWrite(SendPending)).s.phase == Reading;
  }

  lemma InterruptedSteps(s: System, datagram: seq<byte>)
    requires s.Shaped()
    ensures Exec(s, ReceiveAndEnd(datagram)).Shaped()
    ensures Exec(s, ReceiveAndEnd(datagram)).View(0) ==
            s.View(0).Next(SocketWake).Next(SocketWrite(SendPending)).Next(SocketWrite(SendPending))
             .Next(SocketRead(Datagram(datagram)))
  {
    hide SocketView.Next;
    var steps := ReceiveAndEnd(datagram);
    FourSteps(s, steps[0], steps[1], steps[2], steps[3]);
  }

  /** And for any datagram there is one that fails: the tunnel reads the message and ends, the
      socket waits to send it, receives the datagram, cannot pass it on and stops. */
  lemma InterruptionLoses(payload: seq<byte>, datagram: seq<byte>)
    requires 2 <= |payload| < 0x1_0000
    ensures var s := Exec(Initial(), ReadAndEnd(payload));
            var e := Exec(s, ReceiveAndEnd(datagram));
            && s.Ok() && !s.tunnel.phase.Live() && s.socks[0].phase.Live()
            && e.Shaped() && e.socks[0].phase == Finished(TunnelGone)
            && Interrupted(s, ReceiveAndEnd(datagram), 0)
            && e.socks[0].sent == []
            && !Delivered(e, 0)
  {
    hide Exec, System.Ok, SocketView.Next, Select, Interrupted;
    var s := Exec(Initial(), ReadAndEnd(payload));
    var m := Message(0, payload);
    WitnessTunnel(payload);
    Reachable(ReadAndEnd(payload));
    ChannelFacts(s);
    InterruptedSocket(s.View(0), m, datagram);
    InterruptedSteps(s, datagram);
    CascadeBound(s, ReceiveAndEnd(datagram), 0);
    SocketCascade(s, ReceiveAndEnd(datagram), 0);
    SelectNone<Message>(HasIndex(0));
    SelectAppend(HasIndex(0), [], m);
    assert [] + [m] == [m];
  }

  lemma WitnessCalm(s: System, payload: seq<byte>)
    requires s.Shaped()
    ensures CalmFor(SendAndEnd(payload), 0)
    ensures Exec(s, SendAndEnd(payload)).Shaped()
    ensures Exec(s, SendAndEnd(payload)).View(0) ==
            s.View(0).Next(SocketWake).Next(SocketWrite(SendPending)).Next(SocketWrite(SendOk(|payload|)))
             .Next(SocketWrite(SendPending))
  {
    hide SocketView.Next;
    var steps := SendAndEnd(payload);
    FourSteps(s, steps[0], steps[1], steps[2], steps[3]);
  }

  // ---- The tunnel, once its sockets are gone ----

  function Rank(ws: WriteState): nat {
    match ws
    case Recv => 0
    case Write(_) => 2
    case Flush => 1
    case Stop => 0
  }

  /** Write calls the tunnel can still make: three per queued message. */
  function TunnelWork(t: TunnelState): nat {
    3 * |t.rx.queue| + Rank(t.ws)
  }

  /** The call takes a message, or the connection accepts it. */
  predicate TunnelProgress(t: TunnelState, step: Step) {
    step.WriteStep? && t.phase.Writing? && (t.ws.Recv? || step.a.IoOk?)
  }

  /** A write call that gets through, or that finds the tunnel stopped already. */
  predicate TunnelServed(t: TunnelState, step: Step) {
    TunnelProgress(t, step) || (step.WriteStep? && !t.phase.Live())
  }

  /** The connection neither fails nor ends. */
  predicate TunnelCalm(step: Step) {
    && (step.WriteStep? ==> !step.a.IoErr?)
    && (step.ReadStep? ==> !step.r.closed && !step.a.IoErr?)
  }

  lemma {:induction false} PollNextOpen(io: Io, chunks: seq<seq<byte>>)
    ensures var (c, end) := io.PollNext(chunks, false); c.Pending? || (c.Ready? && c.value.Some?)
    decreases |chunks|
  {
    if io.Decode().0.None? && chunks != [] {
      PollNextOpen(io.Decode().1.Fed(chunks[0]), chunks[1..]);
    }
  }

  lemma WriteStepWork(t: TunnelState, a: IoAnswer)
    requires t.WriterReady() && t.phase.Writing? && t.rx.senders == {}
    ensures var t' := t.Next(WriteStep(a));
            && (t'.phase.Live() ==>
                  TunnelWork(t') + (if TunnelProgress(t, WriteStep(a)) then 1 else 0) <= TunnelWork(t))
            && t'.pongs == t.pongs
            && (!a.IoErr? ==> t'.phase.Live() || t'.phase == Finished(ChannelClosed))
  {
  }

  lemma HandleWork(t: TunnelState, m: Message, a: IoAnswer)
    requires t.WriterReady()
    ensures var (c, t') := t.Handle(m, a);
            && t.pongs <= t'.pongs && TunnelWork(t') <= TunnelWork(t) + 2 * (t'.pongs - t.pongs)
            && (!a.IoErr? ==> c == Ready(ReadContinue))
  {
  }

  lemma ReadStepWork(t: TunnelState, r: ReadAnswer, a: IoAnswer)
    requires t.WriterReady() && t.phase.Reading?
    ensures var t' := t.Next(ReadStep(r, a));
            && t.pongs <= t'.pongs
            && (t'.phase.Live() ==> TunnelWork(t') <= TunnelWork(t) + 2 * (t'.pongs - t.pongs))
            && (!r.closed && !a.IoErr? ==> t'.phase.Live())
  {
    PollNextOpen(t.io, r.chunks);
    var (c, io) := t.io.PollNext(r.chunks, r.closed);
    if c.Ready? && c.value.Some? {
      HandleWork(t.(io := io), c.value.value, a);
      HandleSeen(t.(io := io), c.value.value, a);
    }
  }

  lemma TunnelStepWork(t: TunnelState, step: Step)
    requires t.Ok() && t.rx.senders == {}
    ensures var t' := t.Next(step);
            && t.pongs <= t'.pongs
            && (t'.phase.Live() ==>
                  && t.phase.Live()
                  && TunnelWork(t') + (if TunnelServed(t, step) then 1 else 0)
                     <= TunnelWork(t) + 2 * (t'.pongs - t.pongs))
            && (TunnelCalm(step) && (t.phase.Live() || t.phase == Finished(ChannelClosed)) ==>
                  t'.phase.Live() || t'.phase == Finished(ChannelClosed))
  {
    if step.WriteStep? && t.phase.Writing? {
      WriteStepWork(t, step.a);
    } else if step.ReadStep? && t.phase.Reading? {
      ReadStepWork(t, step.r, step.a);
    }
  }

  /** How often a run serves the tunnel. */
  function TunnelServings(s: System, steps: seq<SystemStep>): nat
    decreases |steps|
  {
    if steps == [] then 0
    else
      var front, last := steps[..|steps| - 1], steps[|steps| - 1];
      TunnelServings(s, front) +
      (if last.OfTunnel? && TunnelServed(Exec(s, front).tunnel, last.t) then 1 else 0)
  }

  predicate ConnectionCalm(steps: seq<SystemStep>) {
    forall step | step in steps :: step.OfTunnel? ==> TunnelCalm(step.t)
  }

  /** Dead sockets stay dead and silent. */
  lemma DeadSocketStep(s: System, i: byte, step: SocketStep)
    requires s.Ok() && s.LiveSockets() == {}
    ensures s.Next(OfSocket(i, step)) == s
  {
    if i < SOCKET_POOL_SIZE {
      IsLive(s, i);
      OwnView(s, i);
      SocketStepSeen(s.View(i), step);
      assert s.tunnel.pool[i := s.tunnel.pool[i]] == s.tunnel.pool;
      assert s.socks[i := s.socks[i]] == s.socks;
    }
  }

  lemma {:induction false} DrainBound(s: System, steps: seq<SystemStep>)
    requires s.Ok() && s.LiveSockets() == {} && s.tunnel.phase.Live()
    ensures var e := Exec(s, steps);
            && e.Ok() && e.LiveSockets() == {} && s.tunnel.pongs <= e.tunnel.pongs
            && e.tunnel.rx.log == s.tunnel.rx.log
            && (e.tunnel.phase.Live() ==>
                  TunnelServings(s, steps) + TunnelWork(e.tunnel)
                  <= TunnelWork(s.tunnel) + 2 * (e.tunnel.pongs - s.tunnel.pongs))
            && (ConnectionCalm(steps) ==> e.tunnel.phase.Live() || e.tunnel.phase == Finished(ChannelClosed))
    decreases |steps|
  {
    if steps != [] {
      var front, last := steps[..|steps| - 1], steps[|steps| - 1];
      DrainBound(s, front);
      var mid := Exec(s, front);
      SystemStepOk(mid, last);
      match last
      case OfSocket(i, step) => DeadSocketStep(mid, i, step);
      case OfTunnel(step) =>
        TunnelStepSeen(mid.tunnel, step);
        TunnelStepWork(mid.tunnel, step);
    }
  }

  /** A run after the sockets' end that serves the tunnel more often than its potential, and
      twice more for each keep-alive it answers meanwhile, has ended it. */
  lemma TunnelEnds(s: System, steps: seq<SystemStep>)
    requires s.Ok() && s.LiveSockets() == {} && s.tunnel.phase.Live()
    ensures TunnelServings(s, steps) > TunnelWork(s.tunnel) + 2 * Invited(s, steps) ==>
              !Exec(s, steps).tunnel.phase.Live()
  {
    DrainBound(s, steps);
    InvitedCounted(s, steps);
  }

  /** Once all sockets are gone, a tunnel that has stopped without the connection failing or
      ending has put every message it was ever given on the wire, and flushed it. */
  lemma TunnelCascade(s: System, steps: seq<SystemStep>)
    requires s.Ok() && s.LiveSockets() == {} && s.tunnel.phase.Live()
    ensures var e := Exec(s, steps).tunnel;
            ConnectionCalm(steps) && !e.phase.Live() ==>
              e.phase == Finished(ChannelClosed) && e.rx.log == s.tunnel.rx.log && e.Flushed()
  {
    DrainBound(s, steps);
    ClosedIsFlushed(Exec(s, steps).tunnel);
  }

  lemma WaitsDrained(t: TunnelState)
    requires t.Ok() && t.phase.Live() && t.ws.Recv? && t.rx.queue == []
    ensures t.Drained()
  {
    assert t.WriterOk();
    assert t.io.wire + [] == t.io.wire;
  }

  lemma ClosedIsFlushed(t: TunnelState)
    requires t.Ok()
    ensures t.phase == Finished(ChannelClosed) ==> t.Flushed()
  {
    assert t.WriterOk() && t.OutboundOk();
    assert t.io.wire + [] == t.io.wire;
  }
}
