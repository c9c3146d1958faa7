/**
 The tunnel and its four sockets as one concurrent system. A run is any finite sequence of
 steps: each step is one call of a poll function by one task, with any answer from the
 outside, so every interleaving of the tasks is a run.
 */
module TunnelSystem {
  import opened Wrappers
  import opened Bytes
  import opened Framing
  import opened TunnelCodecs
  import opened FramedIo
  import opened Channels
  import opened Selection
  import opened TunnelTask
  import opened SocketTask
  import Runs

  const SOCKET_POOL_SIZE: nat := 4

  datatype SystemStep = OfTunnel(t: Step) | OfSocket(i: byte, s: SocketStep)

  datatype System = System(tunnel: TunnelState, socks: seq<SocketState>) {
    predicate Shaped() {
      |socks| == |tunnel.pool| == SOCKET_POOL_SIZE
    }

    function View(i: byte): SocketView
      requires Shaped() && i < SOCKET_POOL_SIZE
    {
      SocketView(socks[i], tunnel.pool[i], tunnel.rx)
    }

    function Put(i: byte, v: SocketView): System
      requires Shaped() && i < SOCKET_POOL_SIZE
    {
      System(tunnel.(rx := v.tunnel, pool := tunnel.pool[i := v.inbox]), socks[i := v.s])
    }

    function Next(step: SystemStep): (r: System)
      ensures Shaped() ==> r.Shaped()
    {
      match step
      case OfTunnel(t) => TunnelStepSeen(tunnel, t); this.(tunnel := tunnel.Next(t))
      case OfSocket(i, s) => if Shaped() && i < SOCKET_POOL_SIZE then Put(i, View(i).Next(s)) else this
    }

    /** The sockets that can still send to the tunnel. */
    function LiveSockets(): set<nat> {
      set i | 0 <= i < |socks| && socks[i].phase.Live()
    }

    ghost predicate Wired()
      requires Shaped()
    {
      && tunnel.rx.senders == LiveSockets()
      && (forall i: byte | i < SOCKET_POOL_SIZE :: tunnel.pool[i].senders == if tunnel.phase.Live() then {0} else {})
    }

    ghost predicate SocketOk(i: byte)
      requires Shaped() && i < SOCKET_POOL_SIZE
    {
      && socks[i].index == i
      && View(i).Ok()
      && Relayed(i, socks[i].got, tunnel.rx.log, tunnel.phase.Live())
      && (socks[i].phase == Finished(ChannelClosed) ==>
            !tunnel.phase.Live() && tunnel.pool[i].log == Select(HasIndex(i), tunnel.io.decoded))
    }

    ghost predicate Ok() {
      && Shaped()
      && tunnel.Ok()
      && Wired()
      && (forall m | m in tunnel.rx.log :: m.index < SOCKET_POOL_SIZE)
      && (forall i: byte | i < SOCKET_POOL_SIZE :: SocketOk(i))
    }
  }

  function Initial(): System {
    System(
      TunnelState(Recv, Idle, FreshIo(), 0, Chan([], [], {0, 1, 2, 3}, true),
                  seq(4, i => Chan([], [], {0}, true))),
      seq(4, (i: nat) => SocketState(if i < 4 then i else 0, SRecv, Idle, [], 0, [], [])))
  }

  /** The state after a run. */
  function Exec(s: System, steps: seq<SystemStep>): System {
    Runs.Run(SystemNext, s, steps)
  }

  function SystemNext(s: System, step: SystemStep): System {
    s.Next(step)
  }

  /** The messages socket `i` makes of the datagrams it received. */
  function Tagged(i: byte, got: seq<seq<byte>>): seq<Message> {
    if got == [] then [] else Tagged(i, got[..|got| - 1]) + [Message(i, Received(got[|got| - 1]))]
  }

  /** The log of the tunnel's channel holds what socket `i` received; all of it, while the
      tunnel is live. */
  ghost predicate Relayed(i: byte, got: seq<seq<byte>>, log: seq<Message>, live: bool) {
    && (live ==> Tagged(i, got) == Select(HasIndex(i), log))
    && Select(HasIndex(i), log) <= Tagged(i, got)
  }

  lemma RelayedOwn(i: byte, got: seq<seq<byte>>, log: seq<Message>, live: bool, bytes: seq<byte>)
    requires Relayed(i, got, log, live)
    ensures Relayed(i, got + [bytes], if live then log + [Message(i, Received(bytes))] else log, live)
  {
    SelectAppend(HasIndex(i), log, Message(i, Received(bytes)));
    assert (got + [bytes])[..|got|] == got;
  }

  lemma RelayedOther(j: byte, got: seq<seq<byte>>, log: seq<Message>, live: bool, m: Message)
    requires Relayed(j, got, log, live) && m.index != j
    ensures Relayed(j, got, log + [m], live)
  {
    SelectAppend(HasIndex(j), log, m);
  }

  // ---- A step of the tunnel, seen by the sockets ----

  /** `after` is `before` with messages added by its sender, if anybody is receiving. */
  ghost predicate Grown<T(!new)>(before: Chan<T>, after: Chan<T>) {
    && after.receiving == before.receiving
    && before.log <= after.log
    && after.queue == before.queue + after.log[|before.log|..]
    && (!before.receiving ==> after.log == before.log)
  }

  /** The tunnel only adds to the pool channels, and only takes from its own. */
  ghost predicate Seen(t: TunnelState, t': TunnelState) {
    && |t'.pool| == |t.pool|
    && (forall i | 0 <= i < |t.pool| ::
          && Grown(t.pool[i], t'.pool[i])
          && t'.pool[i].senders == (if t.phase.Live() && !t'.phase.Live() then t.pool[i].senders - {0}
                                    else t.pool[i].senders))
    && t'.rx.log == t.rx.log && t'.rx.senders == t.rx.senders
  }

  lemma RetireSeen(t: TunnelState, end: Phase)
    requires t.phase.Live() && !end.Live()
    ensures Seen(t, t.Retire(end))
  {
  }

  lemma PongSeen(t: TunnelState, a: IoAnswer)
    ensures var t' := t.Pong(a).1;
            t'.pool == t.pool && t'.phase == t.phase && t'.rx.log == t.rx.log && t'.rx.senders == t.rx.senders
  {
    WriteFrame(t.(ws := Write(Some(Message(KEEP_ALIVE, []))), pongs := t.pongs + 1), a);
  }

  lemma HandleSeen(t: TunnelState, m: Message, a: IoAnswer)
    ensures var t' := t.Handle(m, a).1; Seen(t, t') && t'.phase == t.phase
  {
    PongSeen(t, a);
  }

  lemma ReadSeen(t: TunnelState, r: ReadAnswer, a: IoAnswer)
    ensures var t' := t.PollRead(r, a).1; Seen(t, t') && t'.phase == t.phase
  {
    var (c, io) := t.io.PollNext(r.chunks, r.closed);
    if c.Ready? && c.value.Some? {
      HandleSeen(t.(io := io), c.value.value, a);
    }
  }

  lemma TunnelStepSeen(t: TunnelState, step: Step)
    ensures Seen(t, t.Next(step))
    ensures !t.phase.Live() ==> t.Next(step) == t
  {
    match step
    case Wake =>
    case WriteStep(a) =>
      WriteFrame(t, a);
      var t1 := t.PollWrite(a).1;
      if t.phase.Writing? && !t.Next(step).phase.Live() {
        RetireSeen(t1, t.Next(step).phase);
      }
    case ReadStep(r, a) =>
      ReadSeen(t, r, a);
      var t1 := t.PollRead(r, a).1;
      if t.phase.Reading? && !t.Next(step).phase.Live() {
        RetireSeen(t1, t.Next(step).phase);
      }
  }

  lemma TunnelStepKeepsSocket(s: System, step: Step, i: byte)
    requires s.Shaped() && i < SOCKET_POOL_SIZE && s.SocketOk(i)
    ensures s.Next(OfTunnel(step)).SocketOk(i)
  {
    TunnelStepSeen(s.tunnel, step);
    var before, after := s.tunnel.pool[i], s.Next(OfTunnel(step)).tunnel.pool[i];
    assert Grown(before, after);
    if s.socks[i].phase.Live() {
      assert s.socks[i].taken + after.queue == (s.socks[i].taken + before.queue) + after.log[|before.log|..];
    }
  }

  lemma TunnelStepKeepsOk(s: System, step: Step)
    requires s.Ok()
    ensures s.Next(OfTunnel(step)).Ok()
  {
    TunnelStepOk(s.tunnel, step);
    TunnelStepSeen(s.tunnel, step);
    forall i: byte | i < SOCKET_POOL_SIZE ensures s.Next(OfTunnel(step)).SocketOk(i) {
      TunnelStepKeepsSocket(s, step, i);
    }
  }

  // ---- A step of a socket, seen by the tunnel ----

  lemma SocketStepSeen(v: SocketView, step: SocketStep)
    requires v.Ok()
    ensures var v' := v.Next(step);
            && v'.s.index == v.s.index
            && v'.inbox.log == v.inbox.log && v'.inbox.senders == v.inbox.senders
            && (v'.inbox.receiving ==> v.inbox.receiving)
            && v'.tunnel.receiving == v.tunnel.receiving
            && v'.tunnel.senders == (if v.s.phase.Live() && !v'.s.phase.Live() then v.tunnel.senders - {v.s.index}
                                     else v.tunnel.senders)
            && (if step.SocketRead? && step.r.Datagram? && v.s.phase.Reading? then
                  var m := Message(v.s.index, Received(step.r.bytes));
                  && v'.s.got == v.s.got + [step.r.bytes]
                  && v'.tunnel.queue == v.tunnel.Send(m).queue && v'.tunnel.log == v.tunnel.Send(m).log
                else
                  v'.s.got == v.s.got && v'.tunnel.queue == v.tunnel.queue && v'.tunnel.log == v.tunnel.log)
            && (v'.s.phase == Finished(ChannelClosed) && v.s.phase.Live() ==>
                  v.inbox.senders == {} && v.inbox.receiving)
            && (!v.s.phase.Live() ==> v' == v)
  {
  }

  /** The sockets may take from the pool channels, leave, and send messages of their own. */
  lemma TunnelUndisturbed(t: TunnelState, t': TunnelState, m: Message, sent: bool)
    requires t.Ok() && IsData(m)
    requires t' == t.(rx := t'.rx, pool := t'.pool) && |t'.pool| == |t.pool|
    requires t'.rx.receiving == t.rx.receiving
    requires if sent then t'.rx.queue == t.rx.Send(m).queue && t'.rx.log == t.rx.Send(m).log
             else t'.rx.queue == t.rx.queue && t'.rx.log == t.rx.log
    requires forall i: byte | i < 4 :: t'.pool[i].log == t.pool[i].log && (t'.pool[i].receiving ==> t.pool[i].receiving)
    ensures t'.Ok()
  {
    hide Select, Drain, EncodeAll, SinkUsedWell;
    assert t'.HeldMessage() == t.HeldMessage();
    if t.phase.Live() && sent {
      var front := Select(IsData, t.io.started) + Select(IsData, t.HeldMessage());
      assert front + (t.rx.queue + [m]) == (front + t.rx.queue) + [m];
    }
    assert t'.OutboundOk();
    assert t'.WriterOk() && t'.PongsOk() && t'.PoolOk();
  }

  lemma SocketStepKeepsOthers(s: System, i: byte, j: byte, step: SocketStep)
    requires s.Ok() && i < SOCKET_POOL_SIZE && j < SOCKET_POOL_SIZE && i != j
    ensures s.Next(OfSocket(i, step)).SocketOk(j)
  {
    hide SocketView.Next, TunnelState.Ok, Relayed;
    OwnView(s, i);
    assert s.SocketOk(j);
    SocketStepSeen(s.View(i), step);
    if step.SocketRead? && step.r.Datagram? {
      var t, m := s.tunnel, Message(i, Received(step.r.bytes));
      RelayedOther(j, s.socks[j].got, t.rx.log, t.phase.Live(), m);
    }
  }

  lemma SocketStepKeepsOwn(s: System, i: byte, step: SocketStep)
    requires s.Ok() && i < SOCKET_POOL_SIZE
    ensures s.Next(OfSocket(i, step)).SocketOk(i)
  {
    hide SocketView.Next, SocketView.Ok, TunnelState.Ok, Relayed;
    OwnView(s, i);
    assert s.SocketOk(i);
    ChannelFacts(s);
    SocketStepSeen(s.View(i), step);
    SocketTask.SocketStepOk(s.View(i), step);
    assert s.Next(OfSocket(i, step)).View(i) == s.View(i).Next(step);
    if step.SocketRead? && step.r.Datagram? {
      RelayedOwn(i, s.socks[i].got, s.tunnel.rx.log, s.tunnel.phase.Live(), step.r.bytes);
    }
  }

  lemma ChannelFacts(s: System)
    requires s.Ok()
    ensures s.tunnel.phase.Live() <==> s.tunnel.rx.receiving
    ensures s.Wired() && s.tunnel.PoolOk()
  {
  }

  /** The live sockets after a step of socket `i`. */
  lemma LiveAfter(s: System, i: byte, v: SocketView)
    requires s.Shaped() && i < SOCKET_POOL_SIZE && (v.s.phase.Live() ==> s.socks[i].phase.Live())
    ensures s.Put(i, v).LiveSockets() == if v.s.phase.Live() then s.LiveSockets() else s.LiveSockets() - {i}
  {
  }

  lemma SocketStepKeepsWiring(s: System, i: byte, step: SocketStep)
    requires s.Ok() && i < SOCKET_POOL_SIZE
    ensures s.Next(OfSocket(i, step)).Wired()
  {
    hide SocketView.Next, System.LiveSockets, TunnelState.Ok, System.SocketOk;
    var v, v' := s.View(i), s.View(i).Next(step);
    OwnView(s, i);
    SocketStepSeen(v, step);
    LiveAfter(s, i, v');
    IsLive(s, i);
    var s' := s.Next(OfSocket(i, step));
    assert s' == s.Put(i, v');
    if !v.s.phase.Live() {
      assert s.LiveSockets() - {i as nat} == s.LiveSockets();
    }
    assert s'.tunnel.rx.senders == s'.LiveSockets();
  }

  lemma OwnView(s: System, i: byte)
    requires s.Ok() && i < SOCKET_POOL_SIZE
    ensures s.View(i).Ok() && s.socks[i].index == i
  {
    assert s.SocketOk(i);
  }

  lemma IsLive(s: System, i: byte)
    requires s.Shaped() && i < SOCKET_POOL_SIZE
    ensures (i as nat) in s.LiveSockets() <==> s.socks[i].phase.Live()
  {
  }

  lemma SocketStepKeepsIndices(s: System, i: byte, step: SocketStep)
    requires s.Ok() && i < SOCKET_POOL_SIZE
    ensures forall m | m in s.Next(OfSocket(i, step)).tunnel.rx.log :: m.index < SOCKET_POOL_SIZE
  {
    hide SocketView.Next, TunnelState.Ok, System.SocketOk;
    OwnView(s, i);
    SocketStepSeen(s.View(i), step);
  }

  lemma SocketStepKeepsTunnel(s: System, i: byte, step: SocketStep)
    requires s.Ok() && i < SOCKET_POOL_SIZE
    ensures s.Next(OfSocket(i, step)).tunnel.Ok()
  {
    hide SocketView.Next, TunnelState.Ok, System.SocketOk;
    OwnView(s, i);
    SocketStepSeen(s.View(i), step);
    var s' := s.Next(OfSocket(i, step));
    var sent := step.SocketRead? && step.r.Datagram? && s.socks[i].phase.Reading?;
    TunnelUndisturbed(s.tunnel, s'.tunnel, Message(i, if sent then Received(step.r.bytes) else []), sent);
  }

  lemma SystemStepOk(s: System, step: SystemStep)
    requires s.Ok()
    ensures s.Next(step).Ok()
  {
    match step
    case OfTunnel(t) => TunnelStepKeepsOk(s, t);
    case OfSocket(i, st) =>
      if i < SOCKET_POOL_SIZE {
        SocketStepKeepsTunnel(s, i, st);
        SocketStepKeepsWiring(s, i, st);
        SocketStepKeepsIndices(s, i, st);
        SocketStepKeepsOwn(s, i, st);
        forall j: byte | j < SOCKET_POOL_SIZE && j != i ensures s.Next(step).SocketOk(j) {
          SocketStepKeepsOthers(s, i, j, st);
        }
      }
  }

  // ---- Keep-alives met by a waiting writer ----

  /** The step reads a keep-alive while the writer waits for a message. */
  predicate Invites(t: TunnelState, step: Step) {
    && step.ReadStep? && t.phase.Reading? && t.ws.Recv?
    && var c := t.io.PollNext(step.r.chunks, step.r.closed).0;
       c.Ready? && c.value.Some? && IsPing(c.value.value)
  }

  /** How many steps of a run do. */
  function Invited(s: System, steps: seq<SystemStep>): nat
    decreases |steps|
  {
    if steps == [] then 0
    else
      var front, last := steps[..|steps| - 1], steps[|steps| - 1];
      Invited(s, front) + (if last.OfTunnel? && Invites(Exec(s, front).tunnel, last.t) then 1 else 0)
  }

  lemma StepInvites(t: TunnelState, step: Step)
    ensures t.Next(step).pongs == t.pongs + if Invites(t, step) then 1 else 0
  {
    if step.WriteStep? {
      WriteFrame(t, step.a);
    } else if step.ReadStep? {
      var io := t.io.PollNext(step.r.chunks, step.r.closed).1;
      WriteFrame(t.(io := io, ws := Write(Some(Message(KEEP_ALIVE, []))), pongs := t.pongs + 1), step.a);
    }
  }

  lemma {:induction false} InvitedCounted(s: System, steps: seq<SystemStep>)
    ensures Exec(s, steps).tunnel.pongs == s.tunnel.pongs + Invited(s, steps)
    decreases |steps|
  {
    if steps != [] {
      var front, last := steps[..|steps| - 1], steps[|steps| - 1];
      InvitedCounted(s, front);
      if last.OfTunnel? {
        StepInvites(Exec(s, front).tunnel, last.t);
      }
    }
  }

  // ---- Every run ----

  lemma {:induction false} ExecOk(s: System, steps: seq<SystemStep>)
    requires s.Ok()
    ensures Exec(s, steps).Ok()
    decreases |steps|
  {
    if steps != [] {
      ExecOk(s, steps[..|steps| - 1]);
      SystemStepOk(Exec(s, steps[..|steps| - 1]), steps[|steps| - 1]);
    }
  }

  lemma InitialOk()
    ensures Initial().Ok()
  {
    var s := Initial();
    assert s.tunnel.Ok();
    assert s.LiveSockets() == {0, 1, 2, 3};
  }

  /** The invariant holds in every reachable state. */
  lemma Reachable(steps: seq<SystemStep>)
    ensures Exec(Initial(), steps).Ok()
  {
    InitialOk();
    ExecOk(Initial(), steps);
  }
}
