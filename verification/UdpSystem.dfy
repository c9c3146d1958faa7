/**
 The UDP tunnel and its four sockets as one concurrent system. The sockets are the machine of
 the TCP tunnel's; only the values on the channels differ, so a socket sees the payloads in its
 channel and the packets in the tunnel's as messages. What a socket does on the channels is in
 turn a step of the tunnel's machine, so every run of the system is one of that machine too.
 */
module UdpSystems {
  import opened Bytes
  import opened Channels
  import opened Selection
  import opened TunnelCodecs
  import opened TunnelTask
  import opened SocketTask
  import opened TunnelSystem
  import opened TunnelGuarantees
  import opened TunnelShutdown
  import opened UdpTask
  import opened UdpGuarantees
  import Runs

  // ---- Channels as a socket sees them ----

  function Tags(i: byte, payloads: seq<seq<byte>>): seq<Message> {
    seq(|payloads|, k requires 0 <= k < |payloads| => Message(i, payloads[k]))
  }

  /** Only messages to forward are ever in the tunnel's channel. */
  function Unwrapped(packets: seq<Packet>): seq<Message> {
    seq(|packets|, k requires 0 <= k < |packets| => match packets[k]
                                                    case Forward(index, message) => Message(index, message)
                                                    case _ => Message(0, []))
  }

  function InboxOf(i: byte, ch: Chan<seq<byte>>): Chan<Message> {
    Chan(Tags(i, ch.queue), Tags(i, ch.log), ch.senders, ch.receiving)
  }

  function OutboxOf(ch: Chan<Packet>): Chan<Message> {
    Chan(Unwrapped(ch.queue), Unwrapped(ch.log), ch.senders, ch.receiving)
  }

  // ---- The system ----

  datatype UdpSystemStep = OfUdpTunnel(t: UdpStep) | OfUdpSocket(i: byte, s: SocketStep)

  /** The steps of the tunnel task and of the clock. */
  predicate IsOwn(t: UdpStep) {
    t.UdpWake? || t.UdpWrite? || t.UdpRead? || t.Elapse?
  }

  predicate Takes(v: SocketView, step: SocketStep) {
    step.SocketWrite? && v.s.phase.Writing? && v.s.ws.SRecv? && v.inbox.queue != []
  }

  predicate Passes(v: SocketView, step: SocketStep) {
    step.SocketRead? && v.s.phase.Reading? && step.r.Datagram?
  }

  predicate Ends(v: SocketView, step: SocketStep) {
    v.s.phase.Live() && !v.Next(step).s.phase.Live()
  }

  /** What a step of socket `i` does on the channels. */
  function ChannelSteps(i: byte, v: SocketView, step: SocketStep): seq<UdpStep> {
    (if Takes(v, step) then [SocketTakes(i)] else []) +
    (if Passes(v, step) then [Enqueue(i, Received(step.r.bytes))] else []) +
    (if Ends(v, step) then [SocketGone(i)] else [])
  }

  datatype UdpSystem = UdpSystem(tunnel: UdpState, socks: seq<SocketState>) {
    predicate Shaped() {
      |socks| == |tunnel.pool| == SOCKET_POOL_SIZE
    }

    function View(i: byte): SocketView
      requires Shaped() && i < SOCKET_POOL_SIZE
    {
      SocketView(socks[i], InboxOf(i, tunnel.pool[i]), OutboxOf(tunnel.rx))
    }

    function Effects(step: UdpSystemStep): seq<UdpStep> {
      match step
      case OfUdpTunnel(t) => if IsOwn(t) then [t] else []
      case OfUdpSocket(i, s) => if Shaped() && i < SOCKET_POOL_SIZE then ChannelSteps(i, View(i), s) else []
    }

    function Next(step: UdpSystemStep): UdpSystem {
      UdpSystem(
        UdpRun(tunnel, Effects(step)),
        if step.OfUdpSocket? && Shaped() && step.i < SOCKET_POOL_SIZE then
          socks[step.i := View(step.i).Next(step.s).s]
        else socks)
    }

    ghost predicate SocketOk(i: byte)
      requires Shaped() && i < SOCKET_POOL_SIZE
    {
      && socks[i].index == i
      && View(i).Ok()
      && tunnel.pool[i].senders == (if tunnel.phase.Live() then {0} else {})
      && Relayed(i, socks[i].got, Unwrapped(tunnel.rx.log), tunnel.phase.Live())
    }

    ghost predicate Ok() {
      && Shaped()
      && tunnel.Ok()
      && (forall i: byte | i < SOCKET_POOL_SIZE :: SocketOk(i))
    }
  }

  function UdpStart(now: int): UdpSystem {
    UdpSystem(UdpInitial(now),
              seq(4, (i: nat) => SocketState(if i < 4 then i else 0, SRecv, Idle, [], 0, [], [])))
  }

  function UdpSystemNext(s: UdpSystem, step: UdpSystemStep): UdpSystem {
    s.Next(step)
  }

  function UdpExec(s: UdpSystem, steps: seq<UdpSystemStep>): UdpSystem {
    Runs.Run(UdpSystemNext, s, steps)
  }

  // ---- A run of the system is a run of the tunnel's machine ----

  function Projected(s: UdpSystem, steps: seq<UdpSystemStep>): seq<UdpStep>
    decreases |steps|
  {
    if steps == [] then []
    else
      var front, last := steps[..|steps| - 1], steps[|steps| - 1];
      Projected(s, front) + UdpExec(s, front).Effects(last)
  }

  lemma {:induction false} RunProjected(s: UdpSystem, steps: seq<UdpSystemStep>)
    ensures UdpExec(s, steps).tunnel == UdpRun(s.tunnel, Projected(s, steps))
    decreases |steps|
  {
    if steps != [] {
      var front, last := steps[..|steps| - 1], steps[|steps| - 1];
      RunProjected(s, front);
      Runs.RunConcat(UdpNext, s.tunnel, Projected(s, front), UdpExec(s, front).Effects(last));
    }
  }

  lemma {:induction false} RunOk(t: UdpState, steps: seq<UdpStep>)
    requires t.Ok()
    ensures UdpRun(t, steps).Ok()
    decreases |steps|
  {
    if steps != [] {
      RunOk(t, steps[..|steps| - 1]);
      UdpStepOk(UdpRun(t, steps[..|steps| - 1]), steps[|steps| - 1]);
    }
  }

  // ---- A step of the tunnel, seen by the sockets ----

  /** The tunnel only adds to the pool channels, and drops its ends of them when it ends. */
  ghost predicate UdpSeen(t: UdpState, t': UdpState) {
    && |t'.pool| == |t.pool|
    && (forall i | 0 <= i < |t.pool| ::
          && Grown(t.pool[i], t'.pool[i])
          && t'.pool[i].senders == (if t.phase.Live() && !t'.phase.Live() then t.pool[i].senders - {0}
                                    else t.pool[i].senders))
    && t'.rx.log == t.rx.log
    && (t'.phase.Live() ==> t.phase.Live())
  }

  lemma UdpRetireSeen(t: UdpState, end: Phase)
    requires t.phase.Live() && !end.Live()
    ensures UdpSeen(t, t.Retire(end)) && t.Retire(end).phase == end
  {
  }

  lemma UdpHandleSeen(t: UdpState, p: Packet, ready: ReadyAnswer, send: UdpTask.SendAnswer)
    ensures var t' := t.Heard(p).Handle(p, ready, send).1; UdpSeen(t, t') && t'.phase == t.phase
  {
    PoolWrite(t.Heard(p).Answering(), ready, send);
  }

  lemma UdpReadSeen(t: UdpState, tick: bool, arrival: Arrival, ready: ReadyAnswer, send: UdpTask.SendAnswer)
    ensures var t' := t.PollRead(tick, arrival, ready, send).1; UdpSeen(t, t') && t'.phase == t.phase
  {
    hide UdpState.Handle;
    if arrival.Arrived? {
      UdpHandleSeen(t, arrival.p, ready, send);
    }
  }

  lemma WriteSeen(t: UdpState, ready: ReadyAnswer, send: UdpTask.SendAnswer)
    ensures var t' := t.PollWrite(ready, send).1;
            t'.pool == t.pool && t'.rx.log == t.rx.log && t'.phase == t.phase
  {
  }

  lemma UdpStepSeen(t: UdpState, step: UdpStep)
    requires IsOwn(step)
    ensures UdpSeen(t, t.Next(step))
    ensures !t.phase.Live() ==> t.Next(step) == t.(now := t.Next(step).now)
  {
    match step
    case UdpWake =>
    case Elapse(_) =>
    case UdpWrite(ready, send) =>
      hide UdpState.Retire;
      WriteSeen(t, ready, send);
      var t1 := t.PollWrite(ready, send).1;
      if t.phase.Writing? && !t.Next(step).phase.Live() {
        UdpRetireSeen(t1, t.Next(step).phase);
      }
    case UdpRead(tick, arrival, ready, send) =>
      hide UdpState.PollRead, UdpState.Retire;
      if t.phase.Reading? {
        UdpReadSeen(t, tick, arrival, ready, send);
        var t1 := t.PollRead(tick, arrival, ready, send).1;
        if !t.Next(step).phase.Live() {
          UdpRetireSeen(t1, t.Next(step).phase);
        }
      }
  }

  lemma GrownInbox(i: byte, before: Chan<seq<byte>>, after: Chan<seq<byte>>)
    requires Grown(before, after)
    ensures Grown(InboxOf(i, before), InboxOf(i, after))
  {
    var more := after.log[|before.log|..];
    assert Tags(i, after.queue) == Tags(i, before.queue) + Tags(i, more);
    assert Tags(i, after.log)[|before.log|..] == Tags(i, more);
    assert Tags(i, after.log)[..|before.log|] == Tags(i, before.log);
  }

  lemma GrownOk(v: SocketView, v': SocketView)
    requires v.Ok() && v'.s == v.s && Grown(v.inbox, v'.inbox)
    ensures v'.Ok()
  {
    if v.s.phase.Live() {
      var more := v'.inbox.log[|v.inbox.log|..];
      assert v.s.taken + v'.inbox.queue == (v.s.taken + v.inbox.queue) + more;
    }
  }

  lemma UdpTunnelStepOk(s: UdpSystem, t: UdpStep)
    requires s.Ok()
    ensures s.Next(OfUdpTunnel(t)).Ok()
  {
    hide UdpState.Next, UdpState.Ok;
    var s' := s.Next(OfUdpTunnel(t));
    if IsOwn(t) {
      Runs.RunSnoc(UdpNext, s.tunnel, [], t);
      assert [] + [t] == [t];
      UdpStepOk(s.tunnel, t);
      UdpStepSeen(s.tunnel, t);
      forall i: byte | i < SOCKET_POOL_SIZE ensures s'.SocketOk(i) {
        assert s.SocketOk(i);
        GrownInbox(i, s.tunnel.pool[i], s'.tunnel.pool[i]);
        GrownOk(s.View(i), s'.View(i));
      }
    } else {
      assert s' == s;
    }
  }

  // ---- A step of a socket, seen by the tunnel ----

  /** The tunnel after the three things a socket can do on the channels. */
  function Disturbed(t: UdpState, i: byte, v: SocketView, step: SocketStep): UdpState {
    var t1 := if Takes(v, step) then t.Next(SocketTakes(i)) else t;
    var t2 := if Passes(v, step) then t1.Next(Enqueue(i, Received(step.r.bytes))) else t1;
    if Ends(v, step) then t2.Next(SocketGone(i)) else t2
  }

  lemma RunOne(t: UdpState, step: UdpStep)
    ensures UdpRun(t, [step]) == t.Next(step) && UdpRun(t, []) == t
  {
    Runs.RunSnoc(UdpNext, t, [], step);
    assert [] + [step] == [step];
  }

  lemma EffectsDisturb(t: UdpState, i: byte, v: SocketView, step: SocketStep)
    ensures UdpRun(t, ChannelSteps(i, v, step)) == Disturbed(t, i, v, step)
  {
    hide UdpState.Next;
    var a := if Takes(v, step) then [SocketTakes(i)] else [];
    var b := if Passes(v, step) then [Enqueue(i, Received(step.r.bytes))] else [];
    var c := if Ends(v, step) then [SocketGone(i)] else [];
    Runs.RunConcat(UdpNext, t, a + b, c);
    Runs.RunConcat(UdpNext, t, a, b);
    RunOne(t, SocketTakes(i));
    var t1 := UdpRun(t, a);
    if step.SocketRead? && step.r.Datagram? {
      RunOne(t1, Enqueue(i, Received(step.r.bytes)));
    }
    RunOne(t1, SocketTakes(i));
    RunOne(UdpRun(t1, b), SocketGone(i));
  }

  /** `t'` and `v'` are again the tunnel and the same socket's view of it, one step later. */
  ghost predicate Tracks(t: UdpState, i: byte, v: SocketView, step: SocketStep, t': UdpState, v': SocketView)
    requires |t.pool| == SOCKET_POOL_SIZE && i < SOCKET_POOL_SIZE
  {
    && |t'.pool| == |t.pool|
    && v'.inbox == InboxOf(i, t'.pool[i]) && v'.tunnel == OutboxOf(t'.rx) && v'.s.index == i
    && (forall j | 0 <= j < |t.pool| && j != i as int :: t'.pool[j] == t.pool[j])
    && t'.pool[i].senders == t.pool[i].senders
    && t'.phase == t.phase && t'.rx.receiving == t.rx.receiving && t'.trace == t.trace
    && t'.rx.log == (if Passes(v, step) && t.rx.receiving then
                       t.rx.log + [Forward(i, Received(step.r.bytes))] else t.rx.log)
    && v'.s.got == (if Passes(v, step) then v.s.got + [step.r.bytes] else v.s.got)
    && (!v.s.phase.Live() ==> v' == v)
  }

  /** What a socket does on the channels is what the machine says it does. */
  lemma DisturbedView(t: UdpState, i: byte, v: SocketView, step: SocketStep)
    requires |t.pool| == SOCKET_POOL_SIZE && i < SOCKET_POOL_SIZE
    requires v.inbox == InboxOf(i, t.pool[i]) && v.tunnel == OutboxOf(t.rx) && v.s.index == i
    ensures Tracks(t, i, v, step, Disturbed(t, i, v, step), v.Next(step))
  {
    match step
    case SocketWake =>
    case SocketWrite(a) => WriteDisturbs(t, i, v, a);
    case SocketRead(r) => ReadDisturbs(t, i, v, r);
  }

  lemma WriteDisturbs(t: UdpState, i: byte, v: SocketView, a: SocketTask.SendAnswer)
    requires |t.pool| == SOCKET_POOL_SIZE && i < SOCKET_POOL_SIZE
    requires v.inbox == InboxOf(i, t.pool[i]) && v.tunnel == OutboxOf(t.rx) && v.s.index == i
    ensures var step := SocketWrite(a); Tracks(t, i, v, step, Disturbed(t, i, v, step), v.Next(step))
  {
    hide InboxOf, OutboxOf, Chan.Recv;
    InboxMoves(i, t.pool[i]);
    OutboxMoves(i, t.rx, []);
    RecvOutcome(v.inbox);
    RecvOutcome(t.pool[i]);
  }

  lemma ReadDisturbs(t: UdpState, i: byte, v: SocketView, r: RecvAnswer)
    requires |t.pool| == SOCKET_POOL_SIZE && i < SOCKET_POOL_SIZE
    requires v.inbox == InboxOf(i, t.pool[i]) && v.tunnel == OutboxOf(t.rx) && v.s.index == i
    ensures var step := SocketRead(r); Tracks(t, i, v, step, Disturbed(t, i, v, step), v.Next(step))
  {
    hide InboxOf, OutboxOf, Received;
    InboxMoves(i, t.pool[i]);
    OutboxMoves(i, t.rx, []);
    if r.Datagram? {
      OutboxMoves(i, t.rx, Received(r.bytes));
      OutboxMoves(i, t.rx.Send(Forward(i, Received(r.bytes))), []);
    }
  }

  lemma RecvOutcome<T>(ch: Chan<T>)
    ensures var (c, ch') := ch.Recv();
            && ch'.senders == ch.senders && ch'.receiving == ch.receiving && ch'.log == ch.log
            && (ch.queue == [] ==> ch' == ch && !(c.Ready? && c.value.Some?))
            && (ch.queue != [] ==> c.Ready? && c.value.Some?)
            && !c.Panicked?
  {
  }

  /** Taking from a channel and leaving it are the same seen either way. */
  lemma InboxMoves(i: byte, ch: Chan<seq<byte>>)
    ensures InboxOf(i, ch.Recv().1) == InboxOf(i, ch).Recv().1
    ensures InboxOf(i, ch).queue == [] <==> ch.queue == []
    ensures InboxOf(i, ch.DropReceiver()) == InboxOf(i, ch).DropReceiver()
  {
    if ch.queue != [] {
      assert Tags(i, ch.queue[1..]) == Tags(i, ch.queue)[1..];
    }
    assert Tags(i, []) == [];
  }

  /** So is sending. */
  lemma OutboxMoves(i: byte, ch: Chan<Packet>, bytes: seq<byte>)
    ensures OutboxOf(ch.Send(Forward(i, bytes))) == OutboxOf(ch).Send(Message(i, bytes))
    ensures OutboxOf(ch.DropSender(i)) == OutboxOf(ch).DropSender(i)
    ensures OutboxOf(ch).receiving == ch.receiving
  {
    var p, m := Forward(i, bytes), Message(i, bytes);
    assert Unwrapped(ch.queue + [p]) == Unwrapped(ch.queue) + [m];
    assert Unwrapped(ch.log + [p]) == Unwrapped(ch.log) + [m];
  }

  lemma SocketMoves(s: UdpSystem, i: byte, step: SocketStep)
    requires s.Shaped() && i < SOCKET_POOL_SIZE && s.socks[i].index == i
    ensures var s' := s.Next(OfUdpSocket(i, step));
            && s'.tunnel == Disturbed(s.tunnel, i, s.View(i), step)
            && s'.Shaped() && s'.View(i) == s.View(i).Next(step)
            && forall j: byte | j < SOCKET_POOL_SIZE && j != i :: s'.socks[j] == s.socks[j]
  {
    hide SocketView.Next, Disturbed, ChannelSteps;
    EffectsDisturb(s.tunnel, i, s.View(i), step);
    DisturbedView(s.tunnel, i, s.View(i), step);
  }

  lemma UdpSocketStepOk(s: UdpSystem, i: byte, step: SocketStep)
    requires s.Ok() && i < SOCKET_POOL_SIZE
    ensures s.Next(OfUdpSocket(i, step)).Ok()
  {
    hide SocketView.Next, SocketView.Ok, Disturbed, ChannelSteps, Relayed, UdpState.Ok;
    var s', v := s.Next(OfUdpSocket(i, step)), s.View(i);
    assert s.SocketOk(i);
    RunOk(s.tunnel, s.Effects(OfUdpSocket(i, step)));
    SocketMoves(s, i, step);
    DisturbedView(s.tunnel, i, v, step);
    SocketTask.SocketStepOk(v, step);
    LiveReceives(s.tunnel);
    var log, live := Unwrapped(s.tunnel.rx.log), s.tunnel.phase.Live();
    if Passes(v, step) {
      var m := Message(i, Received(step.r.bytes));
      RelayedOwn(i, s.socks[i].got, log, live, step.r.bytes);
      assert Unwrapped(s.tunnel.rx.log + [Forward(i, m.payload)]) == log + [m];
    }
    forall j: byte | j < SOCKET_POOL_SIZE ensures s'.SocketOk(j) {
      assert s.SocketOk(j);
      if j != i {
        if Passes(v, step) {
          RelayedOther(j, s.socks[j].got, log, live, Message(i, Received(step.r.bytes)));
        }
        OkOfParts(s.View(j), s'.View(j));
      }
    }
  }

  lemma OkOfParts(v: SocketView, v': SocketView)
    requires v'.s == v.s && v'.inbox == v.inbox
    ensures v.Ok() ==> v'.Ok()
  {
  }

  lemma LiveReceives(t: UdpState)
    requires t.Ok()
    ensures t.phase.Live() <==> t.rx.receiving
  {
  }

  /** Any step of any of the five tasks keeps the invariant of all of them. */
  lemma UdpSystemStepOk(s: UdpSystem, step: UdpSystemStep)
    requires s.Ok()
    ensures s.Next(step).Ok()
  {
    match step
    case OfUdpTunnel(t) => UdpTunnelStepOk(s, t);
    case OfUdpSocket(i, st) =>
      if i < SOCKET_POOL_SIZE {
        UdpSocketStepOk(s, i, st);
      } else {
        assert s.Next(step) == s;
      }
  }

  lemma {:induction false} UdpExecOk(s: UdpSystem, steps: seq<UdpSystemStep>)
    requires s.Ok()
    ensures UdpExec(s, steps).Ok()
    decreases |steps|
  {
    if steps != [] {
      UdpExecOk(s, steps[..|steps| - 1]);
      UdpSystemStepOk(UdpExec(s, steps[..|steps| - 1]), steps[|steps| - 1]);
    }
  }

  /** The invariant of tunnel, sockets and channels holds in every reachable state. */
  lemma UdpSystemReachable(now: int, steps: seq<UdpSystemStep>)
    ensures UdpExec(UdpStart(now), steps).Ok()
  {
    UdpReachable(now, []);
    UdpExecOk(UdpStart(now), steps);
  }

  // ---- From datagrams to the server ----

  lemma {:induction false} SubsequenceOfMore<T>(a: seq<T>, b: seq<T>, more: seq<T>)
    requires IsSubsequence(a, b)
    ensures IsSubsequence(a, b + more)
    decreases |more|
  {
    if more == [] {
      assert b + more == b;
    } else {
      SubsequenceOfMore(a, b, more[..|more| - 1]);
      assert (b + more)[..|b + more| - 1] == b + more[..|more| - 1];
    }
  }

  lemma {:induction false} SubsequenceSelected(i: byte, a: seq<Packet>, b: seq<Packet>)
    requires IsSubsequence(a, b)
    ensures IsSubsequence(Select(HasIndex(i), Unwrapped(a)), Select(HasIndex(i), Unwrapped(b)))
    decreases |b|
  {
    if a == [] {
      assert Unwrapped(a) == [];
    } else {
      var a', b' := a[..|a| - 1], b[..|b| - 1];
      UnwrappedSnoc(i, a);
      UnwrappedSnoc(i, b);
      var x, y := Select(HasIndex(i), Unwrapped(a')), Select(HasIndex(i), Unwrapped(b'));
      var last := Unwrapped(b)[|b| - 1];
      if a[|a| - 1] == b[|b| - 1] && IsSubsequence(a', b') {
        SubsequenceSelected(i, a', b');
        if last.index == i {
          assert (x + [last])[..|x|] == x && (y + [last])[..|y|] == y;
        }
      } else {
        SubsequenceSelected(i, a, b');
        if last.index == i {
          SubsequenceOfMore(Select(HasIndex(i), Unwrapped(a)), y, [last]);
        }
      }
    }
  }

  lemma UnwrappedSnoc(i: byte, ps: seq<Packet>)
    requires ps != []
    ensures var front, last := Unwrapped(ps[..|ps| - 1]), Unwrapped(ps)[|ps| - 1];
            Select(HasIndex(i), Unwrapped(ps)) ==
            if last.index == i then Select(HasIndex(i), front) + [last] else Select(HasIndex(i), front)
  {
    var front, last := Unwrapped(ps[..|ps| - 1]), Unwrapped(ps)[|ps| - 1];
    assert Unwrapped(ps) == front + [last];
    SelectAppend(HasIndex(i), front, last);
  }

  lemma UnwrappedConcat(i: byte, a: seq<Packet>, b: seq<Packet>)
    ensures Select(HasIndex(i), Unwrapped(a + b)) ==
            Select(HasIndex(i), Unwrapped(a)) + Select(HasIndex(i), Unwrapped(b))
  {
    assert Unwrapped(a + b) == Unwrapped(a) + Unwrapped(b);
    SelectConcat(HasIndex(i), Unwrapped(a), Unwrapped(b));
  }

  /** What the tunnel sent for socket `i` is part of the datagrams that socket received, in order.
      While the tunnel runs, and no keep-alive overwrote a message and no send left one unsent,
      what it sent, holds and has queued for the socket are all of them. */
  lemma UdpOutboundEndToEnd(now: int, steps: seq<UdpSystemStep>, i: byte)
    requires i < SOCKET_POOL_SIZE
    ensures var e, run := UdpExec(UdpStart(now), steps), Projected(UdpStart(now), steps);
            var mine := HasIndex(i);
            var forwarded := Select(mine, Unwrapped(Select(IsForward, e.tunnel.trace.sent)));
            && e.Shaped()
            && IsSubsequence(forwarded, Tagged(i, e.socks[i].got))
            && (e.tunnel.phase.Live() && Occurrences(UdpInitial(now), run, Overwrites) == 0 &&
                Occurrences(UdpInitial(now), run, Drops) == 0 ==>
                  forwarded + Select(mine, Unwrapped(HeldForward(e.tunnel))) +
                  Select(mine, Unwrapped(e.tunnel.rx.queue)) == Tagged(i, e.socks[i].got))
  {
    var e, run := UdpExec(UdpStart(now), steps), Projected(UdpStart(now), steps);
    UdpSystemReachable(now, steps);
    RunProjected(UdpStart(now), steps);
    assert e.SocketOk(i) && e.tunnel == UdpAfter(now, run);
    UdpAccounting(now, run);
    NothingLostIff(now, run);
    FatesCounted(now, run);
    ClosedDiscardsNothing(now, run);
    var sent, log := Select(IsForward, e.tunnel.trace.sent), e.tunnel.rx.log;
    SentIsPart(i, sent, e.tunnel.trace.dequeued, log, Tagged(i, e.socks[i].got));
    UnwrappedConcat(i, sent + HeldForward(e.tunnel), e.tunnel.rx.queue);
    UnwrappedConcat(i, sent, HeldForward(e.tunnel));
  }

  lemma SentIsPart(i: byte, sent: seq<Packet>, dequeued: seq<Packet>, log: seq<Packet>, datagrams: seq<Message>)
    requires IsSubsequence(sent, dequeued) && dequeued <= log
    requires Select(HasIndex(i), Unwrapped(log)) <= datagrams
    ensures IsSubsequence(Select(HasIndex(i), Unwrapped(sent)), datagrams)
  {
    SubsequenceOfMore(sent, dequeued, log[|dequeued|..]);
    assert dequeued + log[|dequeued|..] == log;
    SubsequenceSelected(i, sent, log);
    var mine := Select(HasIndex(i), Unwrapped(log));
    SubsequenceOfMore(Select(HasIndex(i), Unwrapped(sent)), mine, datagrams[|mine|..]);
    assert mine + datagrams[|mine|..] == datagrams;
  }

  // ---- From the server to the game ----

  lemma {:induction false} TagsPayloads(i: byte, payloads: seq<seq<byte>>)
    ensures Payloads(Tags(i, payloads)) == Concat(payloads)
    decreases |payloads|
  {
    if payloads != [] {
      var front, last := payloads[..|payloads| - 1], payloads[|payloads| - 1];
      TagsPayloads(i, front);
      assert Tags(i, payloads)[..|payloads| - 1] == Tags(i, front);
      ConcatAppend(front, [last]);
      assert front + [last] == payloads;
      assert Concat([last]) == last + [] == last;
    }
  }

  /** While a socket runs, what it has sent, still holds and has queued are the payloads the
      server addressed to it, in order and whole. */
  lemma UdpInboundEndToEnd(now: int, steps: seq<UdpSystemStep>, i: byte)
    requires i < SOCKET_POOL_SIZE
    ensures var e := UdpExec(UdpStart(now), steps);
            && e.Shaped()
            && (e.socks[i].phase.Live() ==>
                  e.socks[i].sent + e.socks[i].Rest() + Concat(e.tunnel.pool[i].queue) ==
                  Concat(Addressed(i, e.tunnel.trace.arrived)))
  {
    UdpSystemReachable(now, steps);
    var e := UdpExec(UdpStart(now), steps);
    assert e.SocketOk(i) && e.tunnel.PoolOk();
    var queue := e.tunnel.pool[i].queue;
    TagsPayloads(i, queue);
    TagsPayloads(i, e.tunnel.pool[i].log);
    PayloadsConcat(e.socks[i].taken, Tags(i, queue));
  }

  // ---- Once the tunnel is gone ----

  predicate UdpInterrupted(s: UdpSystem, steps: seq<UdpSystemStep>, i: byte)
    requires i < SOCKET_POOL_SIZE
    decreases |steps|
  {
    steps != [] &&
    var front, last := steps[..|steps| - 1], steps[|steps| - 1];
    var mid := UdpExec(s, front);
    || UdpInterrupted(s, front, i)
    || (last.OfUdpSocket? && last.i == i && mid.Shaped() && Interrupts(mid.View(i), last.s))
  }

  lemma OthersKeepView(s: UdpSystem, step: UdpSystemStep, i: byte)
    requires s.Ok() && !s.tunnel.phase.Live() && i < SOCKET_POOL_SIZE
    requires step.OfUdpSocket? ==> step.i != i
    ensures var s' := s.Next(step);
            && s'.Shaped() && s'.View(i).s == s.View(i).s && s'.View(i).inbox == s.View(i).inbox
            && s'.tunnel.phase == s.tunnel.phase && s'.tunnel.trace == s.tunnel.trace
  {
    hide SocketView.Next, Disturbed, ChannelSteps, UdpState.Next;
    match step
    case OfUdpTunnel(t) =>
      if IsOwn(t) {
        RunOne(s.tunnel, t);
        UdpStepSeen(s.tunnel, t);
      }
    case OfUdpSocket(j, st) =>
      if j < SOCKET_POOL_SIZE {
        assert s.SocketOk(j);
        SocketMoves(s, j, st);
        DisturbedView(s.tunnel, j, s.View(j), st);
      }
  }

  lemma OwnMovesView(s: UdpSystem, i: byte, step: SocketStep)
    requires s.Ok() && !s.tunnel.phase.Live() && i < SOCKET_POOL_SIZE
    ensures var s', v := s.Next(OfUdpSocket(i, step)), s.View(i);
            && v.Ok() && v.inbox.senders == {} && !v.tunnel.receiving
            && s'.Shaped() && s'.View(i) == v.Next(step)
            && s'.tunnel.phase == s.tunnel.phase && s'.tunnel.trace == s.tunnel.trace
            && v.Next(step).inbox.log == v.inbox.log
            && (!v.s.phase.Live() ==> v.Next(step) == v)
  {
    hide SocketView.Next, Disturbed, ChannelSteps, UdpState.Next;
    assert s.SocketOk(i);
    LiveReceives(s.tunnel);
    SocketMoves(s, i, step);
    DisturbedView(s.tunnel, i, s.View(i), step);
    SocketStepSeen(s.View(i), step);
  }

  /** Once the tunnel is gone, a socket that has stopped has sent everything the server addressed
      to it, whole, if and only if no socket error and no datagram interrupted it with something
      left. */
  lemma {:induction false} UdpSocketCascade(s: UdpSystem, steps: seq<UdpSystemStep>, i: byte)
    requires s.Ok() && !s.tunnel.phase.Live() && i < SOCKET_POOL_SIZE
    requires s.socks[i].phase.Live()
    ensures var e := UdpExec(s, steps);
            && e.Ok() && e.tunnel.phase == s.tunnel.phase && e.tunnel.trace == s.tunnel.trace
            && (e.socks[i].phase.Live() ==>
                  !UdpInterrupted(s, steps, i) && e.tunnel.pool[i].log == s.tunnel.pool[i].log)
            && (!e.socks[i].phase.Live() ==>
                  (AllSent(e.socks[i], Tags(i, Addressed(i, s.tunnel.trace.arrived))) <==>
                   !UdpInterrupted(s, steps, i)))
    decreases |steps|
  {
    hide UdpSystem.Next, SocketView.Next, AllSent, Interrupts;
    AddressedLog(s, i);
    if steps != [] {
      var front, last := steps[..|steps| - 1], steps[|steps| - 1];
      var mid := UdpExec(s, front);
      UdpSocketCascade(s, front, i);
      UdpSystemStepOk(mid, last);
      if last.OfUdpSocket? && last.i == i {
        OwnMovesView(mid, i, last.s);
        if mid.socks[i].phase.Live() {
          AddressedLog(mid, i);
          SocketStopsIff(mid.View(i), last.s);
        } else {
          DeadNotInterrupted(mid.View(i), last.s);
        }
      } else {
        OthersKeepView(mid, last, i);
      }
    }
  }

  lemma DeadNotInterrupted(v: SocketView, step: SocketStep)
    requires !v.s.phase.Live()
    ensures !Interrupts(v, step)
  {
  }

  /** A running socket's channel got exactly what the server addressed to it. */
  lemma AddressedLog(s: UdpSystem, i: byte)
    requires s.Ok() && i < SOCKET_POOL_SIZE && s.socks[i].phase.Live()
    ensures InboxOf(i, s.tunnel.pool[i]).log == Tags(i, Addressed(i, s.tunnel.trace.arrived))
  {
    assert s.SocketOk(i) && s.tunnel.PoolOk();
  }
}
