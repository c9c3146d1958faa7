/**
 The pool socket task: sends the messages on its channel as datagrams to the local game
 client, and passes the datagrams it receives to the tunnel.
 */
module SocketTask {
  import opened Wrappers
  import opened Bytes
  import opened TunnelCodecs
  import opened Channels
  import opened TunnelTask
  import Runs

  datatype SocketWriteState = SRecv | SWrite(rest: seq<byte>) | SStop

  /** The local socket's answer to a send: `count` is how much of the buffer it took. */
  datatype SendAnswer = SendPending | SendOk(count: nat) | SendErr

  datatype RecvAnswer = RecvPending | Datagram(bytes: seq<byte>) | RecvErr

  /** Size of the buffer a datagram is read into; a longer one is cut off. */
  const READ_BUFFER_LENGTH: nat := 0x1_0000

  function Received(bytes: seq<byte>): seq<byte> {
    if |bytes| <= READ_BUFFER_LENGTH then bytes else bytes[..READ_BUFFER_LENGTH]
  }

  /** A socket. `taken` is every message it took off its channel, `completed` how many of them
      it sent to the end, `sent` every byte the local socket accepted, `got` every datagram
      received. */
  datatype SocketState = SocketState(
    index: byte,
    ws: SocketWriteState,
    phase: Phase,
    taken: seq<Message>,
    completed: nat,
    sent: seq<byte>,
    got: seq<seq<byte>>)
  {
    /** The part of the current message that is still to be sent. */
    function Rest(): seq<byte> {
      if ws.SWrite? then ws.rest else []
    }

    /** A send never reports more bytes than it was given. */
    function Sent(count: nat): (Call<SocketWriteState>, SocketState)
      requires ws.SWrite?
    {
      var n := if count <= |ws.rest| then count else |ws.rest|;
      var s := this.(sent := sent + ws.rest[..n]);
      if n != |ws.rest| then (Ready(SWrite(ws.rest[n..])), s) else (Ready(SRecv), s.(completed := completed + 1))
    }
  }

  /** A socket between its two channels: the one it receives from and the tunnel's. */
  datatype SocketView = SocketView(s: SocketState, inbox: Chan<Message>, tunnel: Chan<Message>) {
    function PollWrite(a: SendAnswer): (Call<SocketWriteState>, SocketView) {
      match s.ws
      case SRecv =>
        var (c, ch) := inbox.Recv();
        var v := this.(inbox := ch);
        (match c
         case Pending => (Pending, v)
         case Panicked => (Panicked, v)
         case Ready(Some(m)) => (Ready(SWrite(m.payload)), v.(s := s.(taken := s.taken + [m])))
         case Ready(None) => (Ready(SStop), v))
      case SWrite(rest) =>
        (match a
         case SendPending => (Pending, this)
         case SendErr => (Ready(SStop), this)
         case SendOk(count) => var (c, s') := s.Sent(count); (c, this.(s := s')))
      case SStop => (Panicked, this)
    }

    function PollRead(a: RecvAnswer): (Call<ReadState>, SocketView) {
      match a
      case RecvPending => (Pending, this)
      case RecvErr => (Ready(ReadStop), this)
      case Datagram(bytes) =>
        var m := Message(s.index, Received(bytes));
        (Ready(if tunnel.receiving then ReadContinue else ReadStop),
         this.(s := s.(got := s.got + [bytes]), tunnel := tunnel.Send(m)))
    }

    /** The task is dropped with its receiver and its end of the tunnel's channel. */
    function Retire(end: Phase): SocketView {
      SocketView(s.(phase := end), inbox.DropReceiver(), tunnel.DropSender(s.index))
    }

    function Next(step: SocketStep): SocketView {
      match step
      case SocketWake => if s.phase.Idle? then this.(s := s.(phase := Writing)) else this
      case SocketWrite(a) =>
        if !s.phase.Writing? then this
        else
          var (c, v) := PollWrite(a);
          (match c
           case Pending => v.(s := v.s.(phase := Reading))
           case Panicked => v.Retire(Crashed)
           case Ready(next) =>
             var v' := v.(s := v.s.(ws := next));
             if next.SStop? then v'.Retire(Finished(if s.ws.SRecv? then ChannelClosed else WriteFailed)) else v')
      case SocketRead(a) =>
        if !s.phase.Reading? then this
        else
          var (c, v) := PollRead(a);
          (match c
           case Pending => v.(s := v.s.(phase := Idle))
           case Panicked => v.Retire(Crashed)
           case Ready(ReadContinue) => v
           case Ready(ReadStop) => v.Retire(Finished(if a.RecvErr? then ReadEnded else TunnelGone)))
    }

    function Run(steps: seq<SocketStep>): SocketView {
      Runs.Run(SocketNext, this, steps)
    }

    /** What the socket's own half keeps: it sends the messages it took, in order and whole,
        and it takes exactly what was accepted into its channel. */
    ghost predicate Ok() {
      && !s.phase.Crashed?
      && (s.phase.Live() ==> !s.ws.SStop? && s.taken + inbox.queue == inbox.log)
      && (s.phase.Live() ==> s.sent + s.Rest() == Payloads(s.taken))
      && (s.phase.Live() ==> s.completed + (if s.ws.SWrite? then 1 else 0) == |s.taken|)
      && (s.phase == Finished(ChannelClosed) ==>
            s.taken == inbox.log && s.sent == Payloads(s.taken) && s.completed == |s.taken|)
      && s.taken <= inbox.log
      && s.sent <= Payloads(s.taken)
      && s.completed <= |s.taken|
      && (s.phase.Live() <==> inbox.receiving)
    }
  }

  datatype SocketStep = SocketWake | SocketWrite(a: SendAnswer) | SocketRead(r: RecvAnswer)

  function SocketNext(v: SocketView, step: SocketStep): SocketView {
    v.Next(step)
  }

  /** The local socket takes nothing of a message that is not empty; the call is made again. */
  predicate Stalls(v: SocketView, step: SocketStep) {
    step.SocketWrite? && v.s.phase.Writing? && v.s.ws.SWrite? && v.s.ws.rest != [] && step.a == SendOk(0)
  }

  /** How many steps of a run do that. */
  function StallCount(v: SocketView, steps: seq<SocketStep>): nat
    decreases |steps|
  {
    if steps == [] then 0
    else
      var front, last := steps[..|steps| - 1], steps[|steps| - 1];
      StallCount(v, front) + (if Stalls(v.Run(front), last) then 1 else 0)
  }

  lemma StallSnoc(v: SocketView, steps: seq<SocketStep>, step: SocketStep)
    ensures StallCount(v, steps + [step]) == StallCount(v, steps) + if Stalls(v.Run(steps), step) then 1 else 0
  {
    assert (steps + [step])[..|steps|] == steps;
  }

  function Payloads(ms: seq<Message>): seq<byte> {
    if ms == [] then [] else Payloads(ms[..|ms| - 1]) + ms[|ms| - 1].payload
  }

  lemma SocketWriteOk(v: SocketView, a: SendAnswer)
    requires v.s.phase.Writing? && v.Ok()
    ensures v.Next(SocketWrite(a)).Ok()
  {
    var v' := v.Next(SocketWrite(a));
    if v.s.ws.SRecv? && v.inbox.queue != [] {
      var m := v.inbox.queue[0];
      assert (v.s.taken + [m])[..|v.s.taken|] == v.s.taken;
      assert v.s.taken + [m] + v.inbox.queue[1..] == v.s.taken + v.inbox.queue;
      assert v.s.sent + [] == v.s.sent;
    } else if v.s.ws.SRecv? {
      assert v.s.taken + [] == v.s.taken && v.s.sent + [] == v.s.sent;
    } else if a.SendOk? {
      var rest := v.s.ws.rest;
      var n := if a.count <= |rest| then a.count else |rest|;
      assert v.s.sent + rest[..n] + rest[n..] == v.s.sent + rest;
    }
  }

  /** What a write call comes to, exactly. */
  lemma SocketWriteLaw(v: SocketView, a: SendAnswer)
    requires v.Ok() && v.s.phase.Writing?
    ensures var v' := v.Next(SocketWrite(a));
            && (v'.s.phase == Finished(WriteFailed) <==> v.s.ws.SWrite? && a.SendErr?)
            && (v'.s.phase == Finished(ChannelClosed) <==>
                  v.s.ws.SRecv? && v.inbox.queue == [] && v.inbox.senders == {})
            && (v'.s.phase == Reading <==>
                  if v.s.ws.SRecv? then v.inbox.queue == [] && v.inbox.senders != {} else a.SendPending?)
            && (v'.s.phase.Live() ==> v'.s.phase == Reading || v'.s.phase == Writing)
            && (v'.s.phase.Finished? ==> v'.s.phase in {Finished(WriteFailed), Finished(ChannelClosed)})
            && !v'.s.phase.Crashed?
            && (v'.s.phase == Writing ==>
                  match v.s.ws
                  case SRecv => v'.s.ws == SWrite(v.inbox.queue[0].payload) && v'.inbox.queue == v.inbox.queue[1..]
                  case SWrite(rest) =>
                    var n := if a.count <= |rest| then a.count else |rest|;
                    && v'.s.sent == v.s.sent + rest[..n]
                    && v'.s.ws == if n < |rest| then SWrite(rest[n..]) else SRecv
                  case SStop => false)
            && (v'.s.phase == Reading ==> v'.s.ws == v.s.ws)
  {
  }

  /** What a read call comes to, exactly: a datagram is passed on with the socket's index, up to
      65536 bytes of it, unless the tunnel is gone. */
  lemma SocketReadLaw(v: SocketView, r: RecvAnswer)
    requires v.Ok() && v.s.phase.Reading?
    ensures var v' := v.Next(SocketRead(r));
            && (v'.s.phase == Finished(ReadEnded) <==> r.RecvErr?)
            && (v'.s.phase == Finished(TunnelGone) <==> r.Datagram? && !v.tunnel.receiving)
            && (v'.s.phase == Idle <==> r.RecvPending?)
            && (v'.s.phase == Reading <==> r.Datagram? && v.tunnel.receiving)
            && v'.s.ws == v.s.ws
            && (v'.s.phase == Reading ==>
                  && |v'.tunnel.queue| == |v.tunnel.queue| + 1
                  && v'.tunnel.queue[..|v.tunnel.queue|] == v.tunnel.queue
                  && var m := v'.tunnel.queue[|v.tunnel.queue|];
                     && m.index == v.s.index
                     && m.payload == if |r.bytes| <= 65536 then r.bytes else r.bytes[..65536])
            && (v'.s.phase != Reading ==> v'.tunnel.queue == v.tunnel.queue)
  {
  }

  lemma SocketStepOk(v: SocketView, step: SocketStep)
    requires v.Ok()
    ensures v.Next(step).Ok()
  {
    if step.SocketWrite? && v.s.phase.Writing? {
      SocketWriteOk(v, step.a);
    }
  }
}
