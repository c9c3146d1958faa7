/**
 The UDP tunnel task. Unlike the TCP tunnel it has no flush state, its keep-alive reply
 replaces whatever the writer holds, and it takes a message out of its state before it
 knows that the socket accepts it.
 */
module UdpTask {
  import opened Wrappers
  import opened Bytes
  import opened Channels
  import opened Selection
  import opened TunnelTask
  import Runs

  datatype Packet =
    | Initiate(token: string)
    | Initiated(id: nat)
    | Forward(index: byte, message: seq<byte>)
    | KeepAlive

  datatype UdpWriteState = URecv | UWrite(message: Option<Packet>) | UStop

  /** Answers to `poll_send_ready` and to `poll_send`. */
  datatype ReadyAnswer = NotReady | IsReady | ReadyFailed
  datatype SendAnswer = NotSent | WasSent | SendFailed

  /** What a read finds: nothing yet (at readiness or at the read), an error of either,
      bytes that do not deserialize, or a packet. */
  datatype Arrival = Nothing | ReadFailed | Malformed | Arrived(p: Packet)

  /** Seconds without a keep-alive after which the connection is meant to count as dead. */
  const KEEP_ALIVE_TIMEOUT: int := 40

  /** What became of a message taken off the channel. */
  datatype Fate = Sent | Held | Overwritten | Unsent | Discarded

  function Minus(a: int, b: int): nat {
    if a > b then a - b else 0
  }

  /** The history of a run. `dequeued` is every message taken off the channel and `fates`
      what became of each; `sent` is every packet the socket accepted and
      `arrived` every packet read. `pings` counts the keep-alives received, `holes` the sends
      answered Pending after the socket was reported ready, `sendErrors` the sends that failed. */
  datatype Trace = Trace(
    dequeued: seq<Packet>,
    fates: seq<Fate>,
    sent: seq<Packet>,
    arrived: seq<Packet>,
    pings: nat,
    holes: nat,
    sendErrors: nat)
  {
    /** Is the fate of the message taken last still open? */
    predicate Deciding() {
      fates != [] && fates[|fates| - 1].Held?
    }

    function Mark(fate: Fate): Trace {
      if Deciding() then this.(fates := fates[|fates| - 1 := fate]) else this
    }

    function Take(m: Packet): Trace {
      this.(dequeued := dequeued + [m], fates := fates + [Held])
    }

    function Send(p: Packet): Trace {
      Mark(Fate.Sent).(sent := sent + [p])
    }

    function Lose(): Trace {
      Mark(Unsent).(holes := holes + 1)
    }

    function Fail(): Trace {
      this.(sendErrors := sendErrors + 1)
    }

    function Arrive(p: Packet): Trace {
      this.(arrived := arrived + [p])
    }

    function Ping(): Trace {
      Mark(Overwritten).(pings := pings + 1)
    }

    /** Every message taken has exactly one fate; only the last one can be open. What was
        sent, keep-alive replies aside, is the messages whose fate is `Sent`. */
    ghost predicate Consistent() {
      && |fates| == |dequeued|
      && (forall k | 0 <= k < |fates| :: fates[k].Held? ==> k == |fates| - 1)
      && Select(IsForward, sent) == Chosen(dequeued, fates)
    }

    ghost predicate LossesOk(discarded: nat) {
      && |fates| == |dequeued|
      && Count(fates, Overwritten) <= pings
      && Count(fates, Unsent) <= holes
      && Count(fates, Discarded) <= discarded
    }
  }

  datatype UdpState = UdpState(
    ws: UdpWriteState,
    phase: Phase,
    rx: Chan<Packet>,
    pool: seq<Chan<seq<byte>>>,
    now: int,
    lastKeepAlive: int,
    trace: Trace)
  {
    function PollWrite(ready: ReadyAnswer, send: SendAnswer): (Call<UdpWriteState>, UdpState) {
      match ws
      case URecv =>
        var (c, ch) := rx.Recv();
        var t := this.(rx := ch);
        (match c
         case Pending => (Pending, t)
         case Panicked => (Panicked, t)
         case Ready(None) => (Ready(UStop), t)
         case Ready(Some(m)) => (Ready(UWrite(Some(m))), t.(trace := trace.Take(m))))
      case UWrite(message) =>
        (match ready
         case NotReady => (Pending, this)
         case ReadyFailed => (Ready(UStop), this)
         case IsReady =>
           if message.None? then (Panicked, this)
           else
             match send
             case NotSent => (Pending, this.(ws := UWrite(None), trace := trace.Lose()))
             case SendFailed => (Panicked, this.(ws := UWrite(None), trace := trace.Fail()))
             case WasSent => (Ready(URecv), this.(ws := UWrite(None), trace := trace.Send(message.value))))
      case UStop => (Panicked, this)
    }

    function Deliver(index: byte, message: seq<byte>): UdpState {
      if index < |pool| then this.(pool := pool[index := pool[index].Send(message)]) else this
    }

    function Answering(): UdpState {
      this.(trace := trace.Ping(), lastKeepAlive := now, ws := UWrite(Some(KeepAlive)))
    }

    /** The reply replaces what the writer held, and is pushed through the writer at once. */
    function Pong(ready: ReadyAnswer, send: SendAnswer): (Call<ReadState>, UdpState) {
      var (c, t') := Answering().PollWrite(ready, send);
      match c
      case Pending => (Ready(ReadContinue), t')
      case Panicked => (Panicked, t')
      case Ready(next) => (Ready(if next.UStop? then ReadStop else ReadContinue), t'.(ws := next))
    }

    function Heard(p: Packet): UdpState {
      this.(trace := trace.Arrive(p))
    }

    function Handle(p: Packet, ready: ReadyAnswer, send: SendAnswer): (Call<ReadState>, UdpState) {
      match p
      case Forward(index, message) => (Ready(ReadContinue), Deliver(index, message))
      case KeepAlive => Pong(ready, send)
      case Initiate(_) => (Ready(ReadContinue), this)
      case Initiated(_) => (Ready(ReadContinue), this)
    }

    /** The liveness check: the difference is taken from the last keep-alive to now. */
    predicate CheckFails() {
      Minus(lastKeepAlive, now) > KEEP_ALIVE_TIMEOUT
    }

    function PollRead(tick: bool, arrival: Arrival, ready: ReadyAnswer, send: SendAnswer): (Call<ReadState>, UdpState) {
      if tick && CheckFails() then (Ready(ReadStop), this)
      else
        match arrival
        case Nothing => (Pending, this)
        case ReadFailed => (Ready(ReadStop), this)
        case Malformed => (Ready(ReadStop), this)
        case Arrived(p) => Heard(p).Handle(p, ready, send)
    }

    function Retire(end: Phase): UdpState {
      this.(phase := end,
            rx := rx.DropReceiver(),
            pool := seq(|pool|, i requires 0 <= i < |pool| => pool[i].DropSender(0)),
            trace := trace.Mark(Discarded))
    }

    function Next(step: UdpStep): UdpState {
      match step
      case UdpWake => if phase.Idle? then this.(phase := Writing) else this
      case UdpWrite(ready, send) =>
        if !phase.Writing? then this
        else
          var (c, t) := PollWrite(ready, send);
          if c.Pending? then t.(phase := Reading) else AfterUdpWrite(ws, c, t)
      case UdpRead(tick, arrival, ready, send) =>
        if !phase.Reading? then this
        else
          var (c, t) := PollRead(tick, arrival, ready, send);
          if c.Pending? then t.(phase := Idle) else AfterUdpRead(tick, this, c, t)
      case Enqueue(index, message) => this.(rx := rx.Send(Forward(index, message)))
      case SocketTakes(i) =>
        if i as int < |pool| then this.(pool := pool[i := pool[i].Recv().1]) else this
      case SocketGone(i) =>
        var t := this.(rx := rx.DropSender(i));
        if i as int < |pool| then t.(pool := pool[i := pool[i].DropReceiver()]) else t
      case Elapse(seconds) => this.(now := now + seconds)
    }

    function StopReason(tick: bool, t: UdpState): Why {
      if tick && CheckFails() then TimedOut else if t.ws.UStop? then WriteFailed else ReadEnded
    }

    // ---- What holds in every reachable state ----

    predicate HoldsForward() {
      ws.UWrite? && ws.message.Some? && ws.message.value.Forward?
    }

    /** Messages leave the channel in order. */
    ghost predicate QueueOk() {
      && (forall p | p in rx.log :: p.Forward?)
      && trace.dequeued <= rx.log
      && (phase.Live() ==> trace.dequeued + rx.queue == rx.log)
      && (phase == Finished(ChannelClosed) ==> trace.dequeued == rx.log)
      && (phase.Live() <==> rx.receiving)
    }

    /** An open fate is exactly that of the message the writer holds. */
    ghost predicate FatesOk() {
      && trace.Consistent()
      && (if phase.Live() then trace.Deciding() <==> HoldsForward() else !trace.Deciding())
      && (phase.Live() && HoldsForward() ==> ws.message.value == trace.dequeued[|trace.dequeued| - 1])
    }

    ghost predicate LossesOk() {
      trace.LossesOk(if phase.Live() then 0 else 1)
    }

    /** Each socket's channel got the payloads of exactly the packets addressed to it. */
    ghost predicate PoolOk() {
      && |pool| == 4
      && (forall i: byte | i < 4 ::
            && pool[i].log <= Addressed(i, trace.arrived)
            && (pool[i].receiving ==> pool[i].log == Addressed(i, trace.arrived)))
    }

    ghost predicate WriterOk() {
      && lastKeepAlive <= now
      && phase != Finished(TimedOut)
      && (phase.Live() ==> !ws.UStop? && (ws == UWrite(None) ==> trace.holes > 0))
      && (phase.Crashed? ==> trace.holes > 0 || trace.sendErrors > 0)
    }

    ghost predicate Ok() {
      QueueOk() && FatesOk() && LossesOk() && WriterOk() && PoolOk()
    }
  }

  datatype UdpStep =
    | UdpWake
    | UdpWrite(ready: ReadyAnswer, send: SendAnswer)
    | UdpRead(tick: bool, arrival: Arrival, ready: ReadyAnswer, send: SendAnswer)
    | Enqueue(index: byte, message: seq<byte>)
    | SocketTakes(i: byte)
    | SocketGone(i: byte)
    | Elapse(seconds: nat)

  predicate IsForward(p: Packet) {
    p.Forward?
  }

  /** The messages whose fate is `Sent`, in order. */
  function Chosen(ms: seq<Packet>, fates: seq<Fate>): seq<Packet>
    requires |fates| == |ms|
  {
    if ms == [] then []
    else
      var last := |ms| - 1;
      Chosen(ms[..last], fates[..last]) + (if fates[last].Sent? then [ms[last]] else [])
  }

  /** The payloads of the packets forwarded to socket `i`. */
  function Addressed(i: byte, arrived: seq<Packet>): seq<seq<byte>> {
    if arrived == [] then []
    else
      var front, last := Addressed(i, arrived[..|arrived| - 1]), arrived[|arrived| - 1];
      if last.Forward? && last.index == i then front + [last.message] else front
  }

  function Count(fates: seq<Fate>, f: Fate): nat {
    if fates == [] then 0
    else Count(fates[..|fates| - 1], f) + (if fates[|fates| - 1] == f then 1 else 0)
  }

  function UdpInitial(now: int): UdpState {
    UdpState(URecv, Idle, Chan([], [], {0, 1, 2, 3}, true), seq(4, i => Chan([], [], {0}, true)),
             now, now, Trace([], [], [], [], 0, 0, 0))
  }

  function UdpRun(t: UdpState, steps: seq<UdpStep>): UdpState {
    Runs.Run(UdpNext, t, steps)
  }

  function UdpNext(t: UdpState, step: UdpStep): UdpState {
    t.Next(step)
  }

  // ---- Every step keeps the invariant ----

  lemma Marked(t: Trace, fate: Fate)
    requires |t.fates| == |t.dequeued| && !fate.Held?
    ensures var t' := t.Mark(fate);
            && |t'.fates| == |t'.dequeued|
            && Chosen(t'.dequeued, t'.fates) ==
               Chosen(t.dequeued, t.fates) + (if t.Deciding() && fate.Sent? then [t.dequeued[|t.dequeued| - 1]] else [])
            && (forall f: Fate | !f.Held? ::
                  Count(t'.fates, f) == Count(t.fates, f) + if t.Deciding() && f == fate then 1 else 0)
  {
    if t.Deciding() {
      var last := |t.fates| - 1;
      assert t.Mark(fate).fates[..last] == t.fates[..last];
    }
  }

  lemma Took(t: Trace, m: Packet)
    requires |t.fates| == |t.dequeued|
    ensures var t' := t.Take(m);
            && Chosen(t'.dequeued, t'.fates) == Chosen(t.dequeued, t.fates)
            && (forall f: Fate | !f.Held? :: Count(t'.fates, f) == Count(t.fates, f))
  {
    assert (t.dequeued + [m])[..|t.dequeued|] == t.dequeued;
    assert (t.fates + [Held])[..|t.fates|] == t.fates;
  }

  lemma TakeConsistent(t: Trace, m: Packet)
    requires t.Consistent() && !t.Deciding()
    ensures t.Take(m).Consistent() && t.Take(m).Deciding()
  {
    Took(t, m);
  }

  /** A packet is sent from a consistent trace if it is the open message, or if it is no
      Forward and no message is open. */
  lemma SendConsistent(t: Trace, p: Packet)
    requires t.Consistent()
    requires t.Deciding() <==> p.Forward?
    requires t.Deciding() ==> p == t.dequeued[|t.dequeued| - 1]
    ensures t.Send(p).Consistent() && !t.Send(p).Deciding()
  {
    Marked(t, Fate.Sent);
    SelectAppend(IsForward, t.sent, p);
  }

  lemma MarkConsistent(t: Trace, fate: Fate)
    requires t.Consistent() && !fate.Held? && !fate.Sent?
    ensures t.Mark(fate).Consistent() && !t.Mark(fate).Deciding()
  {
    Marked(t, fate);
  }

  lemma MarkLosses(t: Trace, fate: Fate)
    requires t.LossesOk(0) && !fate.Held?
    ensures var t' := t.Mark(fate);
            && |t'.fates| == |t'.dequeued|
            && Count(t'.fates, Overwritten) <= t.pings + (if fate.Overwritten? then 1 else 0)
            && Count(t'.fates, Unsent) <= t.holes + (if fate.Unsent? then 1 else 0)
            && Count(t'.fates, Discarded) <= (if fate.Discarded? then 1 else 0)
  {
    Marked(t, fate);
  }

  function AfterUdpRead(tick: bool, before: UdpState, c: Call<ReadState>, t: UdpState): UdpState {
    match c
    case Pending => t
    case Panicked => t.Retire(Crashed)
    case Ready(ReadContinue) => t
    case Ready(ReadStop) => t.Retire(Finished(before.StopReason(tick, t)))
  }

  /** How the callers use the outcome of a write call. */
  function AfterUdpWrite(ws: UdpWriteState, c: Call<UdpWriteState>, t: UdpState): UdpState {
    match c
    case Pending => t
    case Panicked => t.Retire(Crashed)
    case Ready(next) =>
      if next.UStop? then t.(ws := UStop).Retire(Finished(if ws.URecv? then ChannelClosed else WriteFailed))
      else t.(ws := next)
  }

  // Messages leave the channel in order.

  lemma QueueWrite(t: UdpState, ready: ReadyAnswer, send: SendAnswer)
    requires t.phase.Live() && t.QueueOk()
    ensures var (c, t') := t.PollWrite(ready, send); AfterUdpWrite(t.ws, c, t').QueueOk() && t'.phase == t.phase
  {
    if t.ws.URecv? && t.rx.queue != [] {
      assert t.trace.dequeued + [t.rx.queue[0]] + t.rx.queue[1..] == t.trace.dequeued + t.rx.queue;
    } else if t.ws.URecv? {
      assert t.trace.dequeued + [] == t.trace.dequeued;
    }
  }

  lemma QueueHandle(t: UdpState, p: Packet, ready: ReadyAnswer, send: SendAnswer)
    requires t.phase.Live() && t.QueueOk()
    ensures t.Handle(p, ready, send).1.QueueOk() && t.Handle(p, ready, send).1.phase == t.phase
  {
  }

  lemma QueueRead(t: UdpState, tick: bool, arrival: Arrival, ready: ReadyAnswer, send: SendAnswer)
    requires t.phase.Live() && t.QueueOk()
    ensures var (c, t') := t.PollRead(tick, arrival, ready, send);
            AfterUdpRead(tick, t, c, t').QueueOk() && t'.phase == t.phase
  {
    if arrival.Arrived? {
      QueueHandle(t.Heard(arrival.p), arrival.p, ready, send);
    }
  }

  lemma QueueStep(t: UdpState, step: UdpStep)
    requires t.QueueOk()
    ensures t.Next(step).QueueOk()
  {
    hide UdpState.PollWrite, UdpState.PollRead;
    match step
    case UdpWake =>
    case UdpWrite(ready, send) =>
      if t.phase.Writing? {
        QueueWrite(t, ready, send);
      }
    case UdpRead(tick, arrival, ready, send) =>
      if t.phase.Reading? {
        QueueRead(t, tick, arrival, ready, send);
      }
    case Enqueue(index, message) =>
      SeqAssoc(t.trace.dequeued, t.rx.queue, [Forward(index, message)]);
    case SocketTakes(i) =>
    case SocketGone(i) =>
    case Elapse(seconds) =>
  }

  // Every message taken has one fate.

  lemma FatesRetire(t: UdpState, end: Phase)
    requires t.trace.Consistent() && !end.Live()
    ensures t.Retire(end).FatesOk()
  {
    MarkConsistent(t.trace, Discarded);
  }

  lemma FatesRecv(t: UdpState, ready: ReadyAnswer, send: SendAnswer)
    requires t.phase.Live() && t.QueueOk() && t.FatesOk() && t.ws.URecv?
    ensures var (c, t') := t.PollWrite(ready, send); AfterUdpWrite(t.ws, c, t').FatesOk()
  {
    if t.rx.queue != [] {
      TakeConsistent(t.trace, t.rx.queue[0]);
      assert (t.trace.dequeued + t.rx.queue)[|t.trace.dequeued|] == t.rx.queue[0];
    } else if t.rx.senders == {} {
      FatesRetire(t.(ws := UStop), Finished(ChannelClosed));
    }
  }

  lemma FatesSend(t: UdpState, ready: ReadyAnswer, send: SendAnswer)
    requires t.phase.Live() && t.FatesOk() && t.ws.UWrite?
    ensures var (c, t') := t.PollWrite(ready, send); AfterUdpWrite(t.ws, c, t').FatesOk()
  {
    var (c, t') := t.PollWrite(ready, send);
    if c.Panicked? {
      FatesRetire(t', Crashed);
    } else if ready.ReadyFailed? {
      FatesRetire(t.(ws := UStop), Finished(WriteFailed));
    } else if ready.IsReady? && send.NotSent? {
      MarkConsistent(t.trace, Unsent);
    } else if ready.IsReady? {
      SendConsistent(t.trace, t.ws.message.value);
    }
  }

  lemma FatesWrite(t: UdpState, ready: ReadyAnswer, send: SendAnswer)
    requires t.phase.Live() && t.QueueOk() && t.FatesOk()
    ensures var (c, t') := t.PollWrite(ready, send); AfterUdpWrite(t.ws, c, t').FatesOk()
  {
    match t.ws
    case URecv => FatesRecv(t, ready, send);
    case UWrite(_) => FatesSend(t, ready, send);
    case UStop => FatesRetire(t, Crashed);
  }

  lemma FatesPong(t: UdpState, ready: ReadyAnswer, send: SendAnswer)
    requires t.phase.Live() && t.FatesOk()
    ensures var (c, t') := t.Pong(ready, send);
            !c.Pending? && t'.trace.Consistent() && (c == Ready(ReadContinue) ==> t'.FatesOk())
  {
    MarkConsistent(t.trace, Overwritten);
    var a := t.Answering();
    assert a.FatesOk();
    FatesSend(a, ready, send);
    var (c, t') := a.PollWrite(ready, send);
    if ready.IsReady? && send.NotSent? {
      MarkConsistent(a.trace, Unsent);
    } else if ready.IsReady? {
      SendConsistent(a.trace, KeepAlive);
    }
  }

  lemma FatesHandle(t: UdpState, p: Packet, ready: ReadyAnswer, send: SendAnswer)
    requires t.phase.Live() && t.FatesOk()
    ensures var (c, t') := t.Handle(p, ready, send);
            !c.Pending? && t'.trace.Consistent() && (c == Ready(ReadContinue) ==> t'.FatesOk())
  {
    FatesPong(t, ready, send);
  }

  lemma FatesRead(t: UdpState, tick: bool, arrival: Arrival, ready: ReadyAnswer, send: SendAnswer)
    requires t.phase.Live() && t.FatesOk()
    ensures var (c, t') := t.PollRead(tick, arrival, ready, send);
            t'.trace.Consistent() && (c.Pending? || c == Ready(ReadContinue) ==> t'.FatesOk())
  {
    if arrival.Arrived? {
      FatesHandle(t.Heard(arrival.p), arrival.p, ready, send);
    }
  }

  lemma FatesAfterRead(tick: bool, before: UdpState, c: Call<ReadState>, t: UdpState)
    requires t.trace.Consistent() && (c.Pending? || c == Ready(ReadContinue) ==> t.FatesOk())
    ensures AfterUdpRead(tick, before, c, t).FatesOk()
  {
    FatesRetire(t, if c.Panicked? then Crashed else Finished(before.StopReason(tick, t)));
  }

  lemma FatesStep(t: UdpState, step: UdpStep)
    requires t.QueueOk() && t.FatesOk()
    ensures t.Next(step).FatesOk()
  {
    if step.UdpWrite? && t.phase.Writing? {
      FatesWrite(t, step.ready, step.send);
    } else if step.UdpRead? && t.phase.Reading? {
      var (c, t') := t.PollRead(step.tick, step.arrival, step.ready, step.send);
      FatesRead(t, step.tick, step.arrival, step.ready, step.send);
      FatesAfterRead(step.tick, t, c, t');
    }
  }

  // Losses are bounded by what causes them.

  lemma LossesWrite(t: UdpState, ready: ReadyAnswer, send: SendAnswer)
    requires t.phase.Live() && t.LossesOk()
    ensures var (c, t') := t.PollWrite(ready, send); AfterUdpWrite(t.ws, c, t').LossesOk()
  {
    hide Count;
    var (c, t') := t.PollWrite(ready, send);
    if c.Panicked? || (c.Ready? && c.value.UStop?) {
      MarkLosses(t'.trace, Discarded);
    } else if t.ws.URecv? && t.rx.queue != [] {
      Took(t.trace, t.rx.queue[0]);
    } else if t.ws.UWrite? && ready.IsReady? {
      MarkLosses(t.trace, if send.NotSent? then Unsent else Fate.Sent);
    }
  }

  lemma LossesPong(t: UdpState, ready: ReadyAnswer, send: SendAnswer)
    requires t.phase.Live() && t.LossesOk()
    ensures var t' := t.Pong(ready, send).1; t'.trace.LossesOk(0) && t'.phase == t.phase
  {
    MarkLosses(t.trace, Overwritten);
    if ready.IsReady? {
      MarkLosses(t.Answering().trace, if send.NotSent? then Unsent else Fate.Sent);
    }
  }

  lemma LossesHandle(t: UdpState, p: Packet, ready: ReadyAnswer, send: SendAnswer)
    requires t.phase.Live() && t.LossesOk()
    ensures var t' := t.Handle(p, ready, send).1; t'.trace.LossesOk(0) && t'.phase == t.phase
  {
    LossesPong(t, ready, send);
  }

  lemma LossesRead(t: UdpState, tick: bool, arrival: Arrival, ready: ReadyAnswer, send: SendAnswer)
    requires t.phase.Live() && t.LossesOk()
    ensures var t' := t.PollRead(tick, arrival, ready, send).1; t'.trace.LossesOk(0) && t'.phase == t.phase
  {
    if arrival.Arrived? {
      LossesHandle(t.Heard(arrival.p), arrival.p, ready, send);
    }
  }

  lemma LossesAfterRead(tick: bool, before: UdpState, c: Call<ReadState>, t: UdpState)
    requires t.trace.LossesOk(0) && t.phase.Live()
    ensures AfterUdpRead(tick, before, c, t).LossesOk()
  {
    MarkLosses(t.trace, Discarded);
  }

  lemma LossesStep(t: UdpState, step: UdpStep)
    requires t.LossesOk()
    ensures t.Next(step).LossesOk()
  {
    if step.UdpWrite? && t.phase.Writing? {
      LossesWrite(t, step.ready, step.send);
    } else if step.UdpRead? && t.phase.Reading? {
      var (c, t') := t.PollRead(step.tick, step.arrival, step.ready, step.send);
      LossesRead(t, step.tick, step.arrival, step.ready, step.send);
      LossesAfterRead(step.tick, t, c, t');
    }
  }

  // The writer and the clock.

  lemma WriterWrite(t: UdpState, ready: ReadyAnswer, send: SendAnswer)
    requires t.phase.Live() && t.WriterOk()
    ensures var (c, t') := t.PollWrite(ready, send);
            AfterUdpWrite(t.ws, c, t').WriterOk() && (c.Pending? ==> t'.phase == t.phase)
  {
  }

  lemma WriterHandle(t: UdpState, p: Packet, ready: ReadyAnswer, send: SendAnswer)
    requires t.phase.Live() && t.WriterOk()
    ensures var (c, t') := t.Handle(p, ready, send);
            && t'.phase == t.phase && t'.lastKeepAlive <= t'.now
            && (!c.Panicked? ==> t'.(ws := if c == Ready(ReadStop) then URecv else t'.ws).WriterOk())
            && (c.Panicked? ==> t'.trace.holes > 0 || t'.trace.sendErrors > 0)
  {
    WriterWrite(t.Answering(), ready, send);
  }

  lemma WriterStep(t: UdpState, step: UdpStep)
    requires t.WriterOk()
    ensures t.Next(step).WriterOk()
  {
    match step
    case UdpWake =>
    case UdpWrite(ready, send) =>
      if t.phase.Writing? {
        WriterWrite(t, ready, send);
      }
    case UdpRead(_, arrival, ready, send) =>
      if t.phase.Reading? && arrival.Arrived? {
        WriterHandle(t.Heard(arrival.p), arrival.p, ready, send);
      }
    case Enqueue(index, message) =>
    case SocketTakes(i) =>
    case SocketGone(i) =>
    case Elapse(seconds) =>
  }

  // What is read goes to the socket it is addressed to.

  lemma PoolWrite(t: UdpState, ready: ReadyAnswer, send: SendAnswer)
    ensures var t' := t.PollWrite(ready, send).1;
            t'.pool == t.pool && t'.trace.arrived == t.trace.arrived
  {
  }

  lemma PoolRetire(t: UdpState, end: Phase)
    requires t.PoolOk()
    ensures t.Retire(end).PoolOk()
  {
    var t' := t.Retire(end);
    assert forall i: byte | i < 4 :: t'.pool[i].log == t.pool[i].log && t'.pool[i].receiving == t.pool[i].receiving;
  }

  lemma AddressedNext(i: byte, arrived: seq<Packet>, p: Packet)
    ensures Addressed(i, arrived + [p]) ==
            Addressed(i, arrived) + (if p.Forward? && p.index == i then [p.message] else [])
  {
    assert (arrived + [p])[..|arrived|] == arrived;
  }

  lemma PoolPong(t: UdpState, ready: ReadyAnswer, send: SendAnswer)
    ensures var t' := t.Pong(ready, send).1; t'.pool == t.pool && t'.trace.arrived == t.trace.arrived
  {
    PoolWrite(t.Answering(), ready, send);
  }

  lemma PoolHeard(t: UdpState, p: Packet, ready: ReadyAnswer, send: SendAnswer)
    requires t.PoolOk()
    ensures t.Heard(p).Handle(p, ready, send).1.PoolOk()
  {
    PoolPong(t.Heard(p), ready, send);
    forall i: byte | i < 4
      ensures Addressed(i, t.Heard(p).trace.arrived) ==
              Addressed(i, t.trace.arrived) + (if p.Forward? && p.index == i then [p.message] else [])
    {
      AddressedNext(i, t.trace.arrived, p);
    }
  }

  lemma PoolRead(t: UdpState, tick: bool, arrival: Arrival, ready: ReadyAnswer, send: SendAnswer)
    requires t.PoolOk()
    ensures t.PollRead(tick, arrival, ready, send).1.PoolOk()
  {
    hide UdpState.Handle;
    if arrival.Arrived? {
      PoolHeard(t, arrival.p, ready, send);
    }
  }

  lemma PoolStep(t: UdpState, step: UdpStep)
    requires t.PoolOk()
    ensures t.Next(step).PoolOk()
  {
    if step.UdpWrite? && t.phase.Writing? {
      PoolWrite(t, step.ready, step.send);
      var t' := t.PollWrite(step.ready, step.send).1;
      PoolRetire(t'.(ws := UStop), t.Next(step).phase);
      PoolRetire(t', Crashed);
    } else if step.UdpRead? && t.phase.Reading? {
      PoolRead(t, step.tick, step.arrival, step.ready, step.send);
      PoolRetire(t.PollRead(step.tick, step.arrival, step.ready, step.send).1, t.Next(step).phase);
    }
  }

  /** Every step of the UDP tunnel, of its sockets on the channels and of the clock keeps the invariant. */
  lemma UdpStepOk(t: UdpState, step: UdpStep)
    requires t.Ok()
    ensures t.Next(step).Ok()
  {
    QueueStep(t, step);
    FatesStep(t, step);
    LossesStep(t, step);
    WriterStep(t, step);
    PoolStep(t, step);
  }

  lemma {:induction false} UdpReachable(now: int, steps: seq<UdpStep>)
    ensures UdpRun(UdpInitial(now), steps).Ok()
    decreases |steps|
  {
    if steps != [] {
      UdpReachable(now, steps[..|steps| - 1]);
      UdpStepOk(UdpRun(UdpInitial(now), steps[..|steps| - 1]), steps[|steps| - 1]);
    }
  }
}
