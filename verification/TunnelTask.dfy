/**
 The TCP tunnel task: takes messages off its channel, writes them to the server connection,
 flushes, and hands what it reads to the socket pool.
 */
module TunnelTask {
  import opened Wrappers
  import opened Bytes
  import opened Framing
  import opened TunnelCodecs
  import opened FramedIo
  import opened Channels
  import opened Selection
  import Runs

  datatype WriteState = Recv | Write(message: Option<Message>) | Flush | Stop

  datatype ReadState = ReadContinue | ReadStop

  /** Why a task's future completed. */
  datatype Why = ChannelClosed | WriteFailed | ReadEnded | TunnelGone | TimedOut

  /** Where a task is: between polls, in the write loop or the read loop of a poll,
      completed, or unwound by a panic. */
  datatype Phase = Idle | Writing | Reading | Finished(why: Why) | Crashed {
    predicate Live() {
      Idle? || Writing? || Reading?
    }
  }

  /** The tunnel with the channels it holds ends of. `pongs` counts the keep-alives that
      arrived while the writer was waiting for a message. */
  datatype TunnelState = TunnelState(
    ws: WriteState,
    phase: Phase,
    io: Io,
    pongs: nat,
    rx: Chan<Message>,
    pool: seq<Chan<Message>>)
  {
    function TakeMessage(): (Call<WriteState>, TunnelState) {
      var (c, ch) := rx.Recv();
      var t := this.(rx := ch);
      match c
      case Pending => (Pending, t)
      case Panicked => (Panicked, t)
      case Ready(Some(m)) => (Ready(Write(Some(m))), t)
      case Ready(None) => (Ready(Stop), t)
    }

    function WriteMessage(message: Option<Message>, a: IoAnswer): (Call<WriteState>, TunnelState) {
      var (c, io') := io.PollReady(a);
      match c
      case Pending => (Pending, this.(io := io'))
      case Panicked => (Panicked, this.(io := io'))
      case Ready(false) => (Ready(Stop), this.(io := io'))
      case Ready(true) =>
        if message.None? then (Panicked, this.(io := io'))
        else (Ready(Flush), this.(io := io'.Start(message.value), ws := Write(None)))
    }

    function FlushMessages(a: IoAnswer): (Call<WriteState>, TunnelState) {
      var (c, io') := io.PollFlush(a);
      var t := this.(io := io');
      match c
      case Pending => (Pending, t)
      case Panicked => (Panicked, t)
      case Ready(ok) => (Ready(if ok then Recv else Stop), t)
    }

    function PollWrite(a: IoAnswer): (Call<WriteState>, TunnelState) {
      match ws
      case Recv => TakeMessage()
      case Write(message) => WriteMessage(message, a)
      case Flush => FlushMessages(a)
      case Stop => (Panicked, this)
    }

    /** A keep-alive is answered only when the writer is waiting for a message, and the
        answer is pushed through the writer at once. */
    function Pong(a: IoAnswer): (Call<ReadState>, TunnelState) {
      if !ws.Recv? then
        (Ready(ReadContinue), this)
      else
        var (c, t) := this.(ws := Write(Some(Message(KEEP_ALIVE, []))), pongs := pongs + 1).PollWrite(a);
        match c
        case Pending => (Ready(ReadContinue), t)
        case Panicked => (Panicked, t)
        case Ready(next) => (Ready(if next.Stop? then ReadStop else ReadContinue), t.(ws := next))
    }

    /** Hands a message to the socket with its index, if there is one. */
    function Deliver(m: Message): TunnelState {
      if m.index < |pool| then this.(pool := pool[m.index := pool[m.index].Send(m)]) else this
    }

    function Handle(m: Message, a: IoAnswer): (Call<ReadState>, TunnelState) {
      if m.index == KEEP_ALIVE then Pong(a) else (Ready(ReadContinue), Deliver(m))
    }

    function PollRead(r: ReadAnswer, a: IoAnswer): (Call<ReadState>, TunnelState) {
      var (c, io') := io.PollNext(r.chunks, r.closed);
      var t := this.(io := io');
      match c
      case Pending => (Pending, t)
      case Panicked => (Panicked, t)
      case Ready(None) => (Ready(ReadStop), t)
      case Ready(Some(m)) => t.Handle(m, a)
    }

    /** The task is dropped: its receiver and its ends of the pool channels go with it. */
    function Retire(end: Phase): TunnelState {
      this.(phase := end,
            rx := rx.DropReceiver(),
            pool := seq(|pool|, i requires 0 <= i < |pool| => pool[i].DropSender(0)))
    }

    function Next(step: Step): TunnelState {
      match step
      case Wake => if phase.Idle? then this.(phase := Writing) else this
      case WriteStep(a) =>
        if !phase.Writing? then this
        else
          var (c, t) := PollWrite(a);
          if c.Pending? then t.(phase := Reading) else AfterWrite(ws, c, t)
      case ReadStep(r, a) =>
        if !phase.Reading? then this
        else
          var (c, t) := PollRead(r, a);
          if c.Pending? then t.(phase := Idle) else AfterRead(c, t)
    }

    function Run(steps: seq<Step>): TunnelState {
      Runs.Run(TunnelNext, this, steps)
    }

    // ---- What holds in every reachable state ----

    /** The message taken off the channel or placed as a keep-alive reply, not yet started. */
    function HeldMessage(): seq<Message> {
      if ws.Write? && ws.message.Some? then [ws.message.value] else []
    }

    /** The keep-alive replies started or held. */
    function Placed(): seq<Message> {
      Select(IsPing, io.started) + Select(IsPing, HeldMessage())
    }

    /** Outside a poll, and between the steps of one. */
    predicate WriterReady() {
      ws.Recv? || ws.Flush? || (ws.Write? && ws.message.Some?)
    }

    ghost predicate WriterOk() {
      && !phase.Crashed?
      && (phase.Live() ==> WriterReady())
      && io.wire + io.writeBuffer == EncodeAll(TunnelFormat(), io.started)
      && io.confirmed <= |io.started| <= io.confirmed + 1
      && (phase.Live() ==> |io.started| == io.confirmed + (if ws.Flush? then 1 else 0))
      && (phase.Live() && !ws.Flush? ==> io.writeBuffer == [])
      && (phase == Finished(ChannelClosed) ==> io.confirmed == |io.started| && io.writeBuffer == [])
      && SinkUsedWell(io.calls)
    }

    /** Nothing taken off the channel is lost, duplicated or reordered. */
    ghost predicate OutboundOk() {
      && (phase.Live() ==> Select(IsData, io.started) + Select(IsData, HeldMessage()) + rx.queue == rx.log)
      && (phase == Finished(ChannelClosed) ==> Select(IsData, io.started) == rx.log)
      && Select(IsData, io.started) <= rx.log
      && (forall m | m in rx.log :: IsData(m))
    }

    /** One empty reply per counted keep-alive. */
    ghost predicate PongsOk() {
      && (forall m | m in Placed() :: m == Message(KEEP_ALIVE, []))
      && (phase.Live() ==> |Placed()| == pongs)
      && |Placed()| <= pongs <= |Select(IsPing, io.decoded)|
    }

    /** Each socket's channel got exactly the messages read with its index. */
    ghost predicate PoolOk() {
      && |pool| == 4
      && forall i: byte | i < 4 ::
        && pool[i].log <= Select(HasIndex(i), io.decoded)
        && (pool[i].receiving ==> pool[i].log == Select(HasIndex(i), io.decoded))
    }

    /** Every message ever put into the channel is on the wire, completely, and flushed. */
    ghost predicate Flushed() {
      && Select(IsData, io.started) == rx.log
      && io.confirmed == |io.started|
      && io.wire == EncodeAll(TunnelFormat(), io.started)
    }

    /** The writer waits with nothing queued, and everything started has been flushed. */
    ghost predicate Drained() {
      && ws.Recv? && rx.queue == []
      && io.confirmed == |io.started|
      && io.wire == EncodeAll(TunnelFormat(), io.started)
    }

    ghost predicate Ok() {
      && WriterOk()
      && OutboundOk()
      && PongsOk()
      && PoolOk()
      && io.ReadsFaithfully()
      && (phase.Live() <==> rx.receiving)
    }
  }

  datatype Step = Wake | WriteStep(a: IoAnswer) | ReadStep(r: ReadAnswer, a: IoAnswer)

  function TunnelNext(t: TunnelState, step: Step): TunnelState {
    t.Next(step)
  }

  /** What a loop of `Poll` does after one turn. */
  datatype Turn = Again | Blocked | Done

  /** `loop` is the phase of the running loop, `next` the one after it. */
  ghost predicate TurnIs(turn: Turn, phase: Phase, loop: Phase, next: Phase) {
    match turn
    case Again => phase == loop
    case Blocked => phase == next
    case Done => phase.Finished?
  }

  predicate IsPing(m: Message) {
    m.index == KEEP_ALIVE
  }

  predicate IsData(m: Message) {
    m.index != KEEP_ALIVE
  }

  function HasIndex(i: byte): Message -> bool {
    (m: Message) => m.index == i
  }

  /** Every `start_send` comes directly after a `poll_ready` that succeeded. */
  predicate SinkUsedWell(calls: seq<SinkCall>) {
    calls == [] ||
    var front, last := calls[..|calls| - 1], calls[|calls| - 1];
    SinkUsedWell(front) && (last.StartSend? ==> LastIsReady(front))
  }

  predicate LastIsReady(calls: seq<SinkCall>) {
    calls != [] && calls[|calls| - 1].ReadyOk?
  }

  lemma SinkUsedNext(calls: seq<SinkCall>, next: SinkCall)
    requires SinkUsedWell(calls) && (next.StartSend? ==> LastIsReady(calls))
    ensures SinkUsedWell(calls + [next])
  {
    assert (calls + [next])[..|calls|] == calls;
  }

  // ---- Every step keeps the invariant ----

  /** The transport takes bytes from the front of the buffer and changes nothing else. */
  lemma AcceptConserves(io: Io, count: nat)
    ensures var io' := io.Accept(count);
            && io' == io.(wire := io'.wire, writeBuffer := io'.writeBuffer)
            && io'.wire + io'.writeBuffer == io.wire + io.writeBuffer
            && (count >= |io.writeBuffer| ==> io'.writeBuffer == [])
            && (io.writeBuffer == [] ==> io'.writeBuffer == [])
  {
    var n := if count <= |io.writeBuffer| then count else |io.writeBuffer|;
    SeqSplit(io.writeBuffer, n);
    SeqAssoc(io.wire, io.writeBuffer[..n], io.writeBuffer[n..]);
  }

  lemma ReadyConserves(io: Io, a: IoAnswer)
    requires SinkUsedWell(io.calls)
    ensures var (c, io') := io.PollReady(a);
            && io' == io.(wire := io'.wire, writeBuffer := io'.writeBuffer, calls := io'.calls)
            && io'.wire + io'.writeBuffer == io.wire + io.writeBuffer
            && (io.writeBuffer == [] ==> io'.writeBuffer == [])
            && SinkUsedWell(io'.calls) && (c == Ready(true) ==> LastIsReady(io'.calls))
  {
    hide Io.Accept;
    AcceptConserves(io, a.accepted);
    SinkUsedNext(io.calls, match a case IoPending(_) => ReadyPending case IoOk(_) => ReadyOk case IoErr(_) => ReadyErr);
  }

  lemma FlushConserves(io: Io, a: IoAnswer)
    requires SinkUsedWell(io.calls)
    ensures var (c, io') := io.PollFlush(a);
            && io' == io.(wire := io'.wire, writeBuffer := io'.writeBuffer, calls := io'.calls,
                          confirmed := if c == Ready(true) then |io.started| else io.confirmed)
            && io'.wire + io'.writeBuffer == io.wire + io.writeBuffer
            && (c == Ready(true) ==> io'.writeBuffer == [])
            && SinkUsedWell(io'.calls)
  {
    hide Io.Accept;
    AcceptConserves(io, a.accepted);
    AcceptConserves(io, |io.writeBuffer|);
    SinkUsedNext(io.calls, match a case IoPending(_) => FlushPending case IoOk(_) => FlushOk case IoErr(_) => FlushErr);
  }

  lemma StartConserves(io: Io, m: Message)
    requires io.wire + io.writeBuffer == EncodeAll(TunnelFormat(), io.started)
    requires SinkUsedWell(io.calls) && LastIsReady(io.calls)
    ensures var io' := io.Start(m);
            && io'.wire + io'.writeBuffer == EncodeAll(TunnelFormat(), io'.started)
            && SinkUsedWell(io'.calls)
  {
    EncodeAllAppend(TunnelFormat(), io.started, [m]);
    assert EncodeAll(TunnelFormat(), [m]) == EncodeMessage(m) + [];
    SeqAssoc(io.wire, io.writeBuffer, EncodeMessage(m));
    SinkUsedNext(io.calls, StartSend);
  }

  /** A call of the write half of `t` with this outcome keeps the writer's invariant. */
  ghost predicate WriterCarried(t: TunnelState, c: Call<WriteState>, t': TunnelState) {
    match c
    case Pending => t'.WriterOk() && t'.ws == t.ws
    case Panicked => false
    case Ready(next) =>
      if next.Stop? then
        t'.(ws := Stop, phase := Finished(if t.ws.Recv? then ChannelClosed else WriteFailed)).WriterOk()
      else t'.(ws := next).WriterOk()
  }

  lemma TakeKeepsWriter(t: TunnelState)
    requires t.phase.Live() && t.WriterOk() && t.ws.Recv?
    ensures WriterCarried(t, t.TakeMessage().0, t.TakeMessage().1)
  {
  }

  lemma SendKeepsWriter(t: TunnelState, m: Message, a: IoAnswer)
    requires t.phase.Live() && t.WriterOk() && t.ws == Write(Some(m))
    ensures WriterCarried(t, t.WriteMessage(Some(m), a).0, t.WriteMessage(Some(m), a).1)
  {
    hide Io.Accept, EncodeAll, EncodeMessage, SinkUsedWell, LastIsReady;
    ReadyConserves(t.io, a);
    if a.IoOk? {
      StartConserves(t.io.PollReady(a).1, m);
    }
  }

  lemma FlushKeepsWriter(t: TunnelState, a: IoAnswer)
    requires t.phase.Live() && t.WriterOk() && t.ws.Flush?
    ensures WriterCarried(t, t.FlushMessages(a).0, t.FlushMessages(a).1)
  {
    hide Io.Accept;
    FlushConserves(t.io, a);
  }

  ghost predicate OutboundCarried(t: TunnelState, c: Call<WriteState>, t': TunnelState) {
    match c
    case Pending => t'.OutboundOk()
    case Panicked => false
    case Ready(next) =>
      if next.Stop? then
        t'.(ws := Stop, phase := Finished(if t.ws.Recv? then ChannelClosed else WriteFailed)).OutboundOk()
      else t'.(ws := next).OutboundOk()
  }

  lemma TakeFront(data: seq<Message>, queue: seq<Message>)
    requires queue != []
    ensures data + [queue[0]] + queue[1..] == data + queue && queue[0] in data + queue
  {
    assert [queue[0]] + queue[1..] == queue;
    assert (data + queue)[|data|] == queue[0];
  }

  lemma TakeKeepsOutbound(t: TunnelState)
    requires t.phase.Live() && t.OutboundOk() && t.ws.Recv?
    ensures OutboundCarried(t, t.TakeMessage().0, t.TakeMessage().1)
  {
    hide Select;
    var data, queue := Select(IsData, t.io.started), t.rx.queue;
    SelectNone<Message>(IsData);
    assert data + [] == data;
    assert data + queue == t.rx.log;
    if queue != [] {
      TakeFront(data, queue);
      SelectAppend(IsData, [], queue[0]);
      assert [] + [queue[0]] == [queue[0]];
    } else {
      assert data + [] == t.rx.log;
    }
  }

  lemma SendKeepsOutbound(t: TunnelState, m: Message, a: IoAnswer)
    requires t.phase.Live() && t.OutboundOk() && t.ws == Write(Some(m))
    ensures OutboundCarried(t, t.WriteMessage(Some(m), a).0, t.WriteMessage(Some(m), a).1)
  {
    hide Io.Accept, Select;
    AcceptConserves(t.io, a.accepted);
    SelectNone<Message>(IsData);
    SelectConcat(IsData, t.io.started, [m]);
    var started := Select(IsData, t.io.started);
    assert started + Select(IsData, [m]) + [] + t.rx.queue == started + Select(IsData, [m]) + t.rx.queue;
  }

  lemma FlushKeepsOutbound(t: TunnelState, a: IoAnswer)
    requires t.phase.Live() && t.OutboundOk() && t.ws.Flush?
    ensures OutboundCarried(t, t.FlushMessages(a).0, t.FlushMessages(a).1)
  {
    hide Io.Accept;
    AcceptConserves(t.io, a.accepted);
    AcceptConserves(t.io, |t.io.writeBuffer|);
  }

  /** No reply is placed; a call that stops the tunnel may drop the held message. */
  ghost predicate PlacedCarried(t: TunnelState, c: Call<WriteState>, t': TunnelState) {
    match c
    case Pending => t'.Placed() == t.Placed()
    case Panicked => false
    case Ready(next) =>
      if next.Stop? then t'.(ws := Stop).Placed() <= t.Placed() else t'.(ws := next).Placed() == t.Placed()
  }

  lemma TakeKeepsPlaced(t: TunnelState)
    requires t.ws.Recv? && forall m | m in t.rx.queue :: IsData(m)
    ensures PlacedCarried(t, t.TakeMessage().0, t.TakeMessage().1)
  {
    if t.rx.queue != [] {
      assert t.rx.queue[0] in t.rx.queue;
      SelectAppend(IsPing, [], t.rx.queue[0]);
      assert [] + [t.rx.queue[0]] == [t.rx.queue[0]];
    }
  }

  lemma SendKeepsPlaced(t: TunnelState, m: Message, a: IoAnswer)
    requires t.ws == Write(Some(m))
    ensures PlacedCarried(t, t.WriteMessage(Some(m), a).0, t.WriteMessage(Some(m), a).1)
  {
    hide Io.Accept, Select;
    AcceptConserves(t.io, a.accepted);
    SelectConcat(IsPing, t.io.started, [m]);
    SelectNone<Message>(IsPing);
    var pings, held := Select(IsPing, t.io.started), Select(IsPing, [m]);
    assert (pings + held) + [] == pings + held;
    assert pings + [] == pings;
  }

  lemma FlushKeepsPlaced(t: TunnelState, a: IoAnswer)
    requires t.ws.Flush?
    ensures PlacedCarried(t, t.FlushMessages(a).0, t.FlushMessages(a).1)
  {
    hide Io.Accept;
    AcceptConserves(t.io, a.accepted);
    AcceptConserves(t.io, |t.io.writeBuffer|);
  }

  lemma QueueIsData(t: TunnelState)
    requires t.phase.Live() && t.OutboundOk()
    ensures forall m | m in t.rx.queue :: IsData(m)
  {
    var front := Select(IsData, t.io.started) + Select(IsData, t.HeldMessage());
    forall m | m in t.rx.queue ensures m in t.rx.log {
      assert m in front + t.rx.queue;
    }
  }

  lemma WriteFrame(t: TunnelState, a: IoAnswer)
    ensures var t' := t.PollWrite(a).1;
            && t'.pool == t.pool && t'.phase == t.phase && t'.pongs == t.pongs
            && t'.rx.log == t.rx.log && t'.rx.receiving == t.rx.receiving && t'.rx.senders == t.rx.senders
            && t'.io.reader == t.io.reader && t'.io.received == t.io.received && t'.io.decoded == t.io.decoded
  {
  }

  lemma RetireKeepsOk(t: TunnelState, end: Phase)
    requires end.Finished?
    requires t.(phase := end).WriterOk() && t.(phase := end).OutboundOk() && t.(phase := end).PongsOk()
    requires t.PoolOk() && t.io.ReadsFaithfully()
    ensures t.Retire(end).Ok()
  {
    var t' := t.Retire(end);
    assert t'.io == t.io && t'.HeldMessage() == t.HeldMessage();
    assert t'.WriterOk() && t'.OutboundOk() && t'.PongsOk();
    assert forall i: byte | i < 4 :: t'.pool[i].log == t.pool[i].log && t'.pool[i].receiving == t.pool[i].receiving;
  }

  /** How the loops of `poll` use the outcome of a write call. */
  function AfterWrite(ws: WriteState, c: Call<WriteState>, t: TunnelState): TunnelState {
    match c
    case Pending => t
    case Panicked => t.Retire(Crashed)
    case Ready(next) =>
      if next.Stop? then t.(ws := Stop).Retire(Finished(if ws.Recv? then ChannelClosed else WriteFailed))
      else t.(ws := next)
  }

  /** How the read loop of `poll` uses the outcome of a read call. */
  function AfterRead(c: Call<ReadState>, t: TunnelState): TunnelState {
    match c
    case Pending => t
    case Panicked => t.Retire(Crashed)
    case Ready(ReadContinue) => t
    case Ready(ReadStop) => t.Retire(Finished(if t.ws.Stop? then WriteFailed else ReadEnded))
  }

  /** The three parts of the invariant together carry over to whatever the loop does next. */
  lemma CarriedOk(t: TunnelState, c: Call<WriteState>, t': TunnelState)
    requires t.phase.Live() && t.Ok()
    requires WriterCarried(t, c, t') && OutboundCarried(t, c, t') && PlacedCarried(t, c, t')
    requires t'.pool == t.pool && t'.phase == t.phase && t'.pongs == t.pongs && t'.rx.receiving == t.rx.receiving
    requires t'.io.reader == t.io.reader && t'.io.received == t.io.received && t'.io.decoded == t.io.decoded
    ensures AfterWrite(t.ws, c, t').Ok()
  {
    if c.Ready? && c.value.Stop? {
      StopKeepsPongs(t, t'.(ws := Stop));
      RetireKeepsOk(t'.(ws := Stop), Finished(if t.ws.Recv? then ChannelClosed else WriteFailed));
    } else {
      KeepsRest(t, if c.Ready? then t'.(ws := c.value) else t');
    }
  }

  lemma WriteCarried(t: TunnelState, a: IoAnswer)
    requires t.phase.Live() && t.Ok()
    ensures var (c, t') := t.PollWrite(a);
            WriterCarried(t, c, t') && OutboundCarried(t, c, t') && PlacedCarried(t, c, t')
  {
    QueueIsData(t);
    match t.ws
    case Recv =>
      TakeKeepsWriter(t);
      TakeKeepsOutbound(t);
      TakeKeepsPlaced(t);
    case Write(message) =>
      SendKeepsWriter(t, message.value, a);
      SendKeepsOutbound(t, message.value, a);
      SendKeepsPlaced(t, message.value, a);
    case Flush =>
      FlushKeepsWriter(t, a);
      FlushKeepsOutbound(t, a);
      FlushKeepsPlaced(t, a);
    case Stop =>
  }

  lemma WriteKeepsOk(t: TunnelState, a: IoAnswer)
    requires t.phase.Live() && t.Ok()
    ensures var (c, t') := t.PollWrite(a);
            && !c.Panicked?
            && AfterWrite(t.ws, c, t').Ok()
            && (c.Pending? ==> t'.ws == t.ws)
  {
    WriteCarried(t, a);
    WriteFrame(t, a);
    CarriedOk(t, t.PollWrite(a).0, t.PollWrite(a).1);
  }

  lemma StopKeepsPongs(t: TunnelState, t': TunnelState)
    requires t.PongsOk() && t'.Placed() <= t.Placed() && t'.pongs == t.pongs && t'.io.decoded == t.io.decoded
    ensures forall why :: t'.(phase := Finished(why)).PongsOk()
  {
    assert forall m | m in t'.Placed() :: m in t.Placed();
  }

  lemma KeepsRest(t: TunnelState, t': TunnelState)
    requires t.phase.Live() && t.Ok()
    requires t'.WriterOk() && t'.OutboundOk() && t'.Placed() == t.Placed()
    requires t'.pool == t.pool && t'.phase == t.phase && t'.pongs == t.pongs && t'.rx.receiving == t.rx.receiving
    requires t'.io.reader == t.io.reader && t'.io.received == t.io.received && t'.io.decoded == t.io.decoded
    ensures t'.Ok()
  {
  }

  /** What is known of the tunnel when it has just read `m` and not handled it yet. */
  ghost predicate JustRead(t: TunnelState, m: Message) {
    && t.phase.Live()
    && t.WriterOk() && t.OutboundOk() && t.io.ReadsFaithfully() && t.rx.receiving
    && (forall p | p in t.Placed() :: p == Message(KEEP_ALIVE, []))
    && |t.Placed()| == t.pongs
    && t.pongs + (if IsPing(m) then 1 else 0) <= |Select(IsPing, t.io.decoded)|
    && |t.pool| == 4
    && (forall i: byte | i < 4 ::
        && t.pool[i].log <= Select(HasIndex(i), t.io.decoded)
        && (t.pool[i].receiving ==>
              t.pool[i].log + (if m.index == i then [m] else []) == Select(HasIndex(i), t.io.decoded)))
  }

  lemma ReadGivesMessage(t: TunnelState, io: Io, m: Message)
    requires t.phase.Live() && t.Ok()
    requires io.ReadsFaithfully() && io.decoded == t.io.decoded + [m]
    requires io == t.io.(reader := io.reader, received := io.received, decoded := io.decoded)
    ensures JustRead(t.(io := io), m)
  {
    SelectAppend(IsPing, t.io.decoded, m);
    forall i: byte | i < 4
      ensures Select(HasIndex(i), t.io.decoded + [m]) ==
              Select(HasIndex(i), t.io.decoded) + (if m.index == i then [m] else [])
    {
      SelectAppend(HasIndex(i), t.io.decoded, m);
    }
  }

  lemma DeliverKeepsOk(t: TunnelState, m: Message)
    requires JustRead(t, m) && IsData(m)
    ensures t.Deliver(m).Ok()
  {
    var t' := t.Deliver(m);
    assert t'.Placed() == t.Placed() && t'.io == t.io;
    assert t'.WriterOk() && t'.OutboundOk() && t'.PongsOk();
  }

  lemma PongKeepsOk(t: TunnelState, m: Message, a: IoAnswer)
    requires JustRead(t, m) && IsPing(m)
    ensures var (c, t') := t.Pong(a); AfterRead(c, t').Ok() && !c.Panicked? && !c.Pending?
  {
    hide TunnelState.Ok, JustRead, TunnelState.TakeMessage, TunnelState.WriteMessage, TunnelState.FlushMessages;
    JustReadLive(t, m);
    if t.ws.Recv? {
      ReplyPlacedOk(t, m);
      var t1 := t.(ws := Write(Some(Message(KEEP_ALIVE, []))), pongs := t.pongs + 1);
      WriteKeepsOk(t1, a);
      assert !t1.PollWrite(a).0.Panicked?;
      assert !t.Pong(a).0.Panicked?;
    } else {
      NoReplyOk(t, m);
    }
  }

  lemma JustReadLive(t: TunnelState, m: Message)
    requires JustRead(t, m)
    ensures t.phase.Live() && !t.ws.Stop?
  {
  }

  lemma ReplyPlacedOk(t: TunnelState, m: Message)
    requires JustRead(t, m) && IsPing(m) && t.ws.Recv?
    ensures t.(ws := Write(Some(Message(KEEP_ALIVE, []))), pongs := t.pongs + 1).Ok()
  {
    hide Select, Drain, EncodeAll, SinkUsedWell;
    var ping := Message(KEEP_ALIVE, []);
    var t1 := t.(ws := Write(Some(ping)), pongs := t.pongs + 1);
    SelectNone<Message>(IsPing);
    SelectNone<Message>(IsData);
    SelectAppend(IsPing, [], ping);
    SelectAppend(IsData, [], ping);
    assert [] + [ping] == [ping];
    assert t1.Placed() == t.Placed() + [ping];
    assert t1.WriterOk();
    assert Select(IsData, t1.HeldMessage()) == [] == Select(IsData, t.HeldMessage());
    assert t1.OutboundOk() && t1.PoolOk() && t1.PongsOk();
  }

  lemma NoReplyOk(t: TunnelState, m: Message)
    requires JustRead(t, m) && IsPing(m) && !t.ws.Recv?
    ensures t.Ok()
  {
    hide Select, Drain, EncodeAll, SinkUsedWell;
  }

  lemma ReadNothingKeepsOk(t: TunnelState, io: Io)
    requires t.phase.Live() && t.Ok()
    requires io.ReadsFaithfully() && io.decoded == t.io.decoded
    requires io == t.io.(reader := io.reader, received := io.received, decoded := io.decoded)
    ensures t.(io := io).Ok() && t.(io := io).Retire(Finished(ReadEnded)).Ok()
  {
    var t1 := t.(io := io);
    assert t1.Placed() == t.Placed();
    assert t1.WriterOk() && t1.OutboundOk() && t1.PongsOk();
    StopKeepsPongs(t, t1);
    RetireKeepsOk(t1, Finished(ReadEnded));
  }

  lemma HandleKeepsOk(t: TunnelState, m: Message, a: IoAnswer)
    requires JustRead(t, m)
    ensures var (c, t') := t.Handle(m, a); AfterRead(c, t').Ok() && !c.Panicked? && !c.Pending?
  {
    if m.index == KEEP_ALIVE {
      PongKeepsOk(t, m, a);
    } else {
      DeliverKeepsOk(t, m);
    }
  }

  lemma OkFacts(t: TunnelState)
    requires t.Ok() && t.phase.Live()
    ensures t.io.ReadsFaithfully() && t.WriterReady()
  {
  }

  lemma ReadKeepsOk(t: TunnelState, r: ReadAnswer, a: IoAnswer)
    requires t.phase.Live() && t.Ok()
    ensures var (c, t') := t.PollRead(r, a);
            && AfterRead(c, t').Ok() && !c.Panicked?
            && t'.phase == t.phase
  {
    hide TunnelState.Ok, JustRead;
    OkFacts(t);
    PollNextFaithful(t.io, r.chunks, r.closed);
    var (c, io) := t.io.PollNext(r.chunks, r.closed);
    if c.Ready? && c.value.Some? {
      ReadGivesMessage(t, io, c.value.value);
      HandleKeepsOk(t.(io := io), c.value.value, a);
      HandleFrame(t.(io := io), c.value.value, a);
    } else {
      ReadNothingKeepsOk(t, io);
    }
  }

  lemma HandleFrame(t: TunnelState, m: Message, a: IoAnswer)
    ensures t.Handle(m, a).1.phase == t.phase
  {
    WriteFrame(t.(ws := Write(Some(Message(KEEP_ALIVE, []))), pongs := t.pongs + 1), a);
  }

  /** Moving between the loops of a poll changes nothing else. */
  lemma PhaseKeepsOk(t: TunnelState, phase: Phase)
    requires t.Ok() && t.phase.Live() && phase.Live()
    ensures t.(phase := phase).Ok()
  {
    assert t.(phase := phase).Placed() == t.Placed();
    KeepsParts(t, t.(phase := phase));
  }

  lemma KeepsParts(t: TunnelState, t': TunnelState)
    requires t.phase.Live() && t'.phase.Live() && t' == t.(phase := t'.phase)
    ensures t.WriterOk() ==> t'.WriterOk()
    ensures t.OutboundOk() ==> t'.OutboundOk()
    ensures t.PongsOk() ==> t'.PongsOk()
    ensures t.PoolOk() ==> t'.PoolOk()
  {
  }

  /** Every step of the tunnel task keeps the invariant. */
  lemma TunnelStepOk(t: TunnelState, step: Step)
    requires t.Ok()
    ensures t.Next(step).Ok()
  {
    hide TunnelState.Ok;
    match step
    case Wake =>
      if t.phase.Idle? {
        PhaseKeepsOk(t, Writing);
      }
    case WriteStep(a) =>
      if t.phase.Writing? {
        WriteKeepsOk(t, a);
        WriteFrame(t, a);
        if t.PollWrite(a).0.Pending? {
          PhaseKeepsOk(t.PollWrite(a).1, Reading);
        }
      }
    case ReadStep(r, a) =>
      if t.phase.Reading? {
        ReadKeepsOk(t, r, a);
        if t.PollRead(r, a).0.Pending? {
          PhaseKeepsOk(t.PollRead(r, a).1, Idle);
        }
      }
  }
}
