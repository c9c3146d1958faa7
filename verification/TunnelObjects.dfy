/** The tunnel and the pool sockets as the objects the runtime polls. */
module TunnelObjects {
  import opened Wrappers
  import opened Framing
  import opened TunnelCodecs
  import opened FramedIo
  import opened Channels
  import opened TunnelTask
  import opened TunnelSystem
  import opened TunnelShutdown
  import Runs

  /** The tunnel future. */
  class Tunnel {
    const io: Framed
    const rx: Channel<Message>
    const pool: seq<Channel<Message>>
    var writeState: WriteState
    ghost var phase: Phase
    ghost var pongs: nat

    ghost predicate Valid()
      reads this, io, io.Repr()
    {
      && io.Valid()
      && |pool| == 4
      && rx !in pool
      && (forall i, j | 0 <= i < j < |pool| :: pool[i] != pool[j])
    }

    ghost function Repr(): set<object> {
      {this, io, rx} + io.Repr() + (set c | c in pool)
    }

    ghost function View(): TunnelState
      reads this, io, rx, pool
    {
      TunnelState(writeState, phase, io.history, pongs, rx.View(), Views(pool))
    }

    constructor (io: Framed, rx: Channel<Message>, pool: seq<Channel<Message>>)
      requires io.Valid() && |pool| == 4 && rx !in pool
      requires forall i, j | 0 <= i < j < |pool| :: pool[i] != pool[j]
      ensures Valid() && View() == TunnelState(Recv, Idle, io.history, 0, rx.View(), Views(pool))
      ensures this.io == io && this.rx == rx && this.pool == pool
    {
      this.io, this.rx, this.pool := io, rx, pool;
      writeState, phase, pongs := Recv, Idle, 0;
    }

    /** Called by `Poll` while the tunnel runs; the result is the next write state. */
    method PollWriteState(a: IoAnswer) returns (c: Call<WriteState>)
      requires Valid()
      modifies this`writeState, io, io.writeBuffer, rx
      ensures Valid() && (c, View()) == old(View()).PollWrite(a)
    {
      match writeState
      case Recv =>
        var received := rx.PollRecv();
        match received {
          case Pending => c := Pending;
          case Panicked => c := Panicked;
          case Ready(result) => c := Ready(if result.Some? then Write(result) else Stop);
        }
      case Write(message) =>
        var ready := io.PollReady(a);
        match ready {
          case Pending => c := Pending;
          case Panicked => c := Panicked;
          case Ready(ok) =>
            if !ok {
              c := Ready(Stop);
            } else if message.None? {
              c := Panicked;
            } else {
              writeState := Write(None);
              io.StartSend(message.value);
              c := Ready(Flush);
            }
        }
      case Flush =>
        var flushed := io.PollFlush(a);
        match flushed {
          case Pending => c := Pending;
          case Panicked => c := Panicked;
          case Ready(ok) => c := Ready(if ok then Recv else Stop);
        }
      case Stop =>
        c := Panicked;
    }

    method Deliver(m: Message)
      requires Valid()
      modifies pool
      ensures Valid() && View() == old(View()).Deliver(m)
    {
      if m.index < |pool| {
        ghost var before := Views(pool);
        var sent := pool[m.index].Send(m);
        assert Views(pool) == before[m.index := before[m.index].Send(m)];
      }
    }

    method PollReadState(r: ReadAnswer, a: IoAnswer) returns (c: Call<ReadState>)
      requires Valid()
      modifies this, Repr()
      ensures Valid() && (c, View()) == old(View()).PollRead(r, a)
    {
      hide Io.PollNext, TunnelState.PollWrite;
      var next := io.PollNext(r);
      match next {
        case Pending => return Pending;
        case Panicked => return Panicked;
        case Ready(None) => return Ready(ReadStop);
        case Ready(Some(message)) =>
          if message.index == KEEP_ALIVE {
            if writeState.Recv? {
              writeState := Write(Some(Message(KEEP_ALIVE, [])));
              pongs := pongs + 1;
              var written := PollWriteState(a);
              match written {
                case Pending =>
                case Panicked => return Panicked;
                case Ready(state) =>
                  writeState := state;
                  if state.Stop? {
                    return Ready(ReadStop);
                  }
              }
            }
            return Ready(ReadContinue);
          }
          Deliver(message);
          return Ready(ReadContinue);
      }
    }

    /** The future has completed: the tunnel is dropped with the channel ends it owns. */
    method Drop(ghost end: Phase)
      requires Valid()
      modifies this`phase, rx, pool
      ensures Valid() && View() == old(View()).Retire(end)
    {
      phase := end;
      rx.DropReceiver();
      for i := 0 to |pool|
        invariant Valid() && phase == end && rx.View() == old(rx.View()).DropReceiver()
        invariant forall k | 0 <= k < i :: pool[k].View() == old(pool[k].View()).DropSender(0)
        invariant forall k | i <= k < |pool| :: pool[k].View() == old(pool[k].View())
      {
        pool[i].DropSender(0);
      }
      assert Views(pool) == old(View()).Retire(end).pool;
    }

    /** The body of the write loop. */
    method WriteTurn(a: IoAnswer) returns (turn: Turn)
      requires Valid() && phase.Writing? && View().Ok()
      modifies this, io, io.writeBuffer, rx, pool
      ensures Valid() && View() == old(View()).Next(WriteStep(a)) && View().Ok()
      ensures TurnIs(turn, phase, Writing, Reading)
      ensures turn.Again? ==> TunnelWork(View()) < old(TunnelWork(View()))
      ensures rx.senders == old(rx.senders)
      ensures old(rx.senders) == {} && a.IoOk? ==>
                !turn.Blocked? && (turn.Done? ==> phase == Finished(ChannelClosed))
      ensures turn.Blocked? && a.IoOk? ==> writeState.Recv? && rx.queue == []
    {
      hide TunnelState.Ok, TunnelState.PollWrite;
      ghost var before := View();
      WriteTurnOk(before, a);
      var c := PollWriteState(a);
      if c.Pending? {
        phase := Reading;
        return Blocked;
      }
      writeState := c.value;
      if writeState.Stop? {
        Drop(Finished(if before.ws.Recv? then ChannelClosed else WriteFailed));
        return Done;
      }
      turn := Again;
    }

    /** The body of the read loop. */
    method ReadTurn(r: ReadAnswer, a: IoAnswer) returns (turn: Turn)
      requires Valid() && phase.Reading? && View().Ok()
      modifies this, Repr()
      ensures Valid() && View() == old(View()).Next(ReadStep(r, a)) && View().Ok()
      ensures TurnIs(turn, phase, Reading, Idle)
      ensures turn.Again? && r == ReadAnswer([], false) ==> Shrunk(old(io.history.reader), io.history.reader)
    {
      hide TunnelState.Ok, TunnelState.PollRead;
      ReadTurnOk(View(), r, a);
      var c := PollReadState(r, a);
      if c.Pending? {
        phase := Idle;
        return Blocked;
      }
      if c.value.ReadStop? {
        Drop(Finished(if writeState.Stop? then WriteFailed else ReadEnded));
        return Done;
      }
      turn := Again;
    }

    /** The task is woken and runs the write loop. The loop ends on its own: three calls a
        queued message, and two for one that is already held. If it is blocked although every
        call was accepted, everything is flushed and the channel empty. */
    method WriteLoop(writes: nat -> IoAnswer) returns (turn: Turn, ghost steps: seq<Step>)
      requires Valid() && phase.Idle? && View().Ok()
      modifies this, io, io.writeBuffer, rx, pool
      ensures Valid() && View() == old(View()).Run(steps) && View().Ok()
      ensures TurnIs(turn, phase, Writing, Reading) && !turn.Again?
      ensures |steps| <= 3 * |old(rx.queue)| + 4 && WritesOf(writes, steps)
      ensures turn.Blocked? && AllAccepted(writes) ==> View().Drained()
      ensures old(rx.senders) == {} && AllAccepted(writes) ==>
                turn.Done? && phase == Finished(ChannelClosed) && View().Flushed()
    {
      hide TunnelState.Ok, TunnelState.Flushed, TunnelState.Drained, TunnelState.Next, WritesOf, AllAccepted;
      ghost var start := View();
      WritesStart(writes);
      WakeOk(start);
      phase := Writing;
      ghost var now := View();
      steps := [Wake];
      turn := Again;
      var k := 0;
      while turn.Again?
        invariant Valid() && View() == now && now == start.Run(steps) && now.Ok()
        invariant TurnIs(turn, phase, Writing, Reading)
        invariant |steps| == k + 1 && WritesOf(writes, steps)
        invariant turn.Blocked? && AllAccepted(writes) ==> writeState.Recv? && rx.queue == []
        invariant |steps| + (if turn.Again? then TunnelWork(now) + 1 else 0) <= 3 * |start.rx.queue| + 4
        invariant rx.senders == old(rx.senders)
        invariant old(rx.senders) == {} && AllAccepted(writes) ==>
                    !turn.Blocked? && (turn.Done? ==> phase == Finished(ChannelClosed))
        decreases turn.Again?, TunnelWork(now)
      {
        AcceptedAt(writes, k);
        WritesSnoc(writes, steps);
        turn := WriteTurn(writes(k));
        Runs.RunSnoc(TunnelNext, start, steps, WriteStep(writes(k)));
        steps := steps + [WriteStep(writes(k))];
        now := View();
        k := k + 1;
      }
      ClosedIsFlushed(now);
      if turn.Blocked? && writeState.Recv? && rx.queue == [] {
        WaitsDrained(now);
      }
    }

    /** The read loop: it goes on while there is a message to decode. */
    method ReadLoop(inputs: seq<(ReadAnswer, IoAnswer)>) returns (turn: Turn, ghost steps: seq<Step>)
      requires Valid() && phase.Reading? && View().Ok()
      modifies this, Repr()
      ensures Valid() && View() == old(View()).Run(steps) && View().Ok()
      ensures TurnIs(turn, phase, Reading, Idle) && !turn.Again?
      ensures ReadsOf(inputs, steps)
    {
      hide TunnelState.Ok, TunnelState.Next, ReadsOf;
      ghost var start, now := View(), View();
      steps := [];
      NoReads(inputs);
      turn := Again;
      var k := 0;
      while turn.Again?
        invariant Valid() && View() == now && now == start.Run(steps) && now.Ok()
        invariant TurnIs(turn, phase, Reading, Idle)
        invariant |steps| == k && ReadsOf(inputs, steps)
        decreases turn.Again?, if k < |inputs| then |inputs| - k else 0,
                  |now.io.reader.buffer|, now.io.reader.partial.Some?
      {
        var (r, a) := if k < |inputs| then inputs[k] else (ReadAnswer([], false), IoPending(0));
        ReadsSnoc(inputs, steps, ReadStep(r, a));
        turn := ReadTurn(r, a);
        Runs.RunSnoc(TunnelNext, start, steps, ReadStep(r, a));
        steps := steps + [ReadStep(r, a)];
        now := View();
        k := k + 1;
      }
    }

    /** One poll: the write loop, then, if that is blocked, the read loop. `writes` answers
        the write loop's calls one by one, `inputs` the read loop's, after which the
        connection has nothing more to read. The whole poll is a run of the task's steps with
        these answers. If every write call is accepted, the write loop drains the channel and,
        once the sockets are gone, ends the tunnel with everything flushed. */
    method Poll(writes: nat -> IoAnswer, inputs: seq<(ReadAnswer, IoAnswer)>)
      returns (done: bool, ghost written: seq<Step>, ghost read: seq<Step>)
      requires Valid() && phase.Idle? && View().Ok()
      modifies this, Repr()
      ensures Valid() && View() == old(View()).Run(written + read) && View().Ok()
      ensures done <==> phase.Finished?
      ensures !done ==> phase.Idle?
      ensures |written| <= 3 * |old(rx.queue)| + 4
      ensures WritesOf(writes, written) && ReadsOf(inputs, read)
      ensures AllAccepted(writes) ==>
                var flushed := old(View()).Run(written); flushed.phase.Live() ==> flushed.Drained()
      ensures old(rx.senders) == {} && AllAccepted(writes) ==>
                done && phase == Finished(ChannelClosed) && View().Flushed()
    {
      hide TunnelState.Ok, TunnelState.Flushed, TunnelState.Drained, WritesOf, ReadsOf;
      ghost var start := View();
      NoReads(inputs);
      var turn;
      turn, written := WriteLoop(writes);
      read := [];
      if turn.Blocked? {
        turn, read := ReadLoop(inputs);
      }
      Runs.RunConcat(TunnelNext, start, written, read);
      assert written + [] == written;
      done := turn.Done?;
    }
  }

  /** The steps of a write loop with these answers. */
  ghost predicate WritesOf(writes: nat -> IoAnswer, steps: seq<Step>) {
    && steps != [] && steps[0] == Wake
    && forall k: nat | 0 < k < |steps| :: steps[k] == WriteStep(writes(k - 1))
  }

  lemma WritesStart(writes: nat -> IoAnswer)
    ensures WritesOf(writes, [Wake])
  {
  }

  lemma WritesSnoc(writes: nat -> IoAnswer, steps: seq<Step>)
    requires WritesOf(writes, steps)
    ensures WritesOf(writes, steps + [WriteStep(writes(|steps| - 1))])
  {
  }

  /** Every call of the write loop is accepted by the connection. */
  ghost predicate AllAccepted(writes: nat -> IoAnswer) {
    forall k :: writes(k).IoOk?
  }

  lemma AcceptedAt(writes: nat -> IoAnswer, k: nat)
    ensures AllAccepted(writes) ==> writes(k).IoOk?
  {
  }

  /** The steps of a read loop with these answers, and nothing more to read after them. */
  ghost predicate ReadsOf(inputs: seq<(ReadAnswer, IoAnswer)>, steps: seq<Step>) {
    forall k: nat | k < |steps| :: steps[k] == InputAt(inputs, k)
  }

  function InputAt(inputs: seq<(ReadAnswer, IoAnswer)>, k: nat): Step {
    if k < |inputs| then ReadStep(inputs[k].0, inputs[k].1) else ReadStep(ReadAnswer([], false), IoPending(0))
  }

  lemma NoReads(inputs: seq<(ReadAnswer, IoAnswer)>)
    ensures ReadsOf(inputs, [])
  {
  }

  lemma ReadsSnoc(inputs: seq<(ReadAnswer, IoAnswer)>, steps: seq<Step>, step: Step)
    requires ReadsOf(inputs, steps) && step == InputAt(inputs, |steps|)
    ensures ReadsOf(inputs, steps + [step])
  {
  }

  /** A read call that finds a message without reading anything shrinks the reader. */
  lemma RereadShrinks(t: TunnelState, r: ReadAnswer, a: IoAnswer)
    requires r == ReadAnswer([], false)
    ensures var (c, t') := t.PollRead(r, a);
            c.Ready? ==> Shrunk(t.io.reader, t'.io.reader)
  {
    var (c, io) := t.io.PollNext(r.chunks, r.closed);
    if c.Ready? && c.value.Some? {
      WriteFrame(t.(io := io, ws := Write(Some(Message(KEEP_ALIVE, []))), pongs := t.pongs + 1), a);
    }
  }

  lemma WriteTurnOk(t: TunnelState, a: IoAnswer)
    requires t.Ok() && t.phase.Writing?
    ensures var (c, t') := t.PollWrite(a);
            && !c.Panicked?
            && t'.phase == t.phase
            && t.Next(WriteStep(a)).Ok()
            && (c.Ready? && !c.value.Stop? ==> TunnelWork(t'.(ws := c.value)) < TunnelWork(t))
            && TurnIs(if c.Pending? then Blocked else if c.value.Stop? then Done else Again,
                      t.Next(WriteStep(a)).phase, Writing, Reading)
            && (t.rx.senders == {} && a.IoOk? ==>
                  !c.Pending? && (c.value.Stop? ==> t.Next(WriteStep(a)).phase == Finished(ChannelClosed)))
            && (c.Pending? && a.IoOk? ==> t'.ws.Recv? && t'.rx.queue == [])
            && t.Next(WriteStep(a)).rx.senders == t.rx.senders
  {
    hide TunnelState.Ok, Io.Accept;
    OkFacts(t);
    WriteKeepsOk(t, a);
    TunnelStepOk(t, WriteStep(a));
    WriteFrame(t, a);
  }

  lemma ReadTurnOk(t: TunnelState, r: ReadAnswer, a: IoAnswer)
    requires t.Ok() && t.phase.Reading?
    ensures var (c, t') := t.PollRead(r, a);
            && !c.Panicked?
            && t'.phase == t.phase
            && t.Next(ReadStep(r, a)).Ok()
            && (c.Ready? && r == ReadAnswer([], false) ==> Shrunk(t.io.reader, t'.io.reader))
            && TurnIs(if c.Pending? then Blocked else if c.value.ReadStop? then Done else Again,
                      t.Next(ReadStep(r, a)).phase, Reading, Idle)
  {
    hide TunnelState.Ok;
    ReadKeepsOk(t, r, a);
    TunnelStepOk(t, ReadStep(r, a));
    ReadSeen(t, r, a);
    if r == ReadAnswer([], false) {
      RereadShrinks(t, r, a);
    }
  }

  lemma WakeOk(t: TunnelState)
    requires t.Ok() && t.phase.Idle?
    ensures t.Run([Wake]) == t.(phase := Writing) && t.(phase := Writing).Ok()
    ensures TunnelWork(t) <= 3 * |t.rx.queue| + 2
  {
    TunnelStepOk(t, Wake);
    Runs.RunSnoc(TunnelNext, t, [], Wake);
    assert [] + [Wake] == [Wake];
  }

}
