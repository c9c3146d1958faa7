/** A pool socket as the object the runtime polls. */
module SocketObjects {
  import opened Wrappers
  import opened Bytes
  import opened TunnelCodecs
  import opened Channels
  import opened TunnelTask
  import opened SocketTask
  import opened TunnelSystem
  import opened TunnelShutdown
  import Runs

  class Socket {
    const index: byte
    const rx: Channel<Message>
    const tunTx: Channel<Message>
    var writeState: SocketWriteState
    ghost var phase: Phase
    ghost var taken: seq<Message>
    ghost var completed: nat
    ghost var sent: seq<byte>
    ghost var got: seq<seq<byte>>

    ghost predicate Valid() {
      rx != tunTx
    }

    ghost function State(): SocketState
      reads this
    {
      SocketState(index, writeState, phase, taken, completed, sent, got)
    }

    ghost function View(): SocketView
      reads this, rx, tunTx
    {
      SocketView(State(), rx.View(), tunTx.View())
    }

    constructor (index: byte, rx: Channel<Message>, tunTx: Channel<Message>)
      requires rx != tunTx
      ensures Valid() && this.rx == rx && this.tunTx == tunTx
      ensures View() == SocketView(SocketState(index, SRecv, Idle, [], 0, [], []), rx.View(), tunTx.View())
    {
      this.index, this.rx, this.tunTx := index, rx, tunTx;
      writeState, phase, taken, completed, sent, got := SRecv, Idle, [], 0, [], [];
    }

    method PollWriteState(a: SendAnswer) returns (c: Call<SocketWriteState>)
      requires Valid()
      modifies this`taken, this`completed, this`sent, rx
      ensures (c, View()) == old(View()).PollWrite(a)
    {
      match writeState
      case SRecv =>
        var received := rx.PollRecv();
        match received {
          case Pending => c := Pending;
          case Panicked => c := Panicked;
          case Ready(None) => c := Ready(SStop);
          case Ready(Some(message)) =>
            taken := taken + [message];
            c := Ready(SWrite(message.payload));
        }
      case SWrite(message) =>
        match a {
          case SendPending => c := Pending;
          case SendErr => c := Ready(SStop);
          case SendOk(reported) =>
            var count := if reported <= |message| then reported else |message|;
            sent := sent + message[..count];
            if count != |message| {
              c := Ready(SWrite(message[count..]));
            } else {
              completed := completed + 1;
              c := Ready(SRecv);
            }
        }
      case SStop =>
        c := Panicked;
    }

    method PollReadState(a: RecvAnswer) returns (c: Call<ReadState>)
      requires Valid()
      modifies this`got, tunTx
      ensures (c, View()) == old(View()).PollRead(a)
    {
      match a
      case RecvPending => c := Pending;
      case RecvErr => c := Ready(ReadStop);
      case Datagram(bytes) =>
        var message := Message(index, Received(bytes));
        got := got + [bytes];
        var ok := tunTx.Send(message);
        c := Ready(if ok then ReadContinue else ReadStop);
    }

    method Drop(ghost end: Phase)
      requires Valid()
      modifies this`phase, rx, tunTx
      ensures View() == old(View()).Retire(end)
    {
      phase := end;
      rx.DropReceiver();
      tunTx.DropSender(index);
    }

    /** The body of the write loop. */
    method WriteTurn(a: SendAnswer) returns (turn: Turn)
      requires Valid() && phase.Writing? && View().Ok()
      modifies this, rx, tunTx
      ensures View() == old(View()).Next(SocketWrite(a)) && View().Ok()
      ensures TurnIs(turn, phase, Writing, Reading)
      ensures turn.Again? ==>
                if Stalls(old(View()), SocketWrite(a)) then SocketWork(View()) == old(SocketWork(View()))
                else SocketWork(View()) < old(SocketWork(View()))
      ensures rx.senders == old(rx.senders)
      ensures old(rx.senders) == {} && !a.SendErr? ==>
                (turn.Blocked? ==> a.SendPending?) && (turn.Done? ==> phase == Finished(ChannelClosed))
    {
      ghost var before := View();
      SocketStepOk(before, SocketWrite(a));
      var c := PollWriteState(a);
      if c.Pending? {
        phase := Reading;
        return Blocked;
      }
      writeState := c.value;
      if writeState.SStop? {
        Drop(Finished(if before.s.ws.SRecv? then ChannelClosed else WriteFailed));
        return Done;
      }
      turn := Again;
    }

    /** The body of the read loop. */
    method ReadTurn(a: RecvAnswer) returns (turn: Turn)
      requires Valid() && phase.Reading? && View().Ok()
      modifies this, rx, tunTx
      ensures View() == old(View()).Next(SocketRead(a)) && View().Ok()
      ensures TurnIs(turn, phase, Reading, Idle)
      ensures a.RecvPending? ==> turn.Blocked?
    {
      SocketStepOk(View(), SocketRead(a));
      var c := PollReadState(a);
      if c.Pending? {
        phase := Idle;
        return Blocked;
      }
      if c.value.ReadStop? {
        Drop(Finished(if a.RecvErr? then ReadEnded else TunnelGone));
        return Done;
      }
      turn := Again;
    }

    /** The socket is woken and runs the write loop. `sends` answers its calls one by one, after
        which the local socket takes nothing more. The loop makes no more calls than the work
        there is, besides those that take nothing of a message that is not empty; so once the
        tunnel is gone, more accepted sends than that end the socket. */
    method WriteLoop(sends: seq<SendAnswer>) returns (turn: Turn, ghost steps: seq<SocketStep>)
      requires Valid() && phase.Idle? && View().Ok()
      modifies this, rx, tunTx
      ensures View() == old(View()).Run(steps) && View().Ok()
      ensures TurnIs(turn, phase, Writing, Reading) && !turn.Again?
      ensures SendsOf(sends, steps)
      ensures |steps| <= SocketWork(old(View())) + StallCount(old(View()), steps) + 2
      ensures old(rx.senders) == {} && Accepting(sends) &&
              |sends| > SocketWork(old(View())) + StallCount(old(View()), steps) ==>
                turn.Done? && phase == Finished(ChannelClosed)
    {
      ghost var start := View();
      SocketWakeOk(start);
      StallSnoc(start, [], SocketWake);
      assert [] + [SocketWake] == [SocketWake];
      phase := Writing;
      ghost var now := View();
      steps := [SocketWake];
      turn := Again;
      var k := 0;
      while turn.Again?
        invariant View() == now && now == start.Run(steps) && now.Ok()
        invariant TurnIs(turn, phase, Writing, Reading)
        invariant k + 1 == |steps| && SendsOf(sends, steps)
        invariant |steps| + (if turn.Again? then SocketWork(now) + 1 else 0)
                  <= SocketWork(start) + StallCount(start, steps) + 2
        invariant rx.senders == old(rx.senders)
        invariant old(rx.senders) == {} && Accepting(sends) ==>
                    (turn.Blocked? ==> k > |sends|) && (turn.Done? ==> phase == Finished(ChannelClosed))
        decreases turn.Again?, if k < |sends| then |sends| - k else 0, SocketWork(now)
      {
        var a := if k < |sends| then sends[k] else SendPending;
        turn := WriteTurn(a);
        Runs.RunSnoc(SocketNext, start, steps, SocketWrite(a));
        StallSnoc(start, steps, SocketWrite(a));
        steps := steps + [SocketWrite(a)];
        now := View();
        k := k + 1;
      }
    }

    /** The read loop: it goes on while there is a datagram to pass to the tunnel. */
    method ReadLoop(recvs: seq<RecvAnswer>) returns (turn: Turn, ghost steps: seq<SocketStep>)
      requires Valid() && phase.Reading? && View().Ok()
      modifies this, rx, tunTx
      ensures View() == old(View()).Run(steps) && View().Ok()
      ensures TurnIs(turn, phase, Reading, Idle) && !turn.Again?
      ensures |steps| <= |recvs| + 1 && RecvsOf(recvs, steps)
    {
      ghost var start, now := View(), View();
      steps := [];
      turn := Again;
      var j := 0;
      while turn.Again?
        invariant View() == now && now == start.Run(steps) && now.Ok()
        invariant TurnIs(turn, phase, Reading, Idle)
        invariant |steps| == j && j <= |recvs| + 1 && (j == |recvs| + 1 ==> !turn.Again?)
        invariant RecvsOf(recvs, steps)
        decreases |recvs| + 1 - j
      {
        var a := if j < |recvs| then recvs[j] else RecvPending;
        turn := ReadTurn(a);
        Runs.RunSnoc(SocketNext, start, steps, SocketRead(a));
        steps := steps + [SocketRead(a)];
        now := View();
        j := j + 1;
      }
    }

    /** One poll: a run of the socket's steps with these answers. Once the tunnel is gone, a poll
        with enough accepted sends ends the socket, with everything delivered. */
    method Poll(sends: seq<SendAnswer>, recvs: seq<RecvAnswer>)
      returns (done: bool, ghost written: seq<SocketStep>, ghost read: seq<SocketStep>)
      requires Valid() && phase.Idle? && View().Ok()
      modifies this, rx, tunTx
      ensures View() == old(View()).Run(written + read) && View().Ok()
      ensures if done then phase.Finished? else phase.Idle?
      ensures |written| <= SocketWork(old(View())) + StallCount(old(View()), written) + 2
      ensures |read| <= |recvs| + 1
      ensures SendsOf(sends, written) && RecvsOf(recvs, read)
      ensures old(rx.senders) == {} && Accepting(sends) &&
              |sends| > SocketWork(old(View())) + StallCount(old(View()), written) ==>
                done && phase == Finished(ChannelClosed) && rx.log == old(rx.log) && AllSent(State(), rx.log)
    {
      ghost var start := View();
      var turn;
      turn, written := WriteLoop(sends);
      read := [];
      if turn.Blocked? {
        turn, read := ReadLoop(recvs);
      }
      Runs.RunConcat(SocketNext, start, written, read);
      SocketRunLog(start, written + read);
      assert written + [] == written;
      done := turn.Done?;
    }
  }

  /** Every send is accepted. */
  predicate Accepting(sends: seq<SendAnswer>) {
    forall a | a in sends :: a.SendOk?
  }

  /** The steps of a write loop with these answers, and a full local socket after them. */
  ghost predicate SendsOf(sends: seq<SendAnswer>, steps: seq<SocketStep>) {
    && steps != [] && steps[0] == SocketWake
    && forall k: nat | 0 < k < |steps| ::
         steps[k] == SocketWrite(if k - 1 < |sends| then sends[k - 1] else SendPending)
  }

  /** The steps of a read loop with these answers, and no datagram after them. */
  ghost predicate RecvsOf(recvs: seq<RecvAnswer>, steps: seq<SocketStep>) {
    forall k: nat | k < |steps| :: steps[k] == SocketRead(if k < |recvs| then recvs[k] else RecvPending)
  }

  /** Sends that take something of what they are given never stall. */
  lemma {:induction false} NoStalls(v: SocketView, steps: seq<SocketStep>)
    requires forall step | step in steps && step.SocketWrite? :: step.a != SendOk(0)
    ensures StallCount(v, steps) == 0
    decreases |steps|
  {
    if steps != [] {
      var front, last := steps[..|steps| - 1], steps[|steps| - 1];
      NoStalls(v, front);
      assert last in steps;
    }
  }

  lemma {:induction false} SocketRunLog(v: SocketView, steps: seq<SocketStep>)
    requires v.Ok()
    ensures v.Run(steps).Ok() && v.Run(steps).inbox.log == v.inbox.log
    decreases |steps|
  {
    if steps != [] {
      var front := steps[..|steps| - 1];
      SocketRunLog(v, front);
      SocketStepOk(v.Run(front), steps[|steps| - 1]);
      SocketStepSeen(v.Run(front), steps[|steps| - 1]);
    }
  }

  lemma SocketWakeOk(v: SocketView)
    requires v.Ok() && v.s.phase.Idle?
    ensures var awake := v.(s := v.s.(phase := Writing)); v.Run([SocketWake]) == awake && awake.Ok()
  {
    SocketStepOk(v, SocketWake);
    Runs.RunSnoc(SocketNext, v, [], SocketWake);
    assert [] + [SocketWake] == [SocketWake];
  }

}
