/** The UDP tunnel as the object the runtime polls. */
module UdpObjects {
  import opened Wrappers
  import opened Bytes
  import opened Channels
  import opened TunnelTask
  import opened UdpTask
  import opened UdpGuarantees
  import Runs

  /** The monotone clock. */
  class Clock {
    var now: int

    constructor (now: int)
      ensures this.now == now
    {
      this.now := now;
    }

    method Elapse(seconds: nat)
      modifies this
      ensures now == old(now) + seconds
    {
      now := now + seconds;
    }
  }

  class UdpTunnel {
    const rx: Channel<Packet>
    const pool: seq<Channel<seq<byte>>>
    const clock: Clock
    var writeState: UdpWriteState
    var lastKeepAlive: int
    ghost var phase: Phase
    ghost var trace: Trace

    ghost predicate Valid() {
      forall i, j | 0 <= i < j < |pool| :: pool[i] != pool[j]
    }

    ghost function View(): UdpState
      reads this, rx, pool, clock
    {
      UdpState(writeState, phase, rx.View(), Views(pool), clock.now, lastKeepAlive, trace)
    }

    constructor (rx: Channel<Packet>, pool: seq<Channel<seq<byte>>>, clock: Clock)
      requires forall i, j | 0 <= i < j < |pool| :: pool[i] != pool[j]
      ensures Valid() && this.rx == rx && this.pool == pool && this.clock == clock
      ensures View() == UdpState(URecv, Idle, rx.View(), Views(pool), clock.now, clock.now,
                                 Trace([], [], [], [], 0, 0, 0))
    {
      this.rx, this.pool, this.clock := rx, pool, clock;
      writeState, lastKeepAlive := URecv, clock.now;
      phase, trace := Idle, Trace([], [], [], [], 0, 0, 0);
    }

    method PollWriteState(ready: ReadyAnswer, send: SendAnswer) returns (c: Call<UdpWriteState>)
      requires Valid()
      modifies this`writeState, this`trace, rx
      ensures (c, View()) == old(View()).PollWrite(ready, send)
    {
      match writeState
      case URecv =>
        var received := rx.PollRecv();
        match received {
          case Pending => c := Pending;
          case Panicked => c := Panicked;
          case Ready(None) => c := Ready(UStop);
          case Ready(Some(message)) =>
            trace := trace.Take(message);
            c := Ready(UWrite(Some(message)));
        }
      case UWrite(held) =>
        match ready {
          case NotReady => c := Pending;
          case ReadyFailed => c := Ready(UStop);
          case IsReady =>
            if held.None? {
              return Panicked;
            }
            writeState := UWrite(None);
            match send {
              case NotSent =>
                trace := trace.Lose();
                c := Pending;
              case SendFailed =>
                trace := trace.Fail();
                c := Panicked;
              case WasSent =>
                trace := trace.Send(held.value);
                c := Ready(URecv);
            }
        }
      case UStop =>
        c := Panicked;
    }

    method Deliver(index: byte, message: seq<byte>)
      requires Valid()
      modifies pool
      ensures View() == old(View()).Deliver(index, message)
    {
      if index < |pool| {
        ghost var before := Views(pool);
        var sent := pool[index].Send(message);
        assert Views(pool) == before[index := before[index].Send(message)];
      }
    }

    method Pong(ready: ReadyAnswer, send: SendAnswer) returns (c: Call<ReadState>)
      requires Valid()
      modifies this, rx
      ensures (c, View()) == old(View()).Pong(ready, send)
    {
      trace := trace.Ping();
      lastKeepAlive := clock.now;
      writeState := UWrite(Some(KeepAlive));
      var written := PollWriteState(ready, send);
      if written.Panicked? {
        return Panicked;
      }
      if written.Ready? {
        writeState := written.value;
        if writeState.UStop? {
          return Ready(ReadStop);
        }
      }
      c := Ready(ReadContinue);
    }

    method PollReadState(tick: bool, arrival: Arrival, ready: ReadyAnswer, send: SendAnswer)
      returns (c: Call<ReadState>)
      requires Valid()
      modifies this, rx, pool
      ensures (c, View()) == old(View()).PollRead(tick, arrival, ready, send)
    {
      if tick {
        var lastAlive := Minus(lastKeepAlive, clock.now);
        if lastAlive > KEEP_ALIVE_TIMEOUT {
          return Ready(ReadStop);
        }
      }
      match arrival
      case Nothing => c := Pending;
      case ReadFailed => c := Ready(ReadStop);
      case Malformed => c := Ready(ReadStop);
      case Arrived(packet) =>
        trace := trace.Arrive(packet);
        match packet {
          case Forward(index, message) =>
            Deliver(index, message);
            c := Ready(ReadContinue);
          case KeepAlive => c := Pong(ready, send);
          case Initiate(_) => c := Ready(ReadContinue);
          case Initiated(_) => c := Ready(ReadContinue);
        }
    }

    /** The future has completed or panicked: the tunnel is dropped with its channel ends. */
    method Drop(ghost end: Phase)
      requires Valid()
      modifies this`phase, this`trace, rx, pool
      ensures View() == old(View()).Retire(end)
    {
      phase := end;
      trace := trace.Mark(Discarded);
      rx.DropReceiver();
      for i := 0 to |pool|
        invariant phase == end && rx.View() == old(rx.View()).DropReceiver() && trace == old(trace).Mark(Discarded)
        invariant forall k | 0 <= k < i :: pool[k].View() == old(pool[k].View()).DropSender(0)
        invariant forall k | i <= k < |pool| :: pool[k].View() == old(pool[k].View())
      {
        pool[i].DropSender(0);
      }
      assert Views(pool) == old(View()).Retire(end).pool;
    }

    /** The body of the write loop. */
    method WriteTurn(ready: ReadyAnswer, send: SendAnswer) returns (turn: Turn)
      requires Valid() && phase.Writing?
      modifies this, rx, pool
      ensures View() == old(View()).Next(UdpWrite(ready, send))
      ensures if turn.Done? then !phase.Live() else phase == (if turn.Again? then Writing else Reading)
      ensures turn.Again? ==> UdpWork(View()) < old(UdpWork(View()))
    {
      ghost var before := View();
      UdpWriteTurn(before, ready, send);
      var c := PollWriteState(ready, send);
      if c.Pending? {
        phase := Reading;
        return Blocked;
      }
      if c.Panicked? {
        Drop(Crashed);
        return Done;
      }
      writeState := c.value;
      if writeState.UStop? {
        Drop(Finished(if before.ws.URecv? then ChannelClosed else WriteFailed));
        return Done;
      }
      turn := Again;
    }

    /** The body of the read loop. */
    method ReadTurn(tick: bool, arrival: Arrival, ready: ReadyAnswer, send: SendAnswer) returns (turn: Turn)
      requires Valid() && phase.Reading?
      modifies this, rx, pool
      ensures View() == old(View()).Next(UdpRead(tick, arrival, ready, send))
      ensures if turn.Done? then !phase.Live() else phase == (if turn.Again? then Reading else Idle)
      ensures !tick && arrival.Nothing? ==> turn.Blocked?
    {
      ghost var before := View();
      UdpReadTurn(before, tick, arrival, ready, send);
      var c := PollReadState(tick, arrival, ready, send);
      if c.Pending? {
        phase := Idle;
        return Blocked;
      }
      if c.Panicked? {
        Drop(Crashed);
        return Done;
      }
      if c.value.ReadStop? {
        Drop(Finished(before.StopReason(tick, View())));
        return Done;
      }
      turn := Again;
    }

    /** The task is woken and runs the write loop. With a dependable socket it sends exactly
        what the writer holds and then what is queued, and ends the tunnel if its sockets are
        gone. */
    method WriteLoop(writes: nat -> (ReadyAnswer, SendAnswer)) returns (turn: Turn, ghost steps: seq<UdpStep>)
      requires Valid() && phase.Idle?
      modifies this, rx, pool
      ensures View() == UdpRun(old(View()), steps)
      ensures !turn.Again? && if turn.Done? then !phase.Live() else phase.Reading?
      ensures |steps| <= 2 * |old(rx.queue)| + 3 && WritesOf(writes, steps)
      ensures AllSent(writes) && old(WriterReady()) ==>
                && trace.sent == old(trace.sent) + Due(old(View()))
                && Due(View()) == []
                && if old(rx.senders) == {} then phase == Finished(ChannelClosed) else turn.Blocked?
    {
      hide WritesOf, AllSent, UdpState.Next, Due;
      ghost var start := View();
      Runs.RunSnoc(UdpNext, start, [], UdpWake);
      assert [] + [UdpWake] == [UdpWake];
      WokenUp(start);
      WritesStart(writes);
      phase := Writing;
      ghost var now := View();
      steps := [UdpWake];
      turn := Again;
      var k := 0;
      while turn.Again?
        invariant View() == now && now == UdpRun(start, steps)
        invariant if turn.Done? then !phase.Live() else phase == (if turn.Again? then Writing else Reading)
        invariant |steps| == k + 1 && WritesOf(writes, steps)
        invariant |steps| + (if turn.Again? then UdpWork(now) + 1 else 0) <= UdpWork(start) + 2
        invariant AllSent(writes) && old(WriterReady()) ==> Sending(start, now)
        decreases turn.Again?, UdpWork(now)
      {
        var (ready, send) := writes(k);
        WritesSnoc(writes, steps);
        if AllSent(writes) && old(WriterReady()) {
          SentAt(writes, k);
          SendingOn(start, now);
        }
        turn := WriteTurn(ready, send);
        Runs.RunSnoc(UdpNext, start, steps, UdpWrite(ready, send));
        steps := steps + [UdpWrite(ready, send)];
        now := View();
        k := k + 1;
      }
      if AllSent(writes) && old(WriterReady()) {
        SendingEnds(start, now);
      }
    }

    method ReadLoop(inputs: seq<(bool, Arrival, ReadyAnswer, SendAnswer)>)
      returns (turn: Turn, ghost steps: seq<UdpStep>)
      requires Valid() && phase.Reading?
      modifies this, rx, pool
      ensures View() == UdpRun(old(View()), steps)
      ensures !turn.Again? && if turn.Done? then !phase.Live() else phase.Idle?
      ensures |steps| <= |inputs| + 1 && ReadsOf(inputs, steps)
    {
      hide UdpState.Next;
      ghost var start, now := View(), View();
      steps := [];
      turn := Again;
      var j := 0;
      while turn.Again?
        invariant View() == now && now == UdpRun(start, steps)
        invariant if turn.Done? then !phase.Live() else phase == (if turn.Again? then Reading else Idle)
        invariant |steps| == j && j <= |inputs| + 1 && (j == |inputs| + 1 ==> !turn.Again?)
        invariant ReadsOf(inputs, steps)
        decreases |inputs| + 1 - j
      {
        var (tick, arrival, ready, send) := if j < |inputs| then inputs[j] else (false, Nothing, NotReady, NotSent);
        turn := ReadTurn(tick, arrival, ready, send);
        Runs.RunSnoc(UdpNext, start, steps, UdpRead(tick, arrival, ready, send));
        steps := steps + [UdpRead(tick, arrival, ready, send)];
        now := View();
        j := j + 1;
      }
    }

    /** No hole is open: the writer waits, or holds a packet. */
    predicate WriterReady()
      reads this
    {
      writeState != UWrite(None) && !writeState.UStop?
    }

    /** One poll, as a run of the task's steps with these answers. Its write loop makes at most
        two calls a queued message and one for a message already held, besides the one that
        ends it; with a dependable socket, and the sockets gone, it sends all that is left and
        ends the tunnel. */
    method Poll(writes: nat -> (ReadyAnswer, SendAnswer), inputs: seq<(bool, Arrival, ReadyAnswer, SendAnswer)>)
      returns (done: bool, ghost written: seq<UdpStep>, ghost read: seq<UdpStep>)
      requires Valid() && phase.Idle?
      modifies this, rx, pool
      ensures View() == UdpRun(old(View()), written + read)
      ensures if done then !phase.Live() else phase.Idle?
      ensures |written| <= 2 * |old(rx.queue)| + 3 && |read| <= |inputs| + 1
      ensures WritesOf(writes, written) && ReadsOf(inputs, read)
      ensures AllSent(writes) && old(WriterReady()) && old(rx.senders) == {} ==>
                done && phase == Finished(ChannelClosed) && trace.sent == old(trace.sent) + Due(old(View()))
    {
      hide AllSent, WritesOf, ReadsOf, Due;
      ghost var start := View();
      var turn;
      turn, written := WriteLoop(writes);
      read := [];
      NoReads(inputs);
      if turn.Blocked? {
        turn, read := ReadLoop(inputs);
      }
      Runs.RunConcat(UdpNext, start, written, read);
      assert written + [] == written;
      done := turn.Done?;
    }
  }

  /** The steps of a write loop with these answers. */
  ghost predicate WritesOf(writes: nat -> (ReadyAnswer, SendAnswer), steps: seq<UdpStep>) {
    && steps != [] && steps[0] == UdpWake
    && forall k: nat | 0 < k < |steps| :: steps[k] == UdpWrite(writes(k - 1).0, writes(k - 1).1)
  }

  lemma WritesStart(writes: nat -> (ReadyAnswer, SendAnswer))
    ensures WritesOf(writes, [UdpWake])
  {
  }

  lemma WritesSnoc(writes: nat -> (ReadyAnswer, SendAnswer), steps: seq<UdpStep>)
    requires WritesOf(writes, steps)
    ensures var (ready, send) := writes(|steps| - 1); WritesOf(writes, steps + [UdpWrite(ready, send)])
  {
  }

  /** The steps of a read loop with these answers, and nothing to read after them. */
  ghost predicate ReadsOf(inputs: seq<(bool, Arrival, ReadyAnswer, SendAnswer)>, steps: seq<UdpStep>) {
    forall k: nat | k < |steps| ::
      steps[k] == if k < |inputs| then UdpRead(inputs[k].0, inputs[k].1, inputs[k].2, inputs[k].3)
                  else UdpRead(false, Nothing, NotReady, NotSent)
  }

  lemma NoReads(inputs: seq<(bool, Arrival, ReadyAnswer, SendAnswer)>)
    ensures ReadsOf(inputs, [])
  {
  }

  /** The socket takes whatever it is given. */
  ghost predicate AllSent(writes: nat -> (ReadyAnswer, SendAnswer)) {
    forall k :: writes(k) == (IsReady, WasSent)
  }

  lemma SentAt(writes: nat -> (ReadyAnswer, SendAnswer), k: nat)
    requires AllSent(writes)
    ensures writes(k) == (IsReady, WasSent)
  {
  }

  /** A write loop over a dependable socket that began at `start` and is now at `t`. */
  ghost predicate Sending(start: UdpState, t: UdpState) {
    && t.trace.sent + Due(t) == start.trace.sent + Due(start)
    && t.rx.senders == start.rx.senders
    && (t.phase.Live() ==> t.ws != UWrite(None) && !t.ws.UStop?)
    && (t.phase.Reading? ==> Due(t) == [] && t.rx.senders != {})
    && (!t.phase.Live() ==> Due(t) == [] && t.rx.senders == {} && t.phase == Finished(ChannelClosed))
  }

  lemma WokenUp(t: UdpState)
    requires t.phase.Idle?
    ensures t.Next(UdpWake) == t.(phase := Writing)
    ensures t.ws != UWrite(None) && !t.ws.UStop? ==> Sending(t, t.(phase := Writing))
  {
  }

  lemma SendingOn(start: UdpState, t: UdpState)
    requires Sending(start, t) && t.phase.Writing?
    ensures Sending(start, t.Next(UdpWrite(IsReady, WasSent)))
  {
    DependableWrite(t);
  }

  lemma SendingEnds(start: UdpState, t: UdpState)
    requires Sending(start, t) && !t.phase.Writing? && !t.phase.Idle?
    ensures t.trace.sent == start.trace.sent + Due(start) && Due(t) == []
    ensures if start.rx.senders == {} then t.phase == Finished(ChannelClosed) else t.phase.Reading?
  {
    assert t.trace.sent + [] == t.trace.sent;
  }

  // ---- Any schedule ----

  /** One poll by the runtime with what the outside answers during it, or an event between
      polls: a socket's doing on the channels, or time that passes. */
  datatype UdpChoice =
    | UdpPolled(writes: nat -> (ReadyAnswer, SendAnswer), inputs: seq<(bool, Arrival, ReadyAnswer, SendAnswer)>)
    | UdpEvent(event: UdpStep)

  predicate IsEvent(step: UdpStep) {
    step.Enqueue? || step.SocketTakes? || step.SocketGone? || step.Elapse?
  }

  /** What a choice comes to: the steps of a poll, nothing for a task that is not waiting. */
  ghost predicate Served(t: UdpState, choice: UdpChoice, steps: seq<UdpStep>) {
    match choice
    case UdpPolled(writes, inputs) =>
      if t.phase.Idle? then
        exists written, read :: WritesOf(writes, written) && ReadsOf(inputs, read) && steps == written + read
      else steps == []
    case UdpEvent(event) => steps == if IsEvent(event) then [event] else []
  }

  method Happen(tunnel: UdpTunnel, event: UdpStep)
    requires tunnel.Valid() && IsEvent(event)
    modifies tunnel.rx, tunnel.pool, tunnel.clock
    ensures tunnel.View() == old(tunnel.View()).Next(event)
  {
    ghost var before := Views(tunnel.pool);
    match event {
      case Enqueue(index, message) =>
        var ok := tunnel.rx.Send(Forward(index, message));
      case SocketTakes(i) =>
        if i as int < |tunnel.pool| {
          var taken := tunnel.pool[i].PollRecv();
          assert Views(tunnel.pool) == before[i := before[i].Recv().1];
        }
      case SocketGone(i) =>
        tunnel.rx.DropSender(i);
        if i as int < |tunnel.pool| {
          tunnel.pool[i].DropReceiver();
          assert Views(tunnel.pool) == before[i := before[i].DropReceiver()];
        }
      case Elapse(seconds) =>
        tunnel.clock.Elapse(seconds);
    }
  }

  /** One choice of the schedule. */
  method Turn(tunnel: UdpTunnel, choice: UdpChoice, waiting: bool) returns (waits: bool, ghost steps: seq<UdpStep>)
    requires tunnel.Valid() && waiting == tunnel.phase.Idle?
    modifies tunnel, tunnel.rx, tunnel.pool, tunnel.clock
    ensures waits == tunnel.phase.Idle?
    ensures tunnel.View() == UdpRun(old(tunnel.View()), steps) && Served(old(tunnel.View()), choice, steps)
  {
    hide UdpState.Next, WritesOf, ReadsOf;
    ghost var before := tunnel.View();
    waits, steps := waiting, [];
    match choice {
      case UdpPolled(writes, inputs) =>
        if waiting {
          var done;
          ghost var written, read;
          done, written, read := tunnel.Poll(writes, inputs);
          waits, steps := !done, written + read;
        }
      case UdpEvent(event) =>
        if IsEvent(event) {
          Happen(tunnel, event);
          steps := [event];
          Runs.RunSnoc(UdpNext, before, [], event);
          assert [] + [event] == [event];
        }
    }
  }

  method NewUdpTunnel(now: int) returns (tunnel: UdpTunnel)
    ensures tunnel.Valid() && tunnel.View() == UdpInitial(now)
    ensures fresh(tunnel) && fresh(tunnel.rx) && fresh(tunnel.clock) && fresh(set c | c in tunnel.pool)
  {
    var clock := new Clock(now);
    var rx := new Channel<Packet>({0, 1, 2, 3});
    var pool: seq<Channel<seq<byte>>> := [];
    for i := 0 to 4
      invariant |pool| == i
      invariant forall c | c in pool :: fresh(c) && c.View() == Chan([], [], {0}, true)
      invariant forall j, k | 0 <= j < k < i :: pool[j] != pool[k]
      invariant rx.View() == Chan([], [], {0, 1, 2, 3}, true) && fresh(rx) && fresh(clock) && clock.now == now
    {
      var c := new Channel<seq<byte>>({0});
      pool := pool + [c];
    }
    tunnel := new UdpTunnel(rx, pool, clock);
    assert Views(pool) == UdpInitial(now).pool;
  }

  /** A new tunnel, polled by the runtime in the order of the schedule, while its sockets and
      the clock do what they do in between: a run of the machine from its initial state, made
      of these polls and events. */
  method RunUdp(now: int, schedule: seq<UdpChoice>) returns (tunnel: UdpTunnel, ghost parts: seq<seq<UdpStep>>)
    ensures tunnel.Valid() && tunnel.View() == UdpAfter(now, Concat(parts))
    ensures Runs.Follows(UdpNext, Served, UdpInitial(now), schedule, parts)
  {
    hide UdpState.Next, Served, Runs.Follows;
    tunnel := NewUdpTunnel(now);
    var waiting := true;
    parts := [];
    Runs.NothingFollows<UdpState, UdpChoice, UdpStep>(UdpNext, Served, UdpInitial(now));
    assert schedule[..0] == [];
    for k := 0 to |schedule|
      invariant fresh(tunnel) && fresh(tunnel.rx) && fresh(tunnel.clock)
      invariant fresh(set c | c in tunnel.pool)
      invariant tunnel.Valid() && tunnel.View() == UdpAfter(now, Concat(parts))
      invariant waiting == tunnel.phase.Idle?
      invariant Runs.Follows(UdpNext, Served, UdpInitial(now), schedule[..k], parts)
    {
      ghost var more;
      waiting, more := Turn(tunnel, schedule[k], waiting);
      Runs.FollowsSnoc(UdpNext, Served, UdpInitial(now), schedule[..k], parts, schedule[k], more);
      assert schedule[..k + 1] == schedule[..k] + [schedule[k]];
      parts := parts + [more];
    }
    assert schedule[..|schedule|] == schedule;
  }

  function UdpWork(t: UdpState): nat {
    2 * |t.rx.queue| + (if t.ws.UWrite? then 1 else 0)
  }

  lemma UdpWriteTurn(t: UdpState, ready: ReadyAnswer, send: SendAnswer)
    ensures var (c, t') := t.PollWrite(ready, send);
            && t'.phase == t.phase && t'.now == t.now
            && (c.Ready? && !c.value.UStop? ==> UdpWork(t'.(ws := c.value)) < UdpWork(t))
  {
  }

  lemma UdpReadTurn(t: UdpState, tick: bool, arrival: Arrival, ready: ReadyAnswer, send: SendAnswer)
    ensures var (c, t') := t.PollRead(tick, arrival, ready, send); t'.phase == t.phase && t'.now == t.now
  {
    if arrival.Arrived? {
      UdpWriteTurn(t.Heard(arrival.p).Answering(), ready, send);
    }
  }
}
