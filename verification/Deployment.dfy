/** The objects of one tunnel put together, and every schedule of their polls as a run of the
    system. */
module Deployment {
  import opened Wrappers
  import opened Bytes
  import opened FramedIo
  import opened TunnelCodecs
  import opened Channels
  import opened TunnelTask
  import opened SocketTask
  import opened TunnelSystem
  import opened TunnelShutdown
  import Retry
  import Runs
  import SocketObjects
  import TunnelObjects

  // ---- The objects ----

  /** Socket `i` receives from the tunnel's `i`-th pool channel and sends to its own channel. */
  ghost predicate Deployed(tunnel: TunnelObjects.Tunnel, sockets: seq<SocketObjects.Socket>)
    reads tunnel, tunnel.io, tunnel.io.Repr()
  {
    && tunnel.Valid()
    && |sockets| == SOCKET_POOL_SIZE
    && (forall i | 0 <= i < |sockets| ::
          && sockets[i].Valid() && sockets[i] !in tunnel.Repr()
          && sockets[i].rx == tunnel.pool[i] && sockets[i].tunTx == tunnel.rx)
    && (forall i, j | 0 <= i < j < |sockets| :: sockets[i] != sockets[j])
  }

  /** Every object there is. */
  ghost function Objects(tunnel: TunnelObjects.Tunnel, sockets: seq<SocketObjects.Socket>): set<object> {
    tunnel.Repr() + (set s | s in sockets)
  }

  ghost function States(sockets: seq<SocketObjects.Socket>): seq<SocketState>
    reads sockets
  {
    seq(|sockets|, i requires 0 <= i < |sockets| reads sockets => sockets[i].State())
  }

  /** The state of a tunnel object and its sockets, as the system describes it. */
  ghost function SystemView(tunnel: TunnelObjects.Tunnel, sockets: seq<SocketObjects.Socket>): System
    reads tunnel, tunnel.io, tunnel.rx, tunnel.pool, sockets
  {
    System(tunnel.View(), States(sockets))
  }

  // ---- Creating them ----

  type Started = Result<(), Retry.TunnelError>

  /** The pool: one socket an index, each with a channel of its own and a sender to the tunnel.
      `starts` is what binding and connecting each socket comes to; if one fails, so does the
      pool, and the channels it has made lose their sender. */
  method AllocatePool(tunTx: Channel<Message>, starts: nat -> Started)
    returns (result: Result<seq<Channel<Message>>, Retry.TunnelError>, sockets: seq<SocketObjects.Socket>)
    ensures result.Success? <==> forall i | 0 <= i < SOCKET_POOL_SIZE :: starts(i).Success?
    ensures result.Failure? ==>
              exists i :: 0 <= i < SOCKET_POOL_SIZE && starts(i) == Failure(result.error) && |sockets| == i
    ensures result.Success? ==> |result.value| == |sockets| == SOCKET_POOL_SIZE
    ensures forall i, j | 0 <= i < j < |sockets| :: sockets[i] != sockets[j] && sockets[i].rx != sockets[j].rx
    ensures forall i: byte | i as int < |sockets| ::
              && fresh(sockets[i]) && fresh(sockets[i].rx) && sockets[i].tunTx == tunTx && sockets[i].Valid()
              && sockets[i].State() == SocketState(i, SRecv, Idle, [], 0, [], [])
              && sockets[i].rx.View() == Chan([], [], if result.Success? then {0} else {}, true)
              && (result.Success? ==> result.value[i] == sockets[i].rx)
  {
    var pool: seq<Channel<Message>> := [];
    sockets := [];
    for i: nat := 0 to SOCKET_POOL_SIZE
      invariant |pool| == |sockets| == i
      invariant forall j | 0 <= j < i :: starts(j).Success?
      invariant forall j, k | 0 <= j < k < i :: sockets[j] != sockets[k] && pool[j] != pool[k]
      invariant forall j: byte | j < i ::
                  && fresh(sockets[j]) && fresh(pool[j]) && sockets[j].rx == pool[j]
                  && sockets[j].tunTx == tunTx && sockets[j].Valid()
                  && sockets[j].State() == SocketState(j, SRecv, Idle, [], 0, [], [])
                  && pool[j].View() == Chan([], [], {0}, true)
    {
      var started := starts(i);
      if started.Failure? {
        for k := 0 to i
          invariant forall j: byte | j < i ::
                      && sockets[j].State() == SocketState(j, SRecv, Idle, [], 0, [], [])
                      && pool[j].View() == Chan([], [], if j < k then {} else {0}, true)
        {
          pool[k].DropSender(0);
        }
        return Failure(started.error), sockets;
      }
      var rx := new Channel<Message>({0});
      var socket := new SocketObjects.Socket(i, rx, tunTx);
      pool, sockets := pool + [rx], sockets + [socket];
    }
    result := Success(pool);
  }

  lemma NewSystem(tunnel: TunnelObjects.Tunnel, sockets: seq<SocketObjects.Socket>)
    requires |tunnel.pool| == |sockets| == SOCKET_POOL_SIZE
    requires tunnel.View() == TunnelState(Recv, Idle, FreshIo(), 0, Chan([], [], {0, 1, 2, 3}, true),
                                          Views(tunnel.pool))
    requires forall i: byte | i < SOCKET_POOL_SIZE ::
               && sockets[i].State() == SocketState(i, SRecv, Idle, [], 0, [], [])
               && tunnel.pool[i].View() == Chan([], [], {0}, true)
    ensures SystemView(tunnel, sockets) == Initial()
  {
    assert Views(tunnel.pool) == Initial().tunnel.pool;
    assert States(sockets) == Initial().socks;
  }

  /** The tunnel task, put together from its channel and its pool. */
  method Assemble(rx: Channel<Message>, pool: seq<Channel<Message>>, sockets: seq<SocketObjects.Socket>)
    returns (tunnel: TunnelObjects.Tunnel)
    requires |pool| == |sockets| == SOCKET_POOL_SIZE && rx !in pool
    requires rx.View() == Chan([], [], {0, 1, 2, 3}, true)
    requires forall i, j | 0 <= i < j < |sockets| :: sockets[i] != sockets[j] && pool[i] != pool[j]
    requires forall i: byte | i < SOCKET_POOL_SIZE ::
               && sockets[i].Valid() && sockets[i].rx == pool[i] && sockets[i].tunTx == rx
               && sockets[i].State() == SocketState(i, SRecv, Idle, [], 0, [], [])
               && pool[i].View() == Chan([], [], {0}, true)
    ensures Deployed(tunnel, sockets) && SystemView(tunnel, sockets) == Initial()
    ensures tunnel.rx == rx && tunnel.pool == pool
    ensures fresh(tunnel) && fresh(tunnel.io) && fresh(tunnel.io.Repr())
  {
    hide Initial, FreshIo, States;
    var io := new Framed();
    tunnel := new TunnelObjects.Tunnel(io, rx, pool);
    NewSystem(tunnel, sockets);
  }

  /** A newly created tunnel is wired to its sockets and in the initial state of the system.
      `server` is what connecting to the server comes to. If it fails, the sockets started so
      far find both their channels closed. */
  method CreateTunnel(server: Started, starts: nat -> Started)
    returns (result: Result<TunnelObjects.Tunnel, Retry.TunnelError>, sockets: seq<SocketObjects.Socket>)
    ensures result.Success? <==>
              server.Success? && forall i | 0 <= i < SOCKET_POOL_SIZE :: starts(i).Success?
    ensures server.Failure? ==> result == Failure(server.error) && sockets == []
    ensures server.Success? && result.Failure? ==>
              exists i :: 0 <= i < SOCKET_POOL_SIZE && starts(i) == Failure(result.error)
    ensures result.Failure? ==>
              forall i: byte | i as int < |sockets| :: !sockets[i].tunTx.receiving && sockets[i].rx.senders == {}
    ensures result.Success? ==>
              && Deployed(result.value, sockets) && fresh(Objects(result.value, sockets))
              && SystemView(result.value, sockets) == Initial()
  {
    hide Deployed, SystemView, Initial;
    if server.Failure? {
      return Failure(server.error), [];
    }
    var rx := new Channel<Message>({0, 1, 2, 3});
    var pool;
    pool, sockets := AllocatePool(rx, starts);
    if pool.Failure? {
      rx.DropReceiver();
      return Failure(pool.error), sockets;
    }
    var tunnel := Assemble(rx, pool.value, sockets);
    result := Success(tunnel);
  }

  // ---- Polling them ----

  function OfTunnelSteps(steps: seq<Step>): seq<SystemStep> {
    seq(|steps|, i requires 0 <= i < |steps| => OfTunnel(steps[i]))
  }

  function OfSocketSteps(i: byte, steps: seq<SocketStep>): seq<SystemStep> {
    seq(|steps|, k requires 0 <= k < |steps| => OfSocket(i, steps[k]))
  }

  /** A run of the tunnel's steps, as its `Poll` makes one, is a run of the system. */
  lemma {:induction false} TunnelRunInSystem(s: System, steps: seq<Step>)
    ensures Exec(s, OfTunnelSteps(steps)) == System(s.tunnel.Run(steps), s.socks)
    decreases |steps|
  {
    if steps != [] {
      var front := steps[..|steps| - 1];
      TunnelRunInSystem(s, front);
      assert OfTunnelSteps(steps)[..|steps| - 1] == OfTunnelSteps(front);
    }
  }

  /** So is a run of a socket's steps. */
  lemma {:induction false} SocketRunInSystem(s: System, i: byte, steps: seq<SocketStep>)
    requires s.Shaped() && i < SOCKET_POOL_SIZE
    ensures Exec(s, OfSocketSteps(i, steps)) == s.Put(i, s.View(i).Run(steps))
    decreases |steps|
  {
    if steps == [] {
      assert s.tunnel.pool[i := s.tunnel.pool[i]] == s.tunnel.pool && s.socks[i := s.socks[i]] == s.socks;
    } else {
      var front := steps[..|steps| - 1];
      SocketRunInSystem(s, i, front);
      assert OfSocketSteps(i, steps)[..|steps| - 1] == OfSocketSteps(i, front);
    }
  }

  /** Polling the deployed tunnel moves the system by a run of the tunnel's steps, with the
      answers given. */
  method PollTunnel(tunnel: TunnelObjects.Tunnel, sockets: seq<SocketObjects.Socket>,
                    writes: nat -> IoAnswer, inputs: seq<(ReadAnswer, IoAnswer)>)
    returns (done: bool, ghost written: seq<Step>, ghost read: seq<Step>)
    requires Deployed(tunnel, sockets) && SystemView(tunnel, sockets).Ok() && tunnel.phase.Idle?
    modifies tunnel.Repr()
    ensures Deployed(tunnel, sockets) && SystemView(tunnel, sockets).Ok()
    ensures SystemView(tunnel, sockets) == Exec(old(SystemView(tunnel, sockets)), OfTunnelSteps(written + read))
    ensures TunnelObjects.WritesOf(writes, written) && TunnelObjects.ReadsOf(inputs, read)
    ensures if done then tunnel.phase.Finished? else tunnel.phase.Idle?
    ensures old(tunnel.rx.senders) == {} && TunnelObjects.AllAccepted(writes) ==>
              done && tunnel.phase == Finished(ChannelClosed) && tunnel.View().Flushed()
  {
    hide TunnelState.Ok, TunnelState.Flushed, TunnelObjects.WritesOf, TunnelObjects.ReadsOf, TunnelObjects.AllAccepted;
    ghost var before := SystemView(tunnel, sockets);
    done, written, read := tunnel.Poll(writes, inputs);
    TunnelRunInSystem(before, written + read);
    ExecOk(before, OfTunnelSteps(written + read));
    assert States(sockets) == before.socks;
  }

  /** Polling a deployed socket moves the system by a run of that socket's steps, with the
      answers given. */
  method PollSocket(tunnel: TunnelObjects.Tunnel, sockets: seq<SocketObjects.Socket>, i: byte,
                    sends: seq<SendAnswer>, recvs: seq<RecvAnswer>)
    returns (done: bool, ghost written: seq<SocketStep>, ghost read: seq<SocketStep>)
    requires i < SOCKET_POOL_SIZE
    requires Deployed(tunnel, sockets) && SystemView(tunnel, sockets).Ok() && sockets[i].phase.Idle?
    modifies sockets[i], tunnel.pool[i], tunnel.rx
    ensures Deployed(tunnel, sockets) && SystemView(tunnel, sockets).Ok()
    ensures SystemView(tunnel, sockets) == Exec(old(SystemView(tunnel, sockets)), OfSocketSteps(i, written + read))
    ensures SocketObjects.SendsOf(sends, written) && SocketObjects.RecvsOf(recvs, read)
    ensures if done then sockets[i].phase.Finished? else sockets[i].phase.Idle?
    ensures old(tunnel.pool[i].senders) == {} && SocketObjects.Accepting(sends) &&
            |sends| > SocketWork(old(sockets[i].View())) + StallCount(old(sockets[i].View()), written) ==>
              && done && sockets[i].phase == Finished(ChannelClosed)
              && AllSent(sockets[i].State(), old(tunnel.pool[i].log))
  {
    hide TunnelState.Ok, SocketObjects.SendsOf, SocketObjects.RecvsOf, SocketWork, StallCount, AllSent;
    ghost var before := SystemView(tunnel, sockets);
    OwnView(before, i);
    assert sockets[i].View() == before.View(i);
    done, written, read := sockets[i].Poll(sends, recvs);
    SocketRunInSystem(before, i, written + read);
    ExecOk(before, OfSocketSteps(i, written + read));
    assert SystemView(tunnel, sockets) == before.Put(i, sockets[i].View()) by {
      assert States(sockets) == before.socks[i := sockets[i].State()];
      assert Views(tunnel.pool) == before.tunnel.pool[i := tunnel.pool[i].View()];
    }
  }

  // ---- Any schedule ----

  /** One poll by the runtime, with what the outside answers during it. */
  datatype Choice =
    | TunnelTurn(writes: nat -> IoAnswer, inputs: seq<(ReadAnswer, IoAnswer)>)
    | SocketTurn(i: byte, sends: seq<SendAnswer>, recvs: seq<RecvAnswer>)

  /** The steps of a poll with these answers. */
  ghost predicate Taken(choice: Choice, steps: seq<SystemStep>) {
    match choice
    case TunnelTurn(writes, inputs) =>
      exists written, read :: && TunnelObjects.WritesOf(writes, written)
                              && TunnelObjects.ReadsOf(inputs, read)
                              && steps == OfTunnelSteps(written + read)
    case SocketTurn(i, sends, recvs) =>
      exists written, read :: && SocketObjects.SendsOf(sends, written)
                              && SocketObjects.RecvsOf(recvs, read)
                              && steps == OfSocketSteps(i, written + read)
  }

  /** The phase of the task a choice polls; what is no task counts as completed. */
  function PhaseOf(s: System, choice: Choice): Phase {
    match choice
    case TunnelTurn(_, _) => s.tunnel.phase
    case SocketTurn(i, _, _) => if i as int < |s.socks| then s.socks[i].phase else Finished(TunnelGone)
  }

  /** What a choice comes to: a poll of a task that waits, until it waits again or completes;
      nothing for a task that has completed. */
  ghost predicate Served(s: System, choice: Choice, steps: seq<SystemStep>) {
    if PhaseOf(s, choice).Idle? then
      && Taken(choice, steps)
      && (PhaseOf(Exec(s, steps), choice).Idle? || PhaseOf(Exec(s, steps), choice).Finished?)
    else
      PhaseOf(s, choice).Finished? && steps == []
  }

  lemma IdleAtFirst(tunnel: TunnelObjects.Tunnel, sockets: seq<SocketObjects.Socket>)
    requires SystemView(tunnel, sockets) == Initial()
    ensures tunnel.phase.Idle?
    ensures forall i | 0 <= i < |sockets| :: sockets[i].phase.Idle?
  {
    forall i | 0 <= i < |sockets| ensures sockets[i].phase.Idle? {
      assert sockets[i].State() == SystemView(tunnel, sockets).socks[i];
    }
  }

  lemma PhaseSeen(tunnel: TunnelObjects.Tunnel, sockets: seq<SocketObjects.Socket>, choice: Choice)
    requires |sockets| == SOCKET_POOL_SIZE
    ensures PhaseOf(SystemView(tunnel, sockets), choice) ==
            match choice
            case TunnelTurn(_, _) => tunnel.phase
            case SocketTurn(i, _, _) => if i < SOCKET_POOL_SIZE then sockets[i].phase else Finished(TunnelGone)
  {
  }

  /** One choice of the schedule. */
  method Turn(tunnel: TunnelObjects.Tunnel, sockets: seq<SocketObjects.Socket>, choice: Choice)
    returns (done: bool, ghost steps: seq<SystemStep>)
    requires Deployed(tunnel, sockets) && SystemView(tunnel, sockets).Ok()
    requires PhaseOf(SystemView(tunnel, sockets), choice).Idle?
    modifies Objects(tunnel, sockets)
    ensures Deployed(tunnel, sockets) && SystemView(tunnel, sockets).Ok()
    ensures SystemView(tunnel, sockets) == Exec(old(SystemView(tunnel, sockets)), steps)
    ensures Served(old(SystemView(tunnel, sockets)), choice, steps)
    ensures PhaseOf(SystemView(tunnel, sockets), choice).Idle? == !done
    ensures choice.SocketTurn? ==> tunnel.phase == old(tunnel.phase)
    ensures forall k: byte | k < SOCKET_POOL_SIZE && !(choice.SocketTurn? && choice.i == k) ::
              sockets[k].phase == old(sockets[k].phase)
  {
    hide System.Ok, Exec, TunnelObjects.WritesOf, TunnelObjects.ReadsOf, SocketObjects.SendsOf, SocketObjects.RecvsOf;
    PhaseSeen(tunnel, sockets, choice);
    match choice {
      case TunnelTurn(writes, inputs) =>
        ghost var written, read;
        done, written, read := PollTunnel(tunnel, sockets, writes, inputs);
        steps := OfTunnelSteps(written + read);
      case SocketTurn(i, sends, recvs) =>
        ghost var written, read;
        done, written, read := PollSocket(tunnel, sockets, i, sends, recvs);
        steps := OfSocketSteps(i, written + read);
    }
    assert Taken(choice, steps);
    PhaseSeen(tunnel, sockets, choice);
  }

  /** The runtime polls the tasks in the order of the schedule, and none that has completed.
      That is the run of the system made of these polls, so all that holds of every run holds
      of the objects. */
  method RunTasks(tunnel: TunnelObjects.Tunnel, sockets: seq<SocketObjects.Socket>, schedule: seq<Choice>)
    returns (ghost parts: seq<seq<SystemStep>>)
    requires Deployed(tunnel, sockets) && SystemView(tunnel, sockets) == Initial()
    modifies Objects(tunnel, sockets)
    ensures Deployed(tunnel, sockets) && SystemView(tunnel, sockets).Ok()
    ensures SystemView(tunnel, sockets) == Exec(Initial(), Concat(parts))
    ensures Runs.Follows(SystemNext, Served, Initial(), schedule, parts)
  {
    hide TunnelState.Ok, System.Ok, SystemView, Served, Runs.Run, Runs.Follows, PhaseOf;
    InitialOk();
    IdleAtFirst(tunnel, sockets);
    parts := [];
    Runs.NothingFollows<System, Choice, SystemStep>(SystemNext, Served, Initial());
    assert schedule[..0] == [];
    var tunnelRuns, socketRuns := true, [true, true, true, true];
    for k := 0 to |schedule|
      invariant Deployed(tunnel, sockets) && SystemView(tunnel, sockets).Ok()
      invariant SystemView(tunnel, sockets) == Exec(Initial(), Concat(parts))
      invariant Runs.Follows(SystemNext, Served, Initial(), schedule[..k], parts)
      invariant |socketRuns| == SOCKET_POOL_SIZE
      invariant if tunnelRuns then tunnel.phase.Idle? else tunnel.phase.Finished?
      invariant forall i | 0 <= i < SOCKET_POOL_SIZE ::
                  if socketRuns[i] then sockets[i].phase.Idle? else sockets[i].phase.Finished?
    {
      ghost var more := [];
      ghost var before := SystemView(tunnel, sockets);
      var choice := schedule[k];
      PhaseSeen(tunnel, sockets, choice);
      var runs := if choice.TunnelTurn? then tunnelRuns else choice.i < SOCKET_POOL_SIZE && socketRuns[choice.i];
      if runs {
        var done;
        done, more := Turn(tunnel, sockets, choice);
        PhaseSeen(tunnel, sockets, choice);
        ServedEnds(before, choice, more);
        if choice.TunnelTurn? {
          tunnelRuns := !done;
        } else {
          socketRuns := socketRuns[choice.i := !done];
        }
      } else {
        NothingServed(before, choice);
      }
      Runs.FollowsSnoc(SystemNext, Served, Initial(), schedule[..k], parts, choice, more);
      assert schedule[..k + 1] == schedule[..k] + [choice];
      parts := parts + [more];
    }
    assert schedule[..|schedule|] == schedule;
  }

  lemma NothingServed(s: System, choice: Choice)
    ensures PhaseOf(s, choice).Finished? ==> Served(s, choice, [])
    ensures Exec(s, []) == s
  {
  }

  lemma ServedEnds(s: System, choice: Choice, steps: seq<SystemStep>)
    requires Served(s, choice, steps) && PhaseOf(s, choice).Idle?
    ensures var phase := PhaseOf(Exec(s, steps), choice); phase.Idle? || phase.Finished?
  {
  }

  /** Creating a tunnel and running its tasks. */
  method RunTunnel(server: Started, starts: nat -> Started, schedule: seq<Choice>)
    returns (result: Result<TunnelObjects.Tunnel, Retry.TunnelError>, sockets: seq<SocketObjects.Socket>,
             ghost parts: seq<seq<SystemStep>>)
    ensures result.Success? ==>
              && Deployed(result.value, sockets)
              && SystemView(result.value, sockets) == Exec(Initial(), Concat(parts))
              && Runs.Follows(SystemNext, Served, Initial(), schedule, parts)
    ensures result.Success? <==>
              server.Success? && forall i | 0 <= i < SOCKET_POOL_SIZE :: starts(i).Success?
  {
    result, sockets := CreateTunnel(server, starts);
    parts := [];
    if result.Success? {
      parts := RunTasks(result.value, sockets, schedule);
    }
  }
}
