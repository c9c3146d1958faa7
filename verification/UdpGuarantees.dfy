/** What the UDP tunnel guarantees, what it loses, and exactly when it panics. */
module UdpGuarantees {
  import opened Wrappers
  import opened Bytes
  import opened Selection
  import opened TunnelTask
  import opened UdpTask
  import Runs

  function UdpAfter(now: int, steps: seq<UdpStep>): UdpState {
    UdpRun(UdpInitial(now), steps)
  }

  // ---- Accounting ----

  predicate IsSubsequence<T(==)>(a: seq<T>, b: seq<T>) {
    if a == [] then true
    else if b == [] then false
    else
      var a', b' := a[..|a| - 1], b[..|b| - 1];
      (a[|a| - 1] == b[|b| - 1] && IsSubsequence(a', b')) || IsSubsequence(a, b')
  }

  lemma {:induction false} ChosenIsSubsequence(ms: seq<Packet>, fates: seq<Fate>)
    requires |fates| == |ms|
    ensures IsSubsequence(Chosen(ms, fates), ms)
    ensures |Chosen(ms, fates)| == Count(fates, Fate.Sent)
  {
    if ms != [] {
      var last := |ms| - 1;
      var front := Chosen(ms[..last], fates[..last]);
      ChosenIsSubsequence(ms[..last], fates[..last]);
      assert (front + [ms[last]])[..|front|] == front;
      assert front + [] == front;
    }
  }

  lemma {:induction false} FatesPartition(fates: seq<Fate>)
    ensures |fates| == Count(fates, Fate.Sent) + Count(fates, Held) + Count(fates, Overwritten) +
                       Count(fates, Unsent) + Count(fates, Discarded)
  {
    if fates != [] {
      FatesPartition(fates[..|fates| - 1]);
    }
  }

  lemma {:induction false} AtMostOneHeld(fates: seq<Fate>)
    requires forall k | 0 <= k < |fates| :: fates[k].Held? ==> k == |fates| - 1
    ensures Count(fates, Held) == if fates != [] && fates[|fates| - 1].Held? then 1 else 0
  {
    if fates != [] {
      var front := fates[..|fates| - 1];
      assert forall k | 0 <= k < |front| :: front[k] == fates[k];
      AtMostOneHeld(front);
    }
  }

  /** Every message taken off the channel is exactly one of sent, held, overwritten by a
      keep-alive reply, lost to a Pending after the take, discarded at the end. The sent ones
      went out in the order taken. While the tunnel runs nothing is discarded, so the losses
      are at most the keep-alives received and the Pending-after-ready sends. */
  lemma UdpAccounting(now: int, steps: seq<UdpStep>)
    ensures var u := UdpAfter(now, steps);
            var trace := u.trace;
            var forwarded := Select(IsForward, trace.sent);
            var lost := Count(trace.fates, Overwritten) + Count(trace.fates, Unsent);
            var held := if u.phase.Live() && u.HoldsForward() then 1 else 0;
            && trace.dequeued <= u.rx.log
            && |trace.fates| == |trace.dequeued|
            && IsSubsequence(forwarded, trace.dequeued)
            && |trace.dequeued| == |forwarded| + held + lost + Count(trace.fates, Discarded)
            && lost <= trace.pings + trace.holes
            && Count(trace.fates, Discarded) <= 1
            && (u.phase.Live() ==>
                  && trace.dequeued + u.rx.queue == u.rx.log
                  && (held == 1 ==> u.ws.message.value == trace.dequeued[|trace.dequeued| - 1])
                  && |u.rx.log| <= |forwarded| + held + trace.pings + trace.holes + |u.rx.queue|)
  {
    UdpReachable(now, steps);
    var u := UdpAfter(now, steps);
    ChosenIsSubsequence(u.trace.dequeued, u.trace.fates);
    FatesPartition(u.trace.fates);
    AtMostOneHeld(u.trace.fates);
  }

  // ---- Exactly when a message is lost ----

  /** A keep-alive is read, and answered, while the writer holds a message. */
  predicate Overwrites(t: UdpState, step: UdpStep) {
    && step.UdpRead? && t.phase.Reading? && !(step.tick && t.CheckFails())
    && step.arrival == Arrived(KeepAlive) && t.HoldsForward()
  }

  /** The socket is reported ready for the message the writer holds, and then does not send. */
  predicate Drops(t: UdpState, step: UdpStep) {
    step.UdpWrite? && t.phase.Writing? && t.HoldsForward() && step.ready.IsReady? && step.send.NotSent?
  }

  /** The tunnel ends while the writer holds a message. */
  predicate Discards(t: UdpState, step: UdpStep) {
    && t.HoldsForward()
    && match step
       case UdpWrite(ready, send) =>
         t.phase.Writing? && (ready.ReadyFailed? || (ready.IsReady? && send.SendFailed?))
       case UdpRead(tick, arrival, _, _) =>
         t.phase.Reading? && ((tick && t.CheckFails()) || arrival.ReadFailed? || arrival.Malformed?)
       case _ => false
  }

  /** The socket takes the message the writer holds. */
  predicate Delivers(t: UdpState, step: UdpStep) {
    step.UdpWrite? && t.phase.Writing? && t.HoldsForward() && step.ready.IsReady? && step.send.WasSent?
  }

  /** One fate more of each kind named. */
  ghost predicate Counted(a: seq<Fate>, b: seq<Fate>, overwritten: bool, unsent: bool, discarded: bool, sent: bool) {
    && Count(b, Overwritten) == Count(a, Overwritten) + (if overwritten then 1 else 0)
    && Count(b, Unsent) == Count(a, Unsent) + (if unsent then 1 else 0)
    && Count(b, Discarded) == Count(a, Discarded) + (if discarded then 1 else 0)
    && Count(b, Fate.Sent) == Count(a, Fate.Sent) + (if sent then 1 else 0)
  }

  lemma SameCounts(fates: seq<Fate>)
    ensures Counted(fates, fates, false, false, false, false)
  {
  }

  lemma MarkCounts(t: Trace, fate: Fate)
    requires t.Consistent() && !fate.Held?
    ensures var open := t.Deciding();
            Counted(t.fates, t.Mark(fate).fates, open && fate.Overwritten?, open && fate.Unsent?,
                    open && fate.Discarded?, open && fate.Sent?)
  {
    Marked(t, fate);
  }

  lemma WriteCounts(t: UdpState, ready: ReadyAnswer, send: SendAnswer)
    requires t.phase.Writing? && t.FatesOk()
    ensures var step := UdpWrite(ready, send);
            Counted(t.trace.fates, t.Next(step).trace.fates,
                    false, Drops(t, step), Discards(t, step), Delivers(t, step))
  {
    hide Count, Chosen, Trace.Mark, Trace.Consistent;
    OpenIffHeld(t);
    match t.ws
    case URecv =>
      if t.rx.queue != [] {
        Took(t.trace, t.rx.queue[0]);
      }
      MarkCounts(t.trace, Discarded);
    case UStop =>
      MarkCounts(t.trace, Discarded);
    case UWrite(message) =>
      match ready
      case NotReady =>
      case ReadyFailed => MarkCounts(t.trace, Discarded);
      case IsReady =>
        if message.None? {
          MarkCounts(t.trace, Discarded);
        } else {
          match send
          case NotSent => MarkCounts(t.trace, Unsent);
          case WasSent => MarkCounts(t.trace, Fate.Sent);
          case SendFailed => FailCounts(t.trace);
        }
  }

  lemma OpenIffHeld(t: UdpState)
    requires t.phase.Live() && t.FatesOk()
    ensures t.trace.Consistent() && |t.trace.fates| == |t.trace.dequeued|
    ensures t.trace.Deciding() <==> t.HoldsForward()
  {
  }

  lemma FailCounts(t: Trace)
    requires t.Consistent()
    ensures Counted(t.fates, t.Fail().Mark(Discarded).fates, false, false, t.Deciding(), false)
  {
    MarkCounts(t, Discarded);
  }

  /** Answering a keep-alive settles the open message, and nothing after it. */
  lemma AnswerCounts(t: UdpState)
    requires t.phase.Reading? && t.FatesOk()
    ensures var a := t.Heard(KeepAlive).Answering();
            && Counted(t.trace.fates, a.trace.fates, t.trace.Deciding(), false, false, false)
            && !a.trace.Deciding()
  {
    MarkCounts(t.trace, Overwritten);
    MarkConsistent(t.trace, Overwritten);
  }

  lemma AnsweredFates(a: UdpState, ready: ReadyAnswer, send: SendAnswer)
    requires a.ws == UWrite(Some(KeepAlive)) && !a.trace.Deciding()
    ensures var t' := a.PollWrite(ready, send).1;
            && t'.trace.fates == a.trace.fates
            && t'.trace.Mark(Discarded).fates == a.trace.fates
  {
  }

  lemma ReadCounts(t: UdpState, tick: bool, arrival: Arrival, ready: ReadyAnswer, send: SendAnswer)
    requires t.phase.Reading? && t.FatesOk()
    ensures var step := UdpRead(tick, arrival, ready, send);
            Counted(t.trace.fates, t.Next(step).trace.fates, Overwrites(t, step), false, Discards(t, step), false)
  {
    hide Counted, Trace.Mark, Trace.Consistent, UdpState.PollWrite, UdpState.FatesOk;
    OpenIffHeld(t);
    SameCounts(t.trace.fates);
    MarkCounts(t.trace, Discarded);
    if arrival == Arrived(KeepAlive) && !(tick && t.CheckFails()) {
      AnswerCounts(t);
      AnsweredFates(t.Heard(KeepAlive).Answering(), ready, send);
    }
  }

  /** A step loses a message exactly if it is one of these, in exactly that way. */
  lemma LossIff(t: UdpState, step: UdpStep)
    requires t.Ok()
    ensures Counted(t.trace.fates, t.Next(step).trace.fates,
                    Overwrites(t, step), Drops(t, step), Discards(t, step), Delivers(t, step))
  {
    if step.UdpWrite? && t.phase.Writing? {
      WriteCounts(t, step.ready, step.send);
    } else if step.UdpRead? && t.phase.Reading? {
      ReadCounts(t, step.tick, step.arrival, step.ready, step.send);
    }
  }

  /** How many steps of a run satisfy `p`. */
  function Occurrences(t: UdpState, steps: seq<UdpStep>, p: (UdpState, UdpStep) -> bool): nat
    decreases |steps|
  {
    if steps == [] then 0
    else
      var front, last := steps[..|steps| - 1], steps[|steps| - 1];
      Occurrences(t, front, p) + (if p(UdpRun(t, front), last) then 1 else 0)
  }

  lemma {:induction false} FatesCounted(now: int, steps: seq<UdpStep>)
    ensures var start, fates := UdpInitial(now), UdpAfter(now, steps).trace.fates;
            && Count(fates, Overwritten) == Occurrences(start, steps, Overwrites)
            && Count(fates, Unsent) == Occurrences(start, steps, Drops)
            && Count(fates, Discarded) == Occurrences(start, steps, Discards)
            && Count(fates, Fate.Sent) == Occurrences(start, steps, Delivers)
    decreases |steps|
  {
    if steps != [] {
      var front := steps[..|steps| - 1];
      FatesCounted(now, front);
      UdpReachable(now, front);
      LossIff(UdpAfter(now, front), steps[|steps| - 1]);
    }
  }

  /** The message taken off the channel that the writer still holds. */
  function HeldForward(u: UdpState): seq<Packet> {
    if u.phase.Live() && u.HoldsForward() then [u.ws.message.value] else []
  }

  lemma {:induction false} AllChosen(ms: seq<Packet>, fates: seq<Fate>)
    requires |fates| == |ms| && forall k | 0 <= k < |fates| :: fates[k].Sent?
    ensures Chosen(ms, fates) == ms
  {
    if ms != [] {
      var last := |ms| - 1;
      AllChosen(ms[..last], fates[..last]);
      assert ms == ms[..last] + [ms[last]];
    }
  }

  /** Messages that are all sent, but for an open last one, are the chosen ones and that. */
  lemma ChosenButOpen(ms: seq<Packet>, fates: seq<Fate>)
    requires |fates| == |ms|
    requires forall k | 0 <= k < |fates| :: fates[k].Sent? || (fates[k].Held? && k == |fates| - 1)
    ensures ms == Chosen(ms, fates) +
                  (if fates != [] && fates[|fates| - 1].Held? then [ms[|ms| - 1]] else [])
  {
    if fates != [] && fates[|fates| - 1].Held? {
      var last := |fates| - 1;
      AllChosen(ms[..last], fates[..last]);
      assert Chosen(ms, fates) == ms[..last] + [] == ms[..last];
      assert ms == ms[..last] + [ms[last]];
    } else {
      AllChosen(ms, fates);
      assert ms + [] == ms;
    }
  }

  lemma {:induction false} CountedAway(fates: seq<Fate>, f: Fate)
    requires Count(fates, f) == 0
    ensures forall k | 0 <= k < |fates| :: fates[k] != f
  {
    if fates != [] {
      CountedAway(fates[..|fates| - 1], f);
    }
  }

  lemma NothingCountedChosen(trace: Trace)
    requires trace.Consistent()
    requires Count(trace.fates, Overwritten) == Count(trace.fates, Unsent) == Count(trace.fates, Discarded) == 0
    ensures trace.dequeued ==
            Select(IsForward, trace.sent) +
            (if trace.Deciding() then [trace.dequeued[|trace.dequeued| - 1]] else [])
  {
    hide Count, Chosen, Select;
    CountedAway(trace.fates, Overwritten);
    CountedAway(trace.fates, Unsent);
    CountedAway(trace.fates, Discarded);
    ChosenButOpen(trace.dequeued, trace.fates);
  }

  /** Every message taken is sent, in order, or still held, exactly if in the whole run no
      keep-alive overwrote one, no send left one unsent and the tunnel did not end with one. */
  lemma NothingLostIff(now: int, steps: seq<UdpStep>)
    ensures var start, u := UdpInitial(now), UdpAfter(now, steps);
            var forwarded := Select(IsForward, u.trace.sent) + HeldForward(u);
            && (forwarded == u.trace.dequeued <==>
                  && Occurrences(start, steps, Overwrites) == 0
                  && Occurrences(start, steps, Drops) == 0
                  && Occurrences(start, steps, Discards) == 0)
            && (u.phase.Live() ==> (forwarded == u.trace.dequeued <==> forwarded + u.rx.queue == u.rx.log))
  {
    var u := UdpAfter(now, steps);
    var forwarded := Select(IsForward, u.trace.sent) + HeldForward(u);
    UdpReachable(now, steps);
    FatesCounted(now, steps);
    UdpAccounting(now, steps);
    if Count(u.trace.fates, Overwritten) + Count(u.trace.fates, Unsent) + Count(u.trace.fates, Discarded) == 0 {
      NothingCountedChosen(u.trace);
    }
    if forwarded + u.rx.queue == u.trace.dequeued + u.rx.queue {
      assert |forwarded| == |u.trace.dequeued|;
      assert (forwarded + u.rx.queue)[..|forwarded|] == forwarded;
      assert (u.trace.dequeued + u.rx.queue)[..|forwarded|] == u.trace.dequeued;
    }
  }

  lemma {:induction false} ClosedDiscardsNothing(now: int, steps: seq<UdpStep>)
    ensures var u := UdpAfter(now, steps);
            u.phase.Live() || u.phase == Finished(ChannelClosed) ==> Count(u.trace.fates, Discarded) == 0
    decreases |steps|
  {
    UdpReachable(now, steps);
    if steps != [] {
      var front, last := steps[..|steps| - 1], steps[|steps| - 1];
      var t := UdpAfter(now, front);
      ClosedDiscardsNothing(now, front);
      UdpReachable(now, front);
      LossIff(t, last);
      if t.Next(last).phase == Finished(ChannelClosed) {
        ClosedFromWaiting(t, last);
      }
    }
  }

  lemma ClosedFromWaiting(t: UdpState, step: UdpStep)
    requires t.Ok() && t.Next(step).phase == Finished(ChannelClosed)
    ensures t.phase == Finished(ChannelClosed) || (t.phase.Writing? && t.ws.URecv?)
    ensures !Discards(t, step) || !t.phase.Live()
  {
  }

  /** A tunnel that has ended because its sockets were gone has sent every message it was ever
      given, in order, exactly if no keep-alive overwrote one and no send left one unsent. */
  lemma UdpShutdown(now: int, steps: seq<UdpStep>)
    ensures var start, u := UdpInitial(now), UdpAfter(now, steps);
            u.phase == Finished(ChannelClosed) ==>
              && u.trace.dequeued == u.rx.log
              && (Select(IsForward, u.trace.sent) == u.rx.log <==>
                    Occurrences(start, steps, Overwrites) == 0 && Occurrences(start, steps, Drops) == 0)
  {
    UdpReachable(now, steps);
    NothingLostIff(now, steps);
    FatesCounted(now, steps);
    ClosedDiscardsNothing(now, steps);
    var u := UdpAfter(now, steps);
    assert Select(IsForward, u.trace.sent) + [] == Select(IsForward, u.trace.sent);
  }

  // ---- What a dependable socket makes of one write loop ----

  /** What the writer still has to send: the packet it holds, then those queued. */
  function Due(t: UdpState): seq<Packet> {
    (if t.ws.UWrite? && t.ws.message.Some? then [t.ws.message.value] else []) + t.rx.queue
  }

  lemma DependableWrite(t: UdpState)
    requires t.phase.Writing? && t.ws != UWrite(None) && !t.ws.UStop?
    ensures var t' := t.Next(UdpWrite(IsReady, WasSent));
            && t'.trace.sent + Due(t') == t.trace.sent + Due(t)
            && t'.rx.senders == t.rx.senders
            && (t'.phase.Live() ==> t'.ws != UWrite(None) && !t'.ws.UStop?)
            && (t'.phase.Reading? ==> Due(t') == [] && t'.rx.senders != {})
            && (!t'.phase.Live() ==>
                  Due(t') == [] && t'.rx.senders == {} && t'.phase == Finished(ChannelClosed))
  {
    hide Trace.Mark;
    MarkSendsNothing();
    if t.ws.URecv? && t.rx.queue != [] {
      assert [] + t.rx.queue == [t.rx.queue[0]] + t.rx.queue[1..];
    } else if t.ws.UWrite? {
      SeqAssoc(t.trace.sent, [t.ws.message.value], t.rx.queue);
      assert [] + t.rx.queue == t.rx.queue;
    }
  }

  lemma MarkSendsNothing()
    ensures forall t: Trace, fate: Fate :: t.Mark(fate).sent == t.sent
  {
  }

  lemma FourSteps(t: UdpState, a: UdpStep, b: UdpStep, c: UdpStep, d: UdpStep)
    ensures UdpRun(t, [a, b, c, d]) == t.Next(a).Next(b).Next(c).Next(d)
  {
    Runs.RunFour(UdpNext, t, a, b, c, d);
  }

  /** Such a run: a message waits for the socket, a keep-alive comes in, and only its reply is
      ever sent. */
  lemma OverwriteLoses(now: int, message: seq<byte>)
    ensures var u := UdpAfter(now, [Enqueue(0, message), UdpWake, UdpWrite(NotReady, NotSent),
                                    UdpWrite(NotReady, NotSent)] +
                                   [UdpRead(false, Arrived(KeepAlive), IsReady, WasSent)]);
            && u.phase.Live() && u.ws.URecv? && u.rx.queue == []
            && u.trace.dequeued == u.rx.log == [Forward(0, message)]
            && u.trace.sent == [KeepAlive] && u.trace.fates == [Overwritten]
  {
    var s0 := UdpInitial(now);
    var front := [Enqueue(0, message), UdpWake, UdpWrite(NotReady, NotSent), UdpWrite(NotReady, NotSent)];
    FourSteps(s0, front[0], front[1], front[2], front[3]);
    var s3 := s0.Next(front[0]).Next(front[1]).Next(front[2]);
    assert s3.ws == UWrite(Some(Forward(0, message))) && s3.trace.fates == [Held];
    Runs.RunSnoc(UdpNext, s0, front, UdpRead(false, Arrived(KeepAlive), IsReady, WasSent));
  }

  /** A socket's channel got exactly the payloads addressed to it, in order. */
  lemma UdpInbound(now: int, steps: seq<UdpStep>, i: byte)
    requires i < 4
    ensures var u := UdpAfter(now, steps);
            && |u.pool| == 4
            && u.pool[i].log <= Addressed(i, u.trace.arrived)
            && (u.pool[i].receiving ==> u.pool[i].log == Addressed(i, u.trace.arrived))
  {
    UdpReachable(now, steps);
    assert UdpAfter(now, steps).PoolOk();
  }

  // ---- Exactly what a step does ----

  /** What a write call comes to. */
  lemma UdpWriteLaw(t: UdpState, ready: ReadyAnswer, send: SendAnswer)
    requires t.Ok() && t.phase.Writing?
    ensures var t' := t.Next(UdpWrite(ready, send));
            && (t'.phase == Finished(ChannelClosed) <==> t.ws.URecv? && t.rx.queue == [] && t.rx.senders == {})
            && (t'.phase == Finished(WriteFailed) <==> t.ws.UWrite? && ready.ReadyFailed?)
            && (t'.phase == Crashed <==>
                  t.ws.UWrite? && ready.IsReady? && (t.ws.message.None? || send.SendFailed?))
            && (t'.phase == Reading <==>
                  if t.ws.URecv? then t.rx.queue == [] && t.rx.senders != {}
                  else ready.NotReady? || (ready.IsReady? && t.ws.message.Some? && send.NotSent?))
            && (t'.phase.Live() ==> t'.phase == Reading || t'.phase == Writing)
            && (t'.phase.Finished? ==> t'.phase in {Finished(ChannelClosed), Finished(WriteFailed)})
            && (t'.phase == Writing ==>
                  match t.ws
                  case URecv => t'.ws == UWrite(Some(t.rx.queue[0])) && t'.rx.queue == t.rx.queue[1..]
                  case UWrite(message) => t'.ws == URecv && t'.trace.sent == t.trace.sent + [message.value]
                  case UStop => false)
            && (t'.phase == Reading ==> t'.ws == if t.ws.UWrite? && ready.IsReady? then UWrite(None) else t.ws)
            && t'.lastKeepAlive == t.lastKeepAlive
  {
  }

  /** What a read call comes to, whatever the writer holds: it ends the tunnel exactly on a
      failed read or a malformed packet, or on a keep-alive whose reply finds the socket failed;
      it panics exactly if that reply's send fails. A keep-alive sets the time and leaves the
      reply with the writer unless it went out. */
  lemma UdpReadLaw(t: UdpState, tick: bool, arrival: Arrival, ready: ReadyAnswer, send: SendAnswer)
    requires t.Ok() && t.phase.Reading?
    ensures var t' := t.Next(UdpRead(tick, arrival, ready, send));
            var ping := arrival == Arrived(KeepAlive);
            && (t'.phase == Finished(ReadEnded) <==> arrival.ReadFailed? || arrival.Malformed?)
            && (t'.phase == Finished(WriteFailed) <==> ping && ready.ReadyFailed?)
            && (t'.phase == Crashed <==> ping && ready.IsReady? && send.SendFailed?)
            && (t'.phase == Idle <==> arrival.Nothing?)
            && (t'.phase.Live() ==> t'.phase == Idle || t'.phase == Reading)
            && (t'.phase.Finished? ==> t'.phase in {Finished(ReadEnded), Finished(WriteFailed)})
            && t'.lastKeepAlive == (if ping then t.now else t.lastKeepAlive)
            && (t'.phase.Live() ==>
                  t'.ws == if !ping then t.ws
                           else if ready.NotReady? then UWrite(Some(KeepAlive))
                           else if send.WasSent? then URecv else UWrite(None))
            && t'.trace.sent == t.trace.sent + (if ping && ready.IsReady? && send.WasSent? then [KeepAlive] else [])
  {
    hide Trace.Mark, UdpState.FatesOk, UdpState.LossesOk, UdpState.QueueOk, UdpState.PoolOk;
    MarkSendsNothing();
  }

  /** The payloads addressed to a socket grow by exactly those of the packets with its index. */
  lemma AddressedAre(i: byte, arrived: seq<Packet>, p: Packet)
    ensures Addressed(i, []) == []
    ensures Addressed(i, arrived + [p]) ==
            Addressed(i, arrived) + (if p.Forward? && p.index == i then [p.message] else [])
  {
    AddressedNext(i, arrived, p);
  }

  // ---- The hole in the writer ----

  /** The step reports the socket ready and then does not send. */
  predicate OpensHole(t: UdpState, step: UdpStep) {
    match step
    case UdpWrite(ready, send) =>
      t.phase.Writing? && t.ws.UWrite? && t.ws.message.Some? && ready.IsReady? && send.NotSent?
    case UdpRead(tick, arrival, ready, send) =>
      && t.phase.Reading? && !(tick && t.CheckFails())
      && arrival == Arrived(KeepAlive) && ready.IsReady? && send.NotSent?
    case _ => false
  }

  /** `Write(None)` is entered by exactly the steps that open the hole. */
  lemma HoleEnteredIff(t: UdpState, step: UdpStep)
    requires t.phase.Live() && t.WriterOk() && t.ws != UWrite(None)
    ensures var t' := t.Next(step);
            t'.phase.Live() && t'.ws == UWrite(None) <==> OpensHole(t, step)
  {
    WriterStep(t, step);
  }

  /** Exactly when a step makes the tunnel panic: the writer is polled with nothing to write
      on a ready socket, or a send on a ready socket fails. */
  lemma PanicsIff(t: UdpState, step: UdpStep)
    requires t.phase.Live() && t.WriterOk()
    ensures t.Next(step).phase.Crashed? <==>
            (match step
             case UdpWrite(ready, send) =>
               t.phase.Writing? && t.ws.UWrite? && ready.IsReady? && (t.ws.message.None? || send.SendFailed?)
             case UdpRead(tick, arrival, ready, send) =>
               && t.phase.Reading? && !(tick && t.CheckFails())
               && arrival == Arrived(KeepAlive) && ready.IsReady? && send.SendFailed?
             case _ => false)
  {
  }

  predicate HearsKeepAlive(step: UdpStep) {
    step.UdpRead? && step.arrival == Arrived(KeepAlive)
  }

  lemma HoleStep(t: UdpState, step: UdpStep)
    requires t.phase.Live() ==> t.ws == UWrite(None)
    requires !HearsKeepAlive(step)
    ensures var t' := t.Next(step);
            && (t'.phase.Live() ==> t'.ws == UWrite(None))
            && t'.trace.sent == t.trace.sent && t'.trace.dequeued == t.trace.dequeued
            && t.rx.log <= t'.rx.log
            && (t.phase.Writing? && step.UdpWrite? && step.ready.IsReady? ==> t'.phase.Crashed?)
  {
    hide Trace.Mark;
    RetireSendsNothing(t, t.Next(step).phase);
    if step.UdpRead? && step.arrival.Arrived? {
      RetireSendsNothing(t.Heard(step.arrival.p), t.Next(step).phase);
    }
  }

  lemma RetireSendsNothing(t: UdpState, end: Phase)
    ensures var t' := t.Retire(end); t'.trace.sent == t.trace.sent && t'.trace.dequeued == t.trace.dequeued
  {
  }

  /** Once entered, the hole is left only through a keep-alive: without one the tunnel sends
      and takes nothing any more, however long it runs and whatever is queued, and the first
      write call that finds the socket ready panics. */
  lemma {:induction false} HoleIsFatal(t: UdpState, steps: seq<UdpStep>)
    requires t.phase.Live() && t.ws == UWrite(None)
    requires forall step | step in steps :: !HearsKeepAlive(step)
    ensures var u := UdpRun(t, steps);
            && (u.phase.Live() ==> u.ws == UWrite(None))
            && u.trace.sent == t.trace.sent && u.trace.dequeued == t.trace.dequeued
            && t.rx.log <= u.rx.log
            && (forall send :: u.phase.Writing? ==> u.Next(UdpWrite(IsReady, send)).phase.Crashed?)
    decreases |steps|
  {
    if steps != [] {
      HoleIsFatal(t, steps[..|steps| - 1]);
      HoleStep(UdpRun(t, steps[..|steps| - 1]), steps[|steps| - 1]);
    }
  }

  /** A socket that, once reported ready, takes the packet. */
  predicate Dependable(step: UdpStep) {
    && (step.UdpWrite? && step.ready.IsReady? ==> step.send.WasSent?)
    && (step.UdpRead? && step.ready.IsReady? ==> step.send.WasSent?)
  }

  lemma DependableStep(t: UdpState, step: UdpStep)
    requires t.WriterOk() && Dependable(step) && t.trace.holes == 0 && t.trace.sendErrors == 0
    ensures t.Next(step).trace.holes == 0 && t.Next(step).trace.sendErrors == 0
  {
  }

  /** With a dependable socket the tunnel never panics, and every loss is an overwrite. */
  lemma {:induction false} DependableNeverPanics(now: int, steps: seq<UdpStep>)
    requires forall step | step in steps :: Dependable(step)
    ensures var u := UdpAfter(now, steps);
            && !u.phase.Crashed?
            && (u.phase.Live() ==> u.ws != UWrite(None))
            && u.trace.holes == 0 && u.trace.sendErrors == 0
            && Count(u.trace.fates, Unsent) == 0
    decreases |steps|
  {
    UdpReachable(now, steps);
    if steps != [] {
      var front := steps[..|steps| - 1];
      DependableNeverPanics(now, front);
      UdpReachable(now, front);
      DependableStep(UdpAfter(now, front), steps[|steps| - 1]);
    }
  }

  /** Without that, it can: a message is taken, the send is Pending, the next poll finds
      nothing to write. */
  lemma PendingAfterReadyPanics(now: int, message: seq<byte>)
    ensures UdpAfter(now, [Enqueue(0, message), UdpWake, UdpWrite(NotReady, NotSent), UdpWrite(IsReady, NotSent)] +
                          [UdpRead(false, Nothing, NotReady, NotSent)] + [UdpWake] +
                          [UdpWrite(IsReady, WasSent)]).phase.Crashed?
  {
    var s0 := UdpInitial(now);
    var s2 := s0.Next(Enqueue(0, message)).Next(UdpWake).Next(UdpWrite(NotReady, NotSent));
    assert s2.ws == UWrite(Some(Forward(0, message))) && s2.phase.Writing?;
    var s4 := s2.Next(UdpWrite(IsReady, NotSent));
    assert s4.ws == UWrite(None) && s4.phase.Reading?;
    var idle := UdpRead(false, Nothing, NotReady, NotSent);
    var s6 := s4.Next(idle).Next(UdpWake);
    assert s6.ws == UWrite(None) && s6.phase.Writing?;
    assert s6.Next(UdpWrite(IsReady, WasSent)).phase.Crashed?;
    var front := [Enqueue(0, message), UdpWake, UdpWrite(NotReady, NotSent), UdpWrite(IsReady, NotSent)];
    FourSteps(s0, front[0], front[1], front[2], front[3]);
    Runs.RunSnoc(UdpNext, s0, front, idle);
    Runs.RunSnoc(UdpNext, s0, front + [idle], UdpWake);
    Runs.RunSnoc(UdpNext, s0, front + [idle] + [UdpWake], UdpWrite(IsReady, WasSent));
  }

  // ---- The liveness check ----

  /** In any state at all, reachable or not: the check fails exactly if the last keep-alive lies
      more than forty seconds in the future. */
  lemma CheckIs(t: UdpState)
    ensures t.CheckFails() <==> t.lastKeepAlive > t.now + 40
  {
  }

  /** The check can fail only if the last keep-alive lies in the future; so it never does, and
      no run ends by a timeout. */
  lemma CheckNeverFails(now: int, steps: seq<UdpStep>)
    ensures var u := UdpAfter(now, steps);
            && (u.CheckFails() <==> u.lastKeepAlive > u.now + 40)
            && !u.CheckFails()
            && u.phase != Finished(TimedOut)
  {
    UdpReachable(now, steps);
  }

  /** However long the server has been silent, a check leaves the tunnel running. */
  lemma SilenceGoesUnnoticed(now: int, steps: seq<UdpStep>, seconds: nat)
    requires UdpAfter(now, steps).phase.Reading?
    ensures var u := UdpAfter(now, steps + [Elapse(seconds)] + [UdpRead(true, Nothing, NotReady, NotSent)]);
            && u.phase.Idle?
            && u.now - u.lastKeepAlive >= seconds
  {
    Runs.RunSnoc(UdpNext, UdpInitial(now), steps, Elapse(seconds));
    Runs.RunSnoc(UdpNext, UdpInitial(now), steps + [Elapse(seconds)], UdpRead(true, Nothing, NotReady, NotSent));
    UdpReachable(now, steps);
    CheckNeverFails(now, steps + [Elapse(seconds)]);
  }
}
