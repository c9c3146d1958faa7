/** Unbounded multi-producer, single-consumer channels between the tunnel tasks. */
module Channels {
  import opened Wrappers

  /** The value of a channel: what is queued, everything ever accepted, which senders are
      still alive, and whether the receiver is. */
  datatype Chan<T> = Chan(queue: seq<T>, log: seq<T>, senders: set<nat>, receiving: bool) {
    /** Sending fails, and changes nothing, once the receiver is gone. */
    function Send(m: T): Chan<T> {
      if receiving then this.(queue := queue + [m], log := log + [m]) else this
    }

    /** `poll_recv`: `None` is given only when the queue is empty and no sender is left. */
    function Recv(): (Call<Option<T>>, Chan<T>) {
      if queue != [] then (Ready(Some(queue[0])), this.(queue := queue[1..]))
      else if senders == {} then (Ready(None), this)
      else (Pending, this)
    }

    function DropSender(id: nat): Chan<T> {
      this.(senders := senders - {id})
    }

    /** Dropping the receiver discards what is queued. */
    function DropReceiver(): Chan<T> {
      this.(queue := [], receiving := false)
    }
  }

  /** The values of some channels. */
  ghost function Views<T(0)>(channels: seq<Channel<T>>): seq<Chan<T>>
    reads channels
  {
    seq(|channels|, i requires 0 <= i < |channels| reads channels => channels[i].View())
  }

  class Channel<T(0)> {
    var queue: seq<T>
    var senders: set<nat>
    var receiving: bool
    ghost var log: seq<T>

    ghost function View(): Chan<T>
      reads this
    {
      Chan(queue, log, senders, receiving)
    }

    constructor (ids: set<nat>)
      ensures View() == Chan([], [], ids, true)
    {
      queue, senders, receiving, log := [], ids, true, [];
    }

    method Send(m: T) returns (ok: bool)
      modifies this
      ensures ok == old(receiving) && View() == old(View()).Send(m)
      ensures queue == if ok then old(queue) + [m] else old(queue)
    {
      ok := receiving;
      if receiving {
        queue, log := queue + [m], log + [m];
      }
    }

    method PollRecv() returns (c: Call<Option<T>>)
      modifies this
      ensures (c, View()) == old(View()).Recv()
      ensures if old(queue) != [] then c == Ready(Some(old(queue)[0])) && queue == old(queue)[1..]
              else c == (if senders == {} then Ready(None) else Pending) && queue == []
    {
      if queue != [] {
        c := Ready(Some(queue[0]));
        queue := queue[1..];
      } else if senders == {} {
        c := Ready(None);
      } else {
        c := Pending;
      }
    }

    method DropSender(id: nat)
      modifies this
      ensures View() == old(View()).DropSender(id)
    {
      senders := senders - {id};
    }

    method DropReceiver()
      modifies this
      ensures View() == old(View()).DropReceiver()
    {
      queue, receiving := [], false;
    }
  }
}
