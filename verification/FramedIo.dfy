/** The framed server connection: a byte transport with a read and a write buffer. */
module FramedIo {
  import opened Wrappers
  import opened Bytes
  import opened Framing
  import opened TunnelCodecs

  /** The transport's answer to a readiness or flush request. `accepted` is how many
      buffered bytes it took while answering. */
  datatype IoAnswer = IoPending(accepted: nat) | IoOk(accepted: nat) | IoErr(accepted: nat)

  /** What one poll of the read half finds: the reads that succeed, in order, and whether the
      transport is then closed (end of stream or an error) or has nothing more for now. */
  datatype ReadAnswer = ReadAnswer(chunks: seq<seq<byte>>, closed: bool)

  /** The calls made on the sink, with the outcome of each. */
  datatype SinkCall = ReadyPending | ReadyOk | ReadyErr | StartSend | FlushPending | FlushOk | FlushErr

  /** `wire` is every byte the transport took, `started` every message given to
      `start_send`, `confirmed` how many of those a successful flush followed, `received`
      every byte read and `decoded` every message read; the rest is the connection itself. */
  datatype Io = Io(
    writeBuffer: seq<byte>,
    reader: Decoder<Header>,
    wire: seq<byte>,
    started: seq<Message>,
    confirmed: nat,
    calls: seq<SinkCall>,
    received: seq<byte>,
    decoded: seq<Message>)
  {
    function Accept(count: nat): Io {
      var n := if count <= |writeBuffer| then count else |writeBuffer|;
      this.(wire := wire + writeBuffer[..n], writeBuffer := writeBuffer[n..])
    }

    function PollReady(a: IoAnswer): (Call<bool>, Io) {
      var io := Accept(a.accepted);
      match a
      case IoPending(_) => (Pending, io.(calls := calls + [ReadyPending]))
      case IoOk(_) => (Ready(true), io.(calls := calls + [ReadyOk]))
      case IoErr(_) => (Ready(false), io.(calls := calls + [ReadyErr]))
    }

    function Start(m: Message): Io {
      this.(writeBuffer := writeBuffer + EncodeMessage(m), started := started + [m], calls := calls + [StartSend])
    }

    /** A successful flush leaves nothing in the write buffer. */
    function PollFlush(a: IoAnswer): (Call<bool>, Io) {
      var io := Accept(a.accepted);
      match a
      case IoPending(_) => (Pending, io.(calls := calls + [FlushPending]))
      case IoOk(_) => (Ready(true), Accept(|writeBuffer|).(confirmed := |started|, calls := calls + [FlushOk]))
      case IoErr(_) => (Ready(false), io.(calls := calls + [FlushErr]))
    }

    function Fed(chunk: seq<byte>): Io {
      this.(reader := reader.Fed(chunk), received := received + chunk)
    }

    function Decode(): (Option<Message>, Io) {
      var (m, rest) := Framing.Decode(TunnelFormat(), reader);
      (m, this.(reader := rest, decoded := if m.Some? then decoded + [m.value] else decoded))
    }

    /** Decode; while that gives nothing, read and decode again. */
    function PollNext(chunks: seq<seq<byte>>, closed: bool): (Call<Option<Message>>, Io)
      decreases |chunks|
    {
      var (m, io) := Decode();
      if m.Some? then (Ready(m), io)
      else if chunks != [] then io.Fed(chunks[0]).PollNext(chunks[1..], closed)
      else (if closed then Ready(None) else Pending, io)
    }

    /** The messages read so far, and the reader, are what decoding all received bytes in one
        go gives, up to the messages that are still undecoded in the buffer. */
    ghost predicate ReadsFaithfully() {
      var (ms, end) := Drain(TunnelFormat(), reader);
      Drain(TunnelFormat(), Decoder(None, received)) == (decoded + ms, end)
    }
  }

  function FreshIo(): Io {
    Io([], Decoder(None, []), [], [], 0, [], [], [])
  }

  lemma DecodeFaithful(io: Io)
    requires io.ReadsFaithfully()
    ensures io.Decode().1.ReadsFaithfully()
    ensures io.Decode().0.None? ==> Drain(TunnelFormat(), io.Decode().1.reader) == ([], io.Decode().1.reader)
  {
    var (m, next) := io.Decode();
    var (ms, end) := Drain(TunnelFormat(), next.reader);
    if m.Some? {
      assert io.decoded + ([m.value] + ms) == (io.decoded + [m.value]) + ms;
    }
  }

  lemma FedFaithful(io: Io, chunk: seq<byte>)
    requires io.ReadsFaithfully() && Drain(TunnelFormat(), io.reader) == ([], io.reader)
    ensures io.Fed(chunk).ReadsFaithfully()
  {
    DrainSplit(TunnelFormat(), Decoder(None, io.received), chunk);
    assert io.decoded + [] == io.decoded;
  }

  /** Polling for the next message keeps the reader faithful, and touches nothing else. */
  lemma {:induction false} PollNextFaithful(io: Io, chunks: seq<seq<byte>>, closed: bool)
    requires io.ReadsFaithfully()
    ensures var (c, end) := io.PollNext(chunks, closed);
            && end.ReadsFaithfully()
            && !c.Panicked?
            && end.decoded == (if c.Ready? && c.value.Some? then io.decoded + [c.value.value] else io.decoded)
            && end == io.(reader := end.reader, received := end.received, decoded := end.decoded)
    decreases |chunks|
  {
    DecodeFaithful(io);
    var (m, next) := io.Decode();
    if m.None? && chunks != [] {
      FedFaithful(next, chunks[0]);
      PollNextFaithful(next.Fed(chunks[0]), chunks[1..], closed);
    }
  }

  /** The framed connection object. */
  class Framed {
    const codec: TunnelCodec
    const readBuffer: BytesMut
    const writeBuffer: BytesMut
    ghost var history: Io

    ghost predicate Valid()
      reads this, codec, readBuffer, writeBuffer
    {
      && readBuffer != writeBuffer
      && history.writeBuffer == writeBuffer.data
      && history.reader == Decoder(codec.partial, readBuffer.data)
    }

    ghost function Repr(): set<object> {
      {this, codec, readBuffer, writeBuffer}
    }

    constructor ()
      ensures Valid() && fresh(Repr()) && history == FreshIo()
    {
      codec := new TunnelCodec();
      readBuffer := new BytesMut();
      writeBuffer := new BytesMut();
      history := FreshIo();
    }

    /** The transport takes up to `count` bytes off the front of the write buffer. */
    method Accept(count: nat)
      requires Valid()
      modifies this, writeBuffer
      ensures Valid() && history == old(history).Accept(count)
    {
      var n := if count <= |writeBuffer.data| then count else |writeBuffer.data|;
      var bytes := writeBuffer.SplitTo(n);
      history := history.Accept(count);
    }

    method PollReady(a: IoAnswer) returns (c: Call<bool>)
      requires Valid()
      modifies this, writeBuffer
      ensures Valid() && (c, history) == old(history).PollReady(a)
    {
      ghost var before := history;
      Accept(a.accepted);
      c := if a.IoPending? then Pending else Ready(a.IoOk?);
      history := before.PollReady(a).1;
    }

    /** A message may be started only right after the sink said it is ready. */
    method StartSend(m: Message)
      requires Valid()
      requires history.calls != [] && history.calls[|history.calls| - 1] == ReadyOk
      modifies this, writeBuffer
      ensures Valid() && history == old(history).Start(m)
    {
      codec.Encode(m, writeBuffer);
      history := history.Start(m);
    }

    method PollFlush(a: IoAnswer) returns (c: Call<bool>)
      requires Valid()
      modifies this, writeBuffer
      ensures Valid() && (c, history) == old(history).PollFlush(a)
    {
      ghost var before := history;
      Accept(if a.IoOk? then |writeBuffer.data| else a.accepted);
      c := if a.IoPending? then Pending else Ready(a.IoOk?);
      history := before.PollFlush(a).1;
    }

    method Decode() returns (m: Option<Message>)
      requires Valid()
      modifies this, codec, readBuffer
      ensures Valid() && (m, history) == old(history).Decode()
    {
      m := codec.Decode(readBuffer);
      history := history.Decode().1;
    }

    method PollNext(r: ReadAnswer) returns (c: Call<Option<Message>>)
      requires Valid()
      modifies this, codec, readBuffer
      ensures Valid() && (c, history) == old(history).PollNext(r.chunks, r.closed)
    {
      var k := 0;
      ghost var before := history;
      var m := Decode();
      while m.None? && k < |r.chunks|
        invariant Valid() && k <= |r.chunks|
        invariant (m, history) == before.Decode()
        invariant before.PollNext(r.chunks[k..], r.closed) == old(history).PollNext(r.chunks, r.closed)
      {
        readBuffer.Extend(r.chunks[k]);
        history := history.Fed(r.chunks[k]);
        assert r.chunks[k..][1..] == r.chunks[k + 1..];
        k := k + 1;
        before := history;
        m := Decode();
      }
      if m.Some? {
        c := Ready(m);
      } else {
        c := if r.closed then Ready(None) else Pending;
      }
    }
  }
}
