/** The redirector connection: answers requests until it has answered one for the server
    instance. */
module Redirector {
  import opened Wrappers
  import opened Bytes
  import opened Framing
  import opened FireCodecs

  const COMPONENT_REDIRECTOR: u16 := 5
  const COMMAND_GET_SERVER_INSTANCE: u16 := 1

  /** One read from the client. When there are no more, the client has closed the stream. */
  datatype ReadEvent = Chunk(bytes: seq<byte>) | ReadTimeout | ReadError

  /** A send goes out whole, or fails after some bytes of the frame. */
  datatype SendEvent = SendOk | SendFailed(accepted: nat)

  datatype RedirectError = Timeout | Read | Write

  datatype Next = Item(frame: Frame) | Closed | Failed(error: RedirectError)

  /** The bytes that arrive before the stream ends, times out or fails, and which it does. */
  function Arriving(events: seq<ReadEvent>): seq<byte> {
    if events == [] || !events[0].Chunk? then [] else events[0].bytes + Arriving(events[1..])
  }

  function Ending(events: seq<ReadEvent>): (r: Result<(), RedirectError>)
    ensures r != Failure(Write)
    ensures r.Success? ==> r == Success(())
  {
    if events == [] then Success(())
    else match events[0]
      case Chunk(_) => Ending(events[1..])
      case ReadTimeout => Failure(Timeout)
      case ReadError => Failure(Read)
  }

  /** A script of reads, and then its end or something else than a read. */
  function Chunks(chunks: seq<seq<byte>>): seq<ReadEvent> {
    seq(|chunks|, k requires 0 <= k < |chunks| => Chunk(chunks[k]))
  }

  /** Everything read before the first event that is no chunk arrives, and nothing after; that
      event says how the stream ends. */
  lemma {:induction false} ScriptMeans(chunks: seq<seq<byte>>, rest: seq<ReadEvent>)
    requires rest == [] || !rest[0].Chunk?
    ensures var script := Chunks(chunks) + rest;
            && Arriving(script) == Concat(chunks)
            && Ending(script) == if rest == [] then Success(())
                                 else if rest[0].ReadTimeout? then Failure(Timeout) else Failure(Read)
  {
    var script := Chunks(chunks) + rest;
    if chunks == [] {
      assert script == rest;
    } else {
      ScriptMeans(chunks[1..], rest);
      assert script[0] == Chunk(chunks[0]) && script[1..] == Chunks(chunks[1..]) + rest;
    }
  }

  /** How the stream ends for the handler: a clean end that leaves bytes undecoded is a read
      error. */
  function Ended(events: seq<ReadEvent>): Result<(), RedirectError> {
    FireSound();
    var left := Drain(FireFormat(), Decoder(None, Arriving(events))).1.buffer;
    if Ending(events).Success? && left != [] then Failure(Read) else Ending(events)
  }

  /** A clean end after whole frames is one for the handler too if nothing follows them. Some bytes
      of another frame make it a read error; but a header that has arrived exactly is taken from
      the buffer, and goes unnoticed. */
  lemma CleanEnd(events: seq<ReadEvent>, fs: seq<Frame>, b: seq<byte>, c: seq<byte>)
    requires Ending(events).Success? && forall f | f in fs :: Carriable(f)
    requires |b| < 12 ==> c == []
    requires |b| >= 12 ==> |b| == 12 && |c| < 256 * (b[0] as int) + b[1] as int
    requires Arriving(events) == EncodeAll(FireFormat(), fs) + (b + c)
    ensures Ended(events) == if b == [] || (|b| == 12 && c == []) then Success(()) else Failure(Read)
    ensures Requests(events) == fs
  {
    FireSound();
    forall f | f in fs ensures Faithful(FireFormat(), f) {
      FireFaithful(f);
    }
    if fs != [] {
      FrameParts(fs[|fs| - 1]);
    }
    DrainEncoded(FireFormat(), fs);
    DrainSplit(FireFormat(), Decoder(None, EncodeAll(FireFormat(), fs)), b + c);
    IncompleteStays(b, c);
    assert [] + (b + c) == b + c && fs + [] == fs;
  }

  lemma IncompleteStays(b: seq<byte>, c: seq<byte>)
    requires |b| < 12 ==> c == []
    requires |b| >= 12 ==> |b| == 12 && |c| < 256 * (b[0] as int) + b[1] as int
    ensures Sane(FireFormat())
    ensures var (fs, end) := Drain(FireFormat(), Decoder(None, b + c));
            fs == [] && end.buffer == if |b| == 12 then c else b
  {
    if |b| == 12 {
      ParsedLayout(b);
      assert (b + c)[..12] == b && (b + c)[12..] == c;
    } else {
      assert b + c == b;
    }
  }

  /** The requests that arrive. */
  function Requests(events: seq<ReadEvent>): seq<Frame> {
    Messages(FireFormat(), Arriving(events))
  }

  /** The answers to them, and their encoding. */
  function Answers(events: seq<ReadEvent>, body: seq<byte>): seq<Frame> {
    Responses(Requests(events), body)
  }

  function Expected(events: seq<ReadEvent>, body: seq<byte>): seq<byte> {
    EncodeAll(FireFormat(), Answers(events, body))
  }

  predicate AsksForInstance(f: Frame) {
    f.header.component == COMPONENT_REDIRECTOR && f.header.command == COMMAND_GET_SERVER_INSTANCE
  }

  function Response(f: Frame, body: seq<byte>): Frame {
    if AsksForInstance(f) then ResponseRaw(f.header, body) else ResponseEmpty(f.header)
  }

  /** The answers to a list of requests: one each, up to and including the first that asks
      for the server instance. */
  function Responses(fs: seq<Frame>, body: seq<byte>): seq<Frame> {
    if fs == [] then []
    else if AsksForInstance(fs[0]) then [Response(fs[0], body)]
    else [Response(fs[0], body)] + Responses(fs[1..], body)
  }

  /** How many of the requests come before the first for the server instance. */
  function Before(fs: seq<Frame>): nat {
    if fs == [] || AsksForInstance(fs[0]) then 0 else 1 + Before(fs[1..])
  }

  lemma {:induction false} BeforeIsFirst(fs: seq<Frame>)
    ensures Before(fs) <= |fs|
    ensures forall k | 0 <= k < Before(fs) :: !(fs[k].header.component == 5 && fs[k].header.command == 1)
    ensures Before(fs) < |fs| ==>
              var header := fs[Before(fs)].header; header.component == 5 && header.command == 1
  {
    if fs != [] && !AsksForInstance(fs[0]) {
      BeforeIsFirst(fs[1..]);
    }
  }

  /** Exactly one response for each request up to the first for the instance, and none after;
      each is a response without error or options, for the same component, command and
      sequence number; only that last one has a body. */
  lemma {:induction false} OneResponseEach(fs: seq<Frame>, body: seq<byte>)
    ensures Before(fs) <= |fs|
    ensures |Responses(fs, body)| == (if Before(fs) < |fs| then Before(fs) + 1 else |fs|)
    ensures forall k | 0 <= k < |Responses(fs, body)| ::
              var r := Responses(fs, body)[k];
              && r.contents == (if k == Before(fs) then body else [])
              && r.header == FrameHeader(|r.contents|, fs[k].header.component, fs[k].header.command, 0,
                                         FrameType.Response, 0, fs[k].header.seqNo)
  {
    if fs != [] && !AsksForInstance(fs[0]) {
      OneResponseEach(fs[1..], body);
      var rest := Responses(fs[1..], body);
      forall k | 0 < k < |Responses(fs, body)|
        ensures Responses(fs, body)[k] == rest[k - 1] && fs[k] == fs[1..][k - 1]
      {
      }
    }
  }

  lemma {:induction false} ResponsesAppend(fs: seq<Frame>, more: seq<Frame>, body: seq<byte>)
    ensures Before(fs) == |fs| ==> Responses(fs + more, body) == Responses(fs, body) + Responses(more, body)
    ensures Before(fs) < |fs| ==> Responses(fs + more, body) == Responses(fs, body)
    ensures Before(fs) == |fs| ==> Before(fs + more) == |fs| + Before(more)
    ensures Before(fs) <= |fs|
  {
    if fs == [] {
      assert fs + more == more;
    } else {
      assert (fs + more)[0] == fs[0] && (fs + more)[1..] == fs[1..] + more;
      if !AsksForInstance(fs[0]) {
        ResponsesAppend(fs[1..], more, body);
      }
    }
  }

  /** `received` and the reads still to come make up the whole script. */
  ghost predicate Reading(script: seq<ReadEvent>, received: seq<byte>, events: seq<ReadEvent>) {
    received + Arriving(events) == Arriving(script) && Ending(events) == Ending(script)
  }

  /** The frames decoded and those still in the reader are the frames of the bytes received. */
  ghost predicate Decoded(received: seq<byte>, decoded: seq<Frame>, d: Decoder<FrameHeader>) {
    && Sane(FireFormat())
    && var (fs, end) := Drain(FireFormat(), d);
       Drain(FireFormat(), Decoder(None, received)) == (decoded + fs, end)
  }

  /** The framed client stream. `received` is every byte read and `decoded` every frame. */
  class ClientStream {
    const codec: FireCodec
    const buffer: BytesMut
    ghost const script: seq<ReadEvent>
    var events: seq<ReadEvent>
    var output: seq<byte>
    ghost var received: seq<byte>
    ghost var decoded: seq<Frame>

    ghost function Reader(): Decoder<FrameHeader>
      reads this, codec, buffer
    {
      Decoder(codec.currentFrame, buffer.data)
    }

    ghost predicate Valid()
      reads this, codec, buffer
    {
      Decoded(received, decoded, Reader()) && Reading(script, received, events)
    }

    constructor (events: seq<ReadEvent>)
      ensures Valid() && fresh(codec) && fresh(buffer)
      ensures script == events && output == [] && decoded == []
    {
      codec := new FireCodec();
      buffer := new BytesMut();
      this.events, script := events, events;
      output, received, decoded := [], [], [];
      new;
      assert Drain(FireFormat(), Reader()) == ([], Reader());
      assert decoded + [] == decoded && received + Arriving(events) == Arriving(events);
    }

    method Decode() returns (frame: Option<Frame>)
      requires Valid()
      modifies this`decoded, codec, buffer
      ensures Valid()
      ensures frame.Some? ==> decoded == old(decoded) + [frame.value] && Shrunk(old(Reader()), Reader())
      ensures frame.None? ==> decoded == old(decoded) && Drain(FireFormat(), Reader()) == ([], Reader())
    {
      DecodeStep(Reader(), received, decoded);
      frame := codec.Decode(buffer);
      if frame.Some? {
        decoded := decoded + [frame.value];
      }
    }

    /** Reads once, after decoding gave nothing. */
    method ReadMore() returns (end: Option<Next>)
      requires Valid() && Drain(FireFormat(), Reader()) == ([], Reader())
      modifies this`events, this`received, buffer
      ensures Valid()
      ensures end.None? ==> |events| < |old(events)|
      ensures end.Some? ==> received == Arriving(script) && decoded == Messages(FireFormat(), received)
                            && end.value == (if Ended(script).Success? then Closed else Failed(Ended(script).error))
    {
      assert decoded + [] == decoded;
      if events == [] {
        assert received + [] == received;
        return Some(if buffer.data == [] then Closed else Failed(Read));
      }
      var event := events[0];
      match event {
        case ReadTimeout =>
          assert received + [] == received;
          return Some(Failed(Timeout));
        case ReadError =>
          assert received + [] == received;
          return Some(Failed(Read));
        case Chunk(bytes) =>
          ReadStep(Reader(), received, decoded, bytes);
          assert received + (bytes + Arriving(events[1..])) == received + bytes + Arriving(events[1..]);
          events := events[1..];
          buffer.Extend(bytes);
          received := received + bytes;
          return None;
      }
    }

    /** Decodes the next frame, reading while the buffer holds none. */
    method TryNext() returns (next: Next)
      requires Valid()
      modifies this`events, this`received, this`decoded, codec, buffer
      ensures Valid()
      ensures next.Item? ==> decoded == old(decoded) + [next.frame]
      ensures next.Item? ==> |events| < |old(events)| || (|events| == |old(events)| && Shrunk(old(Reader()), Reader()))
      ensures !next.Item? ==> received == Arriving(script)
                              && decoded == old(decoded) == Messages(FireFormat(), received)
                              && next == (if Ended(script).Success? then Closed else Failed(Ended(script).error))
    {
      while true
        invariant Valid() && decoded == old(decoded)
        invariant |events| < |old(events)| || (|events| == |old(events)| && Reader() == old(Reader()))
        decreases |events|
      {
        var frame := Decode();
        if frame.Some? {
          return Item(frame.value);
        }
        var end := ReadMore();
        if end.Some? {
          return end.value;
        }
      }
    }

    method Send(frame: Frame, event: SendEvent) returns (ok: bool)
      modifies this`output
      ensures ok == event.SendOk?
      ensures ok ==> output == old(output) + EncodeFrame(frame)
      ensures old(output) <= output <= old(output) + EncodeFrame(frame)
    {
      var dst := new BytesMut();
      codec.Encode(frame, dst);
      ok := event.SendOk?;
      var n := if ok || event.accepted >= |dst.data| then |dst.data| else event.accepted;
      output := output + dst.data[..n];
    }
  }

  lemma DecodeStep(d: Decoder<FrameHeader>, received: seq<byte>, decoded: seq<Frame>)
    requires Sane(FireFormat())
    requires var (fs, end) := Drain(FireFormat(), d);
             Drain(FireFormat(), Decoder(None, received)) == (decoded + fs, end)
    ensures var (m, next) := Framing.Decode(FireFormat(), d);
            var (fs, end) := Drain(FireFormat(), next);
            && (m.None? ==> (fs, end) == ([], next) && decoded == Messages(FireFormat(), received))
            && Drain(FireFormat(), Decoder(None, received)) ==
               (decoded + (if m.Some? then [m.value] else []) + fs, end)
  {
    var (m, next) := Framing.Decode(FireFormat(), d);
    var (fs, end) := Drain(FireFormat(), next);
    if m.Some? {
      assert decoded + ([m.value] + fs) == decoded + [m.value] + fs;
    } else {
      assert decoded + [] == decoded;
      assert decoded + [] + [] == decoded;
    }
  }

  lemma ReadStep(d: Decoder<FrameHeader>, received: seq<byte>, decoded: seq<Frame>, chunk: seq<byte>)
    requires Sane(FireFormat())
    requires Drain(FireFormat(), d) == ([], d)
    requires Drain(FireFormat(), Decoder(None, received)) == (decoded, d)
    ensures var (fs, end) := Drain(FireFormat(), d.Fed(chunk));
            Drain(FireFormat(), Decoder(None, received + chunk)) == (decoded + fs, end)
  {
    DrainSplit(FireFormat(), Decoder(None, received), chunk);
  }

  lemma AnswerStep(fs: seq<Frame>, f: Frame, body: seq<byte>)
    requires Before(fs) == |fs|
    ensures Responses(fs + [f], body) == Responses(fs, body) + [Response(f, body)]
    ensures EncodeAll(FireFormat(), Responses(fs + [f], body)) ==
            EncodeAll(FireFormat(), Responses(fs, body)) + EncodeFrame(Response(f, body))
    ensures Before(fs + [f]) == |fs| + (if AsksForInstance(f) then 0 else 1)
  {
    ResponsesAppend(fs, [f], body);
    EncodeAllAppend(FireFormat(), Responses(fs, body), [Response(f, body)]);
    assert EncodeAll(FireFormat(), [Response(f, body)]) == EncodeFrame(Response(f, body)) + [];
  }

  /** What a handled connection comes to, with this many answers sent whole: all of them, or,
      if a send failed, those and a front part of the next. */
  ghost predicate Outcome(events: seq<ReadEvent>, body: seq<byte>, answered: nat,
                          result: Result<(), RedirectError>, output: seq<byte>)
  {
    var answers := Answers(events, body);
    if result == Failure(Write) then
      && answered < |answers|
      && var whole := EncodeAll(FireFormat(), answers[..answered]);
         whole <= output <= whole + EncodeFrame(answers[answered])
    else
      && answered == |answers|
      && output == Expected(events, body)
      && result == if Before(Requests(events)) < |Requests(events)| then Success(()) else Ended(events)
  }

  /** Everything decoded has been answered, and none of it asked for the instance. */
  ghost predicate Answering(framed: ClientStream, body: seq<byte>)
    reads framed, framed.codec, framed.buffer
  {
    && framed.Valid()
    && Before(framed.decoded) == |framed.decoded|
    && framed.output == EncodeAll(FireFormat(), Responses(framed.decoded, body))
  }

  /** Answers the request decoded last; gives a result when the loop ends with it. */
  method Reply(framed: ClientStream, packet: Frame, send: SendEvent, body: seq<byte>, ghost before: seq<Frame>)
      returns (end: Option<Result<(), RedirectError>>)
    requires framed.Valid() && framed.decoded == before + [packet]
    requires Before(before) == |before| && framed.output == EncodeAll(FireFormat(), Responses(before, body))
    modifies framed`output
    ensures end.None? ==> Answering(framed, body)
    ensures end.Some? ==>
              Outcome(framed.script, body, |before| + (if send.SendOk? then 1 else 0), end.value, framed.output)
    ensures send.SendFailed? <==> end == Some(Failure(Write))
  {
    hide EncodeFrame, ParseFireHeader, FireHeaderBytes;
    AnswerNext(framed.script, framed.received, framed.events, framed.Reader(), before, packet, body);
    if !AsksForInstance(packet) {
      var ok := framed.Send(ResponseEmpty(packet.header), send);
      end := if ok then None else Some(Failure(Write));
    } else {
      var ok := framed.Send(ResponseRaw(packet.header, body), send);
      end := Some(if ok then Success(()) else Failure(Write));
    }
  }

  /** One turn of the handler's loop; gives a result when the loop ends. */
  method Serve(framed: ClientStream, send: SendEvent, body: seq<byte>)
      returns (end: Option<Result<(), RedirectError>>, ghost answered: nat)
    requires Answering(framed, body)
    modifies framed, framed.codec, framed.buffer
    ensures answered == |old(framed.decoded)| || (answered == |old(framed.decoded)| + 1 && send.SendOk?)
    ensures end.None? ==>
              && Answering(framed, body) && |framed.decoded| == answered > |old(framed.decoded)|
              && (|framed.events| < |old(framed.events)| ||
                  (|framed.events| == |old(framed.events)| && Shrunk(old(framed.Reader()), framed.Reader())))
    ensures end.Some? ==> Outcome(framed.script, body, answered, end.value, framed.output)
    ensures end == Some(Failure(Write)) ==> send.SendFailed? && answered == |old(framed.decoded)|
  {
    hide ParseFireHeader, FireHeaderBytes, Framing.Decode;
    ghost var before := framed.decoded;
    answered := |before|;
    var next := framed.TryNext();
    if next.Item? {
      end := Reply(framed, next.frame, send, body, before);
      answered := |before| + if send.SendOk? then 1 else 0;
    } else {
      ResponseCount(before, body);
      end := Some(if next.Closed? then Success(()) else Failure(next.error));
    }
  }

  /**
   * Handles one client. `body` is the serialized instance answer and `sends` the outcome of
   * each send. However the reads are cut, and whatever ends them, the output is the encoded
   * answers to all frames that arrive; if a send fails, those before it and a front part of
   * that one. The connection ends well once the instance was asked for, and otherwise as the
   * reads end.
   */
  method Handle(events: seq<ReadEvent>, sends: nat -> SendEvent, body: seq<byte>)
    returns (result: Result<(), RedirectError>, output: seq<byte>)
    ensures exists answered: nat ::
              && Outcome(events, body, answered, result, output)
              && (forall j | 0 <= j < answered :: sends(j).SendOk?)
              && (result == Failure(Write) ==> sends(answered).SendFailed?)
  {
    hide Outcome, Ended, Answers, Reading, Decoded;
    var framed := new ClientStream(events);
    var sent := 0;
    while true
      invariant Answering(framed, body) && framed.script == events
      invariant fresh(framed) && fresh(framed.codec) && fresh(framed.buffer)
      invariant sent == |framed.decoded| && forall j | 0 <= j < sent :: sends(j).SendOk?
      decreases |framed.events|, |framed.Reader().buffer|, framed.Reader().partial.Some?
    {
      var end;
      ghost var answered;
      end, answered := Serve(framed, sends(sent), body);
      if end.Some? {
        return end.value, framed.output;
      }
      sent := sent + 1;
    }
  }

  lemma ResponseCount(fs: seq<Frame>, body: seq<byte>)
    ensures Before(fs) == |fs| ==> |Responses(fs, body)| == |fs|
  {
    OneResponseEach(fs, body);
  }

  /** The answers so far are the start of the answers to everything that arrives, and all of
      them once the instance was asked for. */
  lemma StreamAnswers(decoded: seq<Frame>, received: seq<byte>, later: seq<byte>, body: seq<byte>,
                      d: Decoder<FrameHeader>)
    requires Sane(FireFormat())
    requires Drain(FireFormat(), Decoder(None, received)).0 == decoded + Drain(FireFormat(), d).0
    ensures var requests := Messages(FireFormat(), received + later);
            && Responses(decoded, body) <= Responses(requests, body)
            && (Before(decoded) < |decoded| ==>
                  Responses(decoded, body) == Responses(requests, body) && Before(requests) < |requests|)
  {
    MessagesPrefix(FireFormat(), received, later);
    var requests := Messages(FireFormat(), received + later);
    var more := requests[|decoded|..];
    assert requests == decoded + more;
    ResponsesAppend(decoded, more, body);
    if Before(decoded) < |decoded| {
      BeforeAppend(decoded, more);
    }
  }

  lemma AnswerNext(script: seq<ReadEvent>, received: seq<byte>, events: seq<ReadEvent>, d: Decoder<FrameHeader>,
                   before: seq<Frame>, packet: Frame, body: seq<byte>)
    requires Before(before) == |before|
    requires Decoded(received, before + [packet], d) && Reading(script, received, events)
    ensures var answers, n := Answers(script, body), |before|;
            && n < |answers|
            && answers[..n] == Responses(before, body) && answers[n] == Response(packet, body)
            && EncodeAll(FireFormat(), Responses(before + [packet], body)) ==
               EncodeAll(FireFormat(), Responses(before, body)) + EncodeFrame(Response(packet, body))
            && (if AsksForInstance(packet) then
                  && answers == Responses(before + [packet], body) && |answers| == n + 1
                  && Before(Requests(script)) < |Requests(script)|
                else
                  Before(before + [packet]) == |before + [packet]|)
  {
    AnswerStep(before, packet, body);
    ResponseCount(before, body);
    StreamAnswers(before + [packet], received, Arriving(events), body, d);
    var answers, now := Answers(script, body), Responses(before + [packet], body);
    assert now <= answers && answers[|before|] == now[|before|];
    assert answers[..|before|] == now[..|before|] == Responses(before, body);
  }

  lemma {:induction false} BeforeAppend(fs: seq<Frame>, more: seq<Frame>)
    requires Before(fs) < |fs|
    ensures Before(fs + more) == Before(fs)
  {
    assert (fs + more)[0] == fs[0] && (fs + more)[1..] == fs[1..] + more;
    if !AsksForInstance(fs[0]) {
      BeforeAppend(fs[1..], more);
    }
  }

  /** Byte by byte: to a request for the instance, the connection answers with these bytes. */
  lemma InstanceAnswered(b: seq<byte>, c: seq<byte>, body: seq<byte>)
    requires |b| == 12 && |c| == 256 * (b[0] as int) + b[1] as int
    requires b[2..6] == [0, 5, 0, 1] && |body| < 65536
    ensures Expected([Chunk(b + c)], body) ==
            [|body| / 256, |body| % 256, 0, 5, 0, 1, 0, 0, 16, 0, b[10], b[11]] + body
    ensures Before(Requests([Chunk(b + c)])) < |Requests([Chunk(b + c)])|
  {
    hide ParseFireHeader, FireHeaderBytes;
    FireLayout(b, c);
    assert Arriving([Chunk(b + c)]) == b + c + [] == b + c;
    assert b[2] == b[2..6][0] && b[3] == b[2..6][1] && b[4] == b[2..6][2] && b[5] == b[2..6][3];
    var request := Requests([Chunk(b + c)])[0];
    var answer := ResponseRaw(request.header, body);
    AnswerBytes(request.header, b[10], b[11], body);
    assert Answers([Chunk(b + c)], body) == [answer];
    assert EncodeAll(FireFormat(), [answer]) == EncodeFrame(answer) + [] == EncodeFrame(answer);
  }

  lemma AnswerBytes(h: FrameHeader, hi: byte, lo: byte, body: seq<byte>)
    requires h.component == 5 && h.command == 1 && h.seqNo == 256 * (hi as int) + lo as int && |body| < 65536
    ensures EncodeFrame(ResponseRaw(h, body)) ==
            [|body| / 256, |body| % 256, 0, 5, 0, 1, 0, 0, 16, 0, hi, lo] + body
  {
    EncodedFireLayout(ResponseRaw(h, body));
    var e := EncodeFrame(ResponseRaw(h, body));
    assert e == e[..12] + e[12..];
  }

  /** End to end: from the client's byte stream to the frames it decodes from the answer. */
  lemma ClientSeesResponses(received: seq<byte>, body: seq<byte>)
    requires |body| < 0x1_0000
    ensures Sane(FireFormat())
    ensures var requests := Messages(FireFormat(), received);
            Messages(FireFormat(), EncodeAll(FireFormat(), Responses(requests, body))) == Responses(requests, body)
  {
    FireSound();
    var requests := Messages(FireFormat(), received);
    var fs := Responses(requests, body);
    OneResponseEach(requests, body);
    forall f | f in fs ensures Faithful(FireFormat(), f) {
      FireFaithful(f);
    }
    if fs != [] {
      FrameParts(fs[|fs| - 1]);
    }
    RoundTripIff(FireFormat(), fs);
  }
}
