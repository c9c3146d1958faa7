/**
 Incremental decoding of length-prefixed frames. Both wire formats of the client, the
 tunnel frames and the Fire frames, are instances of this scheme: a decoder that keeps a
 parsed header between calls until the whole payload has arrived.
 */
module Framing {
  import opened Wrappers
  import opened Bytes

  /** A wire format with headers `H` and messages `M`. `threshold` is the number of
      buffered bytes the decoder waits for before it reads a header. */
  datatype Format<!H, !M> = Format(
    headerSize: nat,
    threshold: nat,
    parse: seq<byte> -> H,
    write: H -> seq<byte>,
    lengthOf: H -> nat,
    item: (H, seq<byte>) -> M,
    encode: M -> seq<byte>)

  /** What a decoder holds between calls. */
  datatype Decoder<H> = Decoder(partial: Option<H>, buffer: seq<byte>) {
    function Fed(chunk: seq<byte>): Decoder<H> {
      this.(buffer := buffer + chunk)
    }
  }

  predicate Sane<H, M>(f: Format<H, M>) {
    0 < f.headerSize <= f.threshold <= 2 * f.headerSize
  }

  /** One call of `decode`. */
  function Decode<H, M>(f: Format<H, M>, d: Decoder<H>): (r: (Option<M>, Decoder<H>))
    requires Sane(f)
  {
    if d.partial.None? && |d.buffer| < f.threshold then
      (None, d)
    else
      var header := if d.partial.Some? then d.partial.value else f.parse(d.buffer[..f.headerSize]);
      var rest := if d.partial.Some? then d.buffer else d.buffer[f.headerSize..];
      var length := f.lengthOf(header);
      if |rest| < length then
        (None, Decoder(Some(header), rest))
      else
        (Some(f.item(header, rest[..length])), Decoder(None, rest[length..]))
  }

  /** Repeated calls of `decode` until one gives nothing. */
  function Drain<H, M>(f: Format<H, M>, d: Decoder<H>): (seq<M>, Decoder<H>)
    requires Sane(f)
    decreases |d.buffer|, d.partial.Some?
  {
    var (m, rest) := Decode(f, d);
    if m.None? then
      ([], rest)
    else
      var (ms, end) := Drain(f, rest);
      ([m.value] + ms, end)
  }

  /** Draining after every chunk of input. */
  function Feed<H, M>(f: Format<H, M>, d: Decoder<H>, chunks: seq<seq<byte>>): (seq<M>, Decoder<H>)
    requires Sane(f)
    decreases |chunks|
  {
    var (ms, rest) := Drain(f, d);
    if chunks == [] then
      (ms, rest)
    else
      var (more, end) := Feed(f, rest.Fed(chunks[0]), chunks[1..]);
      (ms + more, end)
  }

  function EncodeAll<H, M>(f: Format<H, M>, ms: seq<M>): seq<byte> {
    if ms == [] then [] else f.encode(ms[0]) + EncodeAll(f, ms[1..])
  }

  /** The messages a fresh decoder finds in `bytes`. */
  function Messages<H, M>(f: Format<H, M>, bytes: seq<byte>): seq<M>
    requires Sane(f)
  {
    Drain(f, Decoder(None, bytes)).0
  }

  /** The bytes a decoder has accepted and not yet given out as messages. */
  function Held<H, M>(f: Format<H, M>, d: Decoder<H>): seq<byte> {
    (if d.partial.Some? then f.write(d.partial.value) else []) + d.buffer
  }

  /** The decoder has given something out without being given anything. */
  ghost predicate Shrunk<H>(before: Decoder<H>, after: Decoder<H>) {
    || |after.buffer| < |before.buffer|
    || (|after.buffer| == |before.buffer| && before.partial.Some? && after.partial.None?)
  }

  /** The encoding of `m` is one frame, and reading that frame gives `m` again. */
  ghost predicate Faithful<H, M>(f: Format<H, M>, m: M) {
    var bytes := f.encode(m);
    && f.headerSize <= |bytes|
    && f.lengthOf(f.parse(bytes[..f.headerSize])) == |bytes| - f.headerSize
    && f.item(f.parse(bytes[..f.headerSize]), bytes[f.headerSize..]) == m
  }

  /** Every message the decoder can produce is faithful. */
  ghost predicate Sound<H, M>(f: Format<H, M>) {
    forall raw: seq<byte>, payload: seq<byte> {:trigger f.item(f.parse(raw), payload)}
      | |raw| == f.headerSize && f.lengthOf(f.parse(raw)) == |payload|
      :: Faithful(f, f.item(f.parse(raw), payload))
  }

  /** Re-encoding a frame gives back its very bytes. */
  ghost predicate Exact<H(!new), M>(f: Format<H, M>) {
    && (forall raw: seq<byte> {:trigger f.parse(raw)} | |raw| == f.headerSize :: f.write(f.parse(raw)) == raw)
    && (forall h: H, payload: seq<byte> {:trigger f.item(h, payload)} | f.lengthOf(h) == |payload|
          :: f.encode(f.item(h, payload)) == f.write(h) + payload)
  }

  lemma {:induction false} EncodeAllAppend<H, M>(f: Format<H, M>, a: seq<M>, b: seq<M>)
    ensures EncodeAll(f, a + b) == EncodeAll(f, a) + EncodeAll(f, b)
  {
    if a == [] {
      assert a + b == b;
      assert [] + EncodeAll(f, b) == EncodeAll(f, b);
    } else {
      EncodeAllAppend(f, a[1..], b);
      assert (a + b)[0] == a[0] && (a + b)[1..] == a[1..] + b;
      SeqAssoc(f.encode(a[0]), EncodeAll(f, a[1..]), EncodeAll(f, b));
    }
  }

  // ---- Chunk independence ----

  /** More input never changes what an earlier call decoded. */
  lemma DecodeMonotone<H, M>(f: Format<H, M>, d: Decoder<H>, chunk: seq<byte>)
    requires Sane(f)
    ensures var (m, rest) := Decode(f, d);
            Decode(f, d.Fed(chunk)) == if m.Some? then (m, rest.Fed(chunk)) else Decode(f, rest.Fed(chunk))
  {
    if d.partial.Some? || |d.buffer| >= f.threshold {
      if d.partial.None? {
        assert d.Fed(chunk).buffer[..f.headerSize] == d.buffer[..f.headerSize];
        assert d.Fed(chunk).buffer[f.headerSize..] == d.buffer[f.headerSize..] + chunk;
      }
      var header := if d.partial.Some? then d.partial.value else f.parse(d.buffer[..f.headerSize]);
      var rest := if d.partial.Some? then d.buffer else d.buffer[f.headerSize..];
      var length := f.lengthOf(header);
      if length <= |rest| {
        assert (rest + chunk)[..length] == rest[..length];
        assert (rest + chunk)[length..] == rest[length..] + chunk;
      }
    }
  }

  lemma DecodeShrinks<H, M>(f: Format<H, M>, d: Decoder<H>)
    requires Sane(f)
    ensures Decode(f, d).0.Some? ==> Shrunk(d, Decode(f, d).1)
  {
  }

  /** Draining, adding input and draining again is draining the joined input. */
  lemma {:induction false} DrainSplit<H, M>(f: Format<H, M>, d: Decoder<H>, chunk: seq<byte>)
    requires Sane(f)
    ensures var (ms, mid) := Drain(f, d);
            var (more, end) := Drain(f, mid.Fed(chunk));
            Drain(f, d.Fed(chunk)) == (ms + more, end)
    decreases |d.buffer|, d.partial.Some?
  {
    hide Decode;
    DecodeMonotone(f, d, chunk);
    DecodeShrinks(f, d);
    var (m, rest) := Decode(f, d);
    if m.Some? {
      DrainSplit(f, rest, chunk);
      var (ms, mid) := Drain(f, rest);
      var (more, end) := Drain(f, mid.Fed(chunk));
      assert [m.value] + (ms + more) == ([m.value] + ms) + more;
    } else {
      var (more, end) := Drain(f, rest.Fed(chunk));
      assert [] + more == more;
    }
  }

  lemma {:induction false} FeedIsDrain<H, M>(f: Format<H, M>, d: Decoder<H>, chunks: seq<seq<byte>>)
    requires Sane(f)
    ensures Feed(f, d, chunks) == Drain(f, d.Fed(Concat(chunks)))
    decreases |chunks|
  {
    var (ms, rest) := Drain(f, d);
    if chunks == [] {
      assert d.Fed([]) == d;
    } else {
      FeedIsDrain(f, rest.Fed(chunks[0]), chunks[1..]);
      assert rest.Fed(chunks[0]).Fed(Concat(chunks[1..])) == rest.Fed(Concat(chunks)) by {
        assert rest.buffer + chunks[0] + Concat(chunks[1..]) == rest.buffer + (chunks[0] + Concat(chunks[1..]));
      }
      DrainSplit(f, d, Concat(chunks));
    }
  }

  /** A prefix of a byte stream decodes to a prefix of its messages. */
  lemma MessagesPrefix<H, M>(f: Format<H, M>, bytes: seq<byte>, more: seq<byte>)
    requires Sane(f)
    ensures Messages(f, bytes) <= Messages(f, bytes + more)
  {
    DrainSplit(f, Decoder(None, bytes), more);
  }

  // ---- Conservation ----

  lemma EncodeCons<H, M>(f: Format<H, M>, m: M, ms: seq<M>)
    ensures EncodeAll(f, [m] + ms) == f.encode(m) + EncodeAll(f, ms)
  {
    assert ([m] + ms)[1..] == ms;
  }

  /** A header and the bytes behind it conserve what is held, whether or not they make a
      message yet. */
  lemma BodyConserves<H(!new), M>(f: Format<H, M>, header: H, body: seq<byte>)
    requires Exact(f) && f.lengthOf(header) <= |body|
    ensures f.encode(f.item(header, body[..f.lengthOf(header)])) + body[f.lengthOf(header)..] == f.write(header) + body
  {
    var length := f.lengthOf(header);
    assert f.encode(f.item(header, body[..length])) == f.write(header) + body[..length];
    SeqSplit(body, length);
    SeqAssoc(f.write(header), body[..length], body[length..]);
  }

  lemma DecodeConserves<H(!new), M>(f: Format<H, M>, d: Decoder<H>)
    requires Sane(f) && Exact(f)
    ensures var (m, rest) := Decode(f, d);
            if m.Some? then f.encode(m.value) + Held(f, rest) == Held(f, d) else Held(f, rest) == Held(f, d)
  {
    if d.partial.Some? || |d.buffer| >= f.threshold {
      var header := if d.partial.Some? then d.partial.value else f.parse(d.buffer[..f.headerSize]);
      var body := if d.partial.Some? then d.buffer else d.buffer[f.headerSize..];
      if d.partial.None? {
        SeqSplit(d.buffer, f.headerSize);
      }
      assert Held(f, d) == f.write(header) + body;
      if f.lengthOf(header) <= |body| {
        BodyConserves(f, header, body);
      }
    }
  }

  /** No byte is lost or invented: the frames given out, re-encoded, followed by what the
      decoder still holds, are exactly the bytes it was given. */
  lemma {:induction false} DrainConserves<H(!new), M>(f: Format<H, M>, d: Decoder<H>)
    requires Sane(f) && Exact(f)
    ensures var (ms, end) := Drain(f, d); EncodeAll(f, ms) + Held(f, end) == Held(f, d)
    decreases |d.buffer|, d.partial.Some?
  {
    DecodeConserves(f, d);
    var (m, rest) := Decode(f, d);
    if m.Some? {
      DrainConserves(f, rest);
      var (ms, end) := Drain(f, rest);
      EncodeCons(f, m.value, ms);
      SeqAssoc(f.encode(m.value), EncodeAll(f, ms), Held(f, end));
    } else {
      assert EncodeAll(f, []) + Held(f, rest) == Held(f, rest);
    }
  }

  // ---- Round trip ----

  /** Reading a frame with enough bytes behind it takes exactly that frame. */
  lemma DecodeFrame<H, M>(f: Format<H, M>, m: M, tail: seq<byte>)
    requires Sane(f) && Faithful(f, m) && f.threshold <= |f.encode(m) + tail|
    ensures Decode(f, Decoder(None, f.encode(m) + tail)) == (Some(m), Decoder(None, tail))
  {
    var bytes := f.encode(m);
    var rest := (bytes + tail)[f.headerSize..];
    assert (bytes + tail)[..f.headerSize] == bytes[..f.headerSize];
    assert rest == bytes[f.headerSize..] + tail;
    var length := |bytes| - f.headerSize;
    assert rest[..length] == bytes[f.headerSize..];
    assert rest[length..] == tail;
  }

  /** Decoding a list of encoded messages gives the list back, except that a last frame
      shorter than the threshold stays in the buffer, untouched. */
  lemma {:induction false} DrainEncoded<H, M>(f: Format<H, M>, ms: seq<M>)
    requires Sane(f) && forall m | m in ms :: Faithful(f, m)
    ensures Drain(f, Decoder(None, EncodeAll(f, ms))) ==
            if ms == [] || f.threshold <= |f.encode(ms[|ms| - 1])| then (ms, Decoder(None, []))
            else (ms[..|ms| - 1], Decoder(None, f.encode(ms[|ms| - 1])))
  {
    if |ms| == 1 {
      assert EncodeAll(f, ms) == f.encode(ms[0]) + [] == f.encode(ms[0]);
      if f.threshold <= |f.encode(ms[0])| {
        DecodeFrame(f, ms[0], []);
        assert [ms[0]] + [] == ms;
      }
    } else if |ms| > 1 {
      assert EncodeAll(f, ms[1..]) == f.encode(ms[1]) + EncodeAll(f, ms[1..][1..]);
      assert Faithful(f, ms[0]) && Faithful(f, ms[1]);
      DecodeFrame(f, ms[0], EncodeAll(f, ms[1..]));
      DrainEncoded(f, ms[1..]);
      assert ms == [ms[0]] + ms[1..];
      assert ms[..|ms| - 1] == [ms[0]] + ms[1..][..|ms| - 2];
    }
  }

  lemma {:induction false} DrainedAreFaithful<H, M>(f: Format<H, M>, bytes: seq<byte>)
    requires Sane(f) && Sound(f)
    ensures forall m | m in Messages(f, bytes) :: Faithful(f, m)
    decreases |bytes|
  {
    var (m, rest) := Decode(f, Decoder(None, bytes));
    if m.Some? {
      DrainedAreFaithful(f, rest.buffer);
      assert Faithful(f, m.value);
    }
  }

  /** The exact condition under which a list of messages survives the wire. */
  lemma RoundTripIff<H, M>(f: Format<H, M>, ms: seq<M>)
    requires Sane(f) && Sound(f)
    ensures Messages(f, EncodeAll(f, ms)) == ms <==>
            && (forall m | m in ms :: Faithful(f, m))
            && (ms == [] || f.threshold <= |f.encode(ms[|ms| - 1])|)
  {
    if forall m | m in ms :: Faithful(f, m) {
      DrainEncoded(f, ms);
    } else {
      DrainedAreFaithful(f, EncodeAll(f, ms));
    }
  }
}
