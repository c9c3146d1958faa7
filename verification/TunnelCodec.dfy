/** The frames of the TCP tunnel: a socket index, a 16-bit length and the payload. */
module TunnelCodecs {
  import opened Wrappers
  import opened Bytes
  import opened Framing

  datatype Header = Header(index: byte, length: u16)

  datatype Message = Message(index: byte, payload: seq<byte>)

  /** Index of the keep-alive messages in both directions. */
  const KEEP_ALIVE: byte := 255

  function ParseHeader(raw: seq<byte>): Header {
    if |raw| >= 3 then Header(raw[0], U16(raw[1], raw[2])) else Header(0, 0)
  }

  function HeaderBytes(h: Header): seq<byte> {
    [h.index, Hi(h.length), Lo(h.length)]
  }

  /** The length field is the payload's length cast to `u16`. */
  function EncodeMessage(m: Message): seq<byte> {
    HeaderBytes(Header(m.index, Truncate(|m.payload|))) + m.payload
  }

  /** The header has three bytes, but the decoder waits for five before reading it. */
  function TunnelFormat(): Format<Header, Message> {
    Format(3, 5, ParseHeader, HeaderBytes, (h: Header) => h.length as nat,
           (h: Header, payload: seq<byte>) => Message(h.index, payload), EncodeMessage)
  }

  predicate Fits(m: Message) {
    |m.payload| < 0x1_0000
  }

  lemma HeaderReparsed(h: Header, raw: seq<byte>)
    requires raw == HeaderBytes(h)
    ensures ParseHeader(raw) == h
  {
    U16Rebuilt(h.length);
  }

  lemma EncodedParts(m: Message)
    ensures var bytes := EncodeMessage(m);
            && |bytes| == 3 + |m.payload|
            && bytes[3..] == m.payload
            && ParseHeader(bytes[..3]) == Header(m.index, Truncate(|m.payload|))
  {
    var h := Header(m.index, Truncate(|m.payload|));
    assert EncodeMessage(m)[..3] == HeaderBytes(h);
    HeaderReparsed(h, EncodeMessage(m)[..3]);
  }

  lemma TunnelFaithful(m: Message)
    ensures Faithful(TunnelFormat(), m) <==> Fits(m)
  {
    EncodedParts(m);
    assert TunnelFormat().encode(m) == EncodeMessage(m);
  }

  lemma HeaderReprinted(raw: seq<byte>)
    requires |raw| == 3
    ensures HeaderBytes(ParseHeader(raw)) == raw
  {
    U16RoundTrip(raw[1], raw[2]);
  }

  lemma TunnelFormatExact()
    ensures Sane(TunnelFormat()) && Exact(TunnelFormat())
  {
    var f := TunnelFormat();
    forall raw: seq<byte> | |raw| == 3 ensures f.write(f.parse(raw)) == raw {
      HeaderReprinted(raw);
    }
    forall h: Header, payload: seq<byte> | f.lengthOf(h) == |payload|
      ensures f.encode(f.item(h, payload)) == f.write(h) + payload
    {
      assert Truncate(|payload|) == h.length;
    }
  }

  lemma TunnelFormatSound()
    ensures Sane(TunnelFormat()) && Sound(TunnelFormat())
  {
    forall raw: seq<byte>, payload: seq<byte> | |raw| == 3 && ParseHeader(raw).length == |payload|
      ensures Faithful(TunnelFormat(), TunnelFormat().item(ParseHeader(raw), payload))
    {
      TunnelFaithful(Message(ParseHeader(raw).index, payload));
    }
  }

  /** Whatever arrives and however it is cut into reads: the messages given out, re-encoded,
      then the header being waited on, then the unread bytes, are exactly the bytes fed in;
      and the cuts make no difference to the messages or to the final decoder. */
  lemma TunnelStreamConserved(chunks: seq<seq<byte>>)
    ensures var (ms, end) := Feed(TunnelFormat(), Decoder(None, []), chunks);
            && EncodeAll(TunnelFormat(), ms) + Held(TunnelFormat(), end) == Concat(chunks)
            && (ms, end) == Drain(TunnelFormat(), Decoder(None, Concat(chunks)))
            && (forall m | m in ms :: Fits(m))
  {
    TunnelFormatExact();
    TunnelFormatSound();
    var f, bytes := TunnelFormat(), Concat(chunks);
    var start: Decoder<Header> := Decoder(None, []);
    FeedIsDrain(f, start, chunks);
    assert start.Fed(bytes) == Decoder(None, bytes) by {
      assert [] + bytes == bytes;
    }
    DrainConserves(f, Decoder(None, bytes));
    assert Held(f, Decoder(None, bytes)) == bytes;
    DrainedAreFaithful(f, bytes);
    forall m | m in Messages(f, bytes) ensures Fits(m) {
      TunnelFaithful(m);
    }
  }

  /** Decoding what was encoded, for payloads that fit the length field: everything comes
      back, unless the last frame is shorter than the five bytes the decoder waits for;
      then exactly that frame stays buffered. */
  lemma TunnelRoundTrip(ms: seq<Message>)
    requires forall m | m in ms :: Fits(m)
    ensures Drain(TunnelFormat(), Decoder(None, EncodeAll(TunnelFormat(), ms))) ==
            if ms == [] || |ms[|ms| - 1].payload| >= 2 then (ms, Decoder(None, []))
            else (ms[..|ms| - 1], Decoder(None, EncodeMessage(ms[|ms| - 1])))
  {
    TunnelFormatSound();
    forall m | m in ms ensures Faithful(TunnelFormat(), m) {
      TunnelFaithful(m);
    }
    DrainEncoded(TunnelFormat(), ms);
  }

  /** The exact condition for a message list to come back from its own encoding. */
  lemma TunnelRoundTripIff(ms: seq<Message>)
    ensures Messages(TunnelFormat(), EncodeAll(TunnelFormat(), ms)) == ms <==>
            (forall m | m in ms :: Fits(m)) && (ms == [] || |ms[|ms| - 1].payload| >= 2)
  {
    TunnelFormatSound();
    forall m | m in ms ensures Faithful(TunnelFormat(), m) <==> Fits(m) {
      TunnelFaithful(m);
    }
    RoundTripIff(TunnelFormat(), ms);
  }

  /** A keep-alive that is the last thing on the wire is not seen by the peer's decoder. */
  lemma LoneKeepAliveIsHeld()
    ensures Messages(TunnelFormat(), [255, 0, 0]) == []
    ensures EncodeMessage(Message(255, [])) == [255, 0, 0]
  {
    var ping := Message(255, []);
    TunnelRoundTrip([ping]);
    assert EncodeAll(TunnelFormat(), [ping]) == EncodeMessage(ping) + [] == EncodeMessage(ping);
  }

  // ---- The bytes of a frame ----

  /** What a decoder reads: index, length with the high byte first, payload. */
  lemma TunnelLayout(index: byte, hi: byte, lo: byte, payload: seq<byte>)
    requires |payload| == 256 * (hi as int) + lo as int >= 2
    ensures Drain(TunnelFormat(), Decoder(None, [index, hi, lo] + payload)) ==
            ([Message(index, payload)], Decoder(None, []))
  {
    var bytes := [index, hi, lo] + payload;
    assert bytes[..3] == [index, hi, lo] && bytes[3..] == payload;
    assert payload[..|payload|] == payload && payload[|payload|..] == [];
    var f := TunnelFormat();
    assert Framing.Decode(f, Decoder(None, bytes)) == (Some(Message(index, payload)), Decoder(None, []));
    assert Framing.Decode(f, Decoder(None, [])) == (None, Decoder(None, []));
    assert [Message(index, payload)] + [] == [Message(index, payload)];
  }

  /** What an encoder writes; a length that does not fit wraps. */
  lemma EncodedLayout(m: Message)
    ensures var e := EncodeMessage(m);
            && |e| == 3 + |m.payload|
            && e[0] == m.index
            && 256 * (e[1] as int) + e[2] as int == |m.payload| % 65536
            && e[3..] == m.payload
  {
    hide Truncate;
    TruncateWraps(|m.payload|);
    EncodedParts(m);
    U16Rebuilt(Truncate(|m.payload|));
  }

  class TunnelCodec {
    var partial: Option<Header>

    constructor ()
      ensures partial == None
    {
      partial := None;
    }

    method Decode(src: BytesMut) returns (r: Option<Message>)
      modifies this, src
      ensures (r, Decoder(partial, src.data)) ==
              Framing.Decode(TunnelFormat(), Decoder(old(partial), old(src.data)))
    {
      var current := partial;
      if current.None? {
        if |src.data| < 5 {
          return None;
        }
        var index := src.GetU8();
        var length := src.GetU16();
        current := Some(Header(index, length));
        partial := current;
      }
      if |src.data| < current.value.length {
        return None;
      }
      partial := None;
      var bytes := src.SplitTo(current.value.length);
      r := Some(Message(current.value.index, bytes));
    }

    method Encode(item: Message, dst: BytesMut)
      modifies dst
      ensures dst.data == old(dst.data) + EncodeMessage(item)
    {
      dst.PutU8(item.index);
      dst.PutU16(Truncate(|item.payload|));
      dst.Extend(item.payload);
    }
  }
}
