/** Fire frames: a twelve-byte header with the contents' length, and the contents. */
module FireCodecs {
  import opened Wrappers
  import opened Bytes
  import opened Framing

  datatype FrameType = Request | Response | Notify | Error

  /** Values other than those of the last three types read as a request. */
  function FrameTypeFrom(value: byte): FrameType {
    match value
    case 1 => Response
    case 2 => Notify
    case 3 => Error
    case _ => Request
  }

  function FrameTypeCode(ty: FrameType): byte {
    match ty
    case Request => 0
    case Response => 1
    case Notify => 2
    case Error => 3
  }

  /** Right shift by four, and left shift by four within eight bits. */
  function HighNibble(b: byte): byte {
    b / 0x10
  }

  function Raised(b: byte): byte {
    (b % 0x10) * 0x10
  }

  datatype FrameHeader = FrameHeader(
    length: nat, component: u16, command: u16, error: u16, ty: FrameType, options: byte, seqNo: u16)

  datatype Frame = Frame(header: FrameHeader, contents: seq<byte>)

  const MIN_HEADER_SIZE: nat := 12

  function ParseFireHeader(raw: seq<byte>): FrameHeader {
    if |raw| >= 12 then
      FrameHeader(U16(raw[0], raw[1]), U16(raw[2], raw[3]), U16(raw[4], raw[5]), U16(raw[6], raw[7]),
                  FrameTypeFrom(HighNibble(raw[8])), HighNibble(raw[9]), U16(raw[10], raw[11]))
    else FrameHeader(0, 0, 0, 0, Request, 0, 0)
  }

  function FireHeaderBytes(h: FrameHeader): seq<byte> {
    var length := Truncate(h.length);
    [Hi(length), Lo(length), Hi(h.component), Lo(h.component), Hi(h.command), Lo(h.command),
     Hi(h.error), Lo(h.error), Raised(FrameTypeCode(h.ty)), Raised(h.options), Hi(h.seqNo), Lo(h.seqNo)]
  }

  function EncodeFrame(f: Frame): seq<byte> {
    FireHeaderBytes(f.header) + f.contents
  }

  function FireFormat(): Format<FrameHeader, Frame> {
    Format(12, 12, ParseFireHeader, FireHeaderBytes, (h: FrameHeader) => h.length,
           (h: FrameHeader, contents: seq<byte>) => Frame(h, contents), EncodeFrame)
  }

  /** Frames the wire format can carry. */
  predicate Carriable(f: Frame) {
    f.header.length == |f.contents| < 0x1_0000 && f.header.options < 0x10
  }

  // ---- Headers ----

  lemma NibbleRoundTrip(ty: FrameType, options: byte)
    ensures FrameTypeFrom(HighNibble(Raised(FrameTypeCode(ty)))) == ty
    ensures HighNibble(Raised(options)) == options <==> options < 0x10
    ensures HighNibble(options) < 0x10
  {
  }

  lemma FireHeaderReparsed(h: FrameHeader)
    ensures ParseFireHeader(FireHeaderBytes(h)) ==
            Carried(h)
  {
    U16Rebuilt(Truncate(h.length));
    U16Rebuilt(h.component);
    U16Rebuilt(h.command);
    U16Rebuilt(h.error);
    U16Rebuilt(h.seqNo);
    NibbleRoundTrip(h.ty, h.options);
  }

  lemma FrameParts(f: Frame)
    ensures var bytes := EncodeFrame(f);
            && |bytes| == 12 + |f.contents|
            && bytes[..12] == FireHeaderBytes(f.header)
            && bytes[12..] == f.contents
  {
  }

  /** The header as it comes back from the wire. */
  function Carried(h: FrameHeader): FrameHeader {
    h.(length := Truncate(h.length), options := HighNibble(Raised(h.options)))
  }

  lemma FrameReparsed(f: Frame)
    ensures Faithful(FireFormat(), f) <==>
            Carried(f.header).length == |f.contents| && Frame(Carried(f.header), f.contents) == f
  {
    FrameParts(f);
    FireHeaderReparsed(f.header);
    assert FireFormat().encode(f) == EncodeFrame(f);
  }

  lemma CarriedUnchanged(h: FrameHeader)
    ensures Carried(h) == h <==> h.length < 0x1_0000 && h.options < 0x10
  {
  }

  lemma FireFaithful(f: Frame)
    ensures Faithful(FireFormat(), f) <==> Carriable(f)
  {
    FrameReparsed(f);
    CarriedUnchanged(f.header);
  }

  lemma FireSound()
    ensures Sane(FireFormat()) && Sound(FireFormat())
  {
    forall raw: seq<byte>, contents: seq<byte> | |raw| == 12 && ParseFireHeader(raw).length == |contents|
      ensures Faithful(FireFormat(), FireFormat().item(ParseFireHeader(raw), contents))
    {
      NibbleRoundTrip(Request, raw[9]);
      FireFaithful(Frame(ParseFireHeader(raw), contents));
    }
  }

  // ---- Round trip ----

  /** A list of frames comes back from its own encoding, however that is cut into reads,
      exactly if every frame is carriable. */
  lemma FireRoundTripIff(fs: seq<Frame>, chunks: seq<seq<byte>>)
    requires Concat(chunks) == EncodeAll(FireFormat(), fs)
    ensures Sane(FireFormat())
    ensures Feed(FireFormat(), Decoder(None, []), chunks).0 == fs <==> forall f | f in fs :: Carriable(f)
    ensures (forall f | f in fs :: Carriable(f)) ==>
              Feed(FireFormat(), Decoder(None, []), chunks) == (fs, Decoder(None, []))
  {
    FireSound();
    var start: Decoder<FrameHeader> := Decoder(None, []);
    FeedIsDrain(FireFormat(), start, chunks);
    assert start.Fed(Concat(chunks)) == Decoder(None, Concat(chunks)) by {
      assert [] + Concat(chunks) == Concat(chunks);
    }
    forall f | f in fs ensures Faithful(FireFormat(), f) <==> Carriable(f) {
      FireFaithful(f);
    }
    if fs != [] {
      FrameParts(fs[|fs| - 1]);
    }
    RoundTripIff(FireFormat(), fs);
    if forall f | f in fs :: Carriable(f) {
      DrainEncoded(FireFormat(), fs);
    }
  }

  // ---- Normal form ----

  /** The type byte with its low nibble cleared and unknown types read as a request. */
  function NormalType(b: byte): byte {
    if HighNibble(b) <= 3 then Raised(HighNibble(b)) else 0
  }

  function NormalOptions(b: byte): byte {
    b - b % 0x10
  }

  /** The complete frames at the front of `bytes`, with bytes 8 and 9 of each normalised. */
  function NormalForm(bytes: seq<byte>): seq<byte>
    decreases |bytes|
  {
    if |bytes| < 12 || |bytes| - 12 < U16(bytes[0], bytes[1]) then []
    else
      var end := 12 + U16(bytes[0], bytes[1]);
      bytes[..8] + [NormalType(bytes[8]), NormalOptions(bytes[9])] + bytes[10..end] + NormalForm(bytes[end..])
  }

  lemma FireHeaderReprinted(raw: seq<byte>)
    requires |raw| == 12
    ensures FireHeaderBytes(ParseFireHeader(raw)) ==
            raw[..8] + [NormalType(raw[8]), NormalOptions(raw[9])] + raw[10..]
  {
    U16RoundTrip(raw[0], raw[1]);
    U16RoundTrip(raw[2], raw[3]);
    U16RoundTrip(raw[4], raw[5]);
    U16RoundTrip(raw[6], raw[7]);
    U16RoundTrip(raw[10], raw[11]);
  }

  lemma FrameNormalised(bytes: seq<byte>, end: nat)
    requires 12 <= end <= |bytes|
    ensures EncodeFrame(Frame(ParseFireHeader(bytes[..12]), bytes[12..end])) ==
            bytes[..8] + [NormalType(bytes[8]), NormalOptions(bytes[9])] + bytes[10..end]
  {
    var raw := bytes[..12];
    FireHeaderReprinted(raw);
    assert raw[..8] == bytes[..8] && raw[8] == bytes[8] && raw[9] == bytes[9];
    assert raw[10..] + bytes[12..end] == bytes[10..end];
    SeqAssoc(raw[..8] + [NormalType(raw[8]), NormalOptions(raw[9])], raw[10..], bytes[12..end]);
  }

  /** The first frame of a stream that has one. */
  lemma FirstFrame(bytes: seq<byte>)
    requires |bytes| >= 12 && |bytes| - 12 >= U16(bytes[0], bytes[1])
    ensures Sane(FireFormat())
    ensures var end := 12 + U16(bytes[0], bytes[1]);
            var frame := Frame(ParseFireHeader(bytes[..12]), bytes[12..end]);
            Drain(FireFormat(), Decoder(None, bytes)).0 == [frame] + Messages(FireFormat(), bytes[end..])
  {
    var end := 12 + U16(bytes[0], bytes[1]);
    assert bytes[..12][0] == bytes[0] && bytes[..12][1] == bytes[1];
    assert bytes[12..][..end - 12] == bytes[12..end] && bytes[12..][end - 12..] == bytes[end..];
  }

  /** Re-encoding what was decoded gives the normal form of the complete frames read. */
  lemma {:induction false} ReencodedIsNormal(bytes: seq<byte>)
    ensures Sane(FireFormat())
    ensures EncodeAll(FireFormat(), Messages(FireFormat(), bytes)) == NormalForm(bytes)
    decreases |bytes|
  {
    hide ParseFireHeader, EncodeFrame;
    if |bytes| >= 12 && |bytes| - 12 >= U16(bytes[0], bytes[1]) {
      var end := 12 + U16(bytes[0], bytes[1]);
      var frame := Frame(ParseFireHeader(bytes[..12]), bytes[12..end]);
      FirstFrame(bytes);
      FrameNormalised(bytes, end);
      ReencodedIsNormal(bytes[end..]);
      EncodeCons(FireFormat(), frame, Messages(FireFormat(), bytes[end..]));
    } else {
      NoFrame(bytes);
    }
  }

  lemma NoFrame(bytes: seq<byte>)
    requires |bytes| < 12 || |bytes| - 12 < U16(bytes[0], bytes[1])
    ensures Sane(FireFormat())
    ensures Messages(FireFormat(), bytes) == []
  {
    if |bytes| >= 12 {
      assert bytes[..12][0] == bytes[0] && bytes[..12][1] == bytes[1];
    }
  }

  /** The normal form decodes to the same frames, completely, and is its own normal form. */
  lemma NormalFormIdempotent(bytes: seq<byte>)
    ensures Sane(FireFormat())
    ensures Drain(FireFormat(), Decoder(None, NormalForm(bytes))) == (Messages(FireFormat(), bytes), Decoder(None, []))
    ensures NormalForm(NormalForm(bytes)) == NormalForm(bytes)
  {
    FireSound();
    var fs := Messages(FireFormat(), bytes);
    ReencodedIsNormal(bytes);
    ReencodedIsNormal(NormalForm(bytes));
    DrainedAreFaithful(FireFormat(), bytes);
    if fs != [] {
      FrameParts(fs[|fs| - 1]);
    }
    DrainEncoded(FireFormat(), fs);
  }

  // ---- The bytes of a frame ----

  lemma ParsedLayout(b: seq<byte>)
    requires |b| == 12
    ensures var h := ParseFireHeader(b);
            && h.length == 256 * (b[0] as int) + b[1] as int
            && h.component == 256 * (b[2] as int) + b[3] as int
            && h.command == 256 * (b[4] as int) + b[5] as int
            && h.error == 256 * (b[6] as int) + b[7] as int
            && h.ty == (match b[8] / 16 case 1 => Response case 2 => Notify case 3 => FrameType.Error case _ => Request)
            && h.options == b[9] / 16
            && h.seqNo == 256 * (b[10] as int) + b[11] as int
  {
  }

  /** What a decoder reads: of a header and as many bytes as its first two say, one frame with
      each field where it belongs, the high byte first and the nibbles from above. */
  lemma FireLayout(b: seq<byte>, c: seq<byte>)
    requires |b| == 12 && |c| == 256 * (b[0] as int) + b[1] as int
    ensures Sane(FireFormat())
    ensures var ty := match b[8] / 16 case 1 => Response case 2 => Notify case 3 => FrameType.Error case _ => Request;
            var header := FrameHeader(|c|, 256 * (b[2] as int) + b[3] as int, 256 * (b[4] as int) + b[5] as int,
                                      256 * (b[6] as int) + b[7] as int,
                                      ty, b[9] / 16, 256 * (b[10] as int) + b[11] as int);
            Drain(FireFormat(), Decoder(None, b + c)) == ([Frame(header, c)], Decoder(None, []))
  {
    hide ParseFireHeader;
    ParsedLayout(b);
    var bytes := b + c;
    assert bytes[..12] == b && bytes[12..] == c;
    assert c[..|c|] == c && c[|c|..] == [];
    var f, frame := FireFormat(), Frame(ParseFireHeader(b), c);
    assert Framing.Decode(f, Decoder(None, bytes)) == (Some(frame), Decoder(None, []));
    assert Framing.Decode(f, Decoder(None, [])) == (None, Decoder(None, []));
    assert [frame] + [] == [frame];
  }

  /** What an encoder writes: the same, with lengths and options that do not fit cut off. */
  lemma EncodedFireLayout(f: Frame)
    ensures var e, h := EncodeFrame(f), f.header;
            && |e| == 12 + |f.contents|
            && 256 * (e[0] as int) + e[1] as int == h.length % 65536
            && 256 * (e[2] as int) + e[3] as int == h.component
            && 256 * (e[4] as int) + e[5] as int == h.command
            && 256 * (e[6] as int) + e[7] as int == h.error
            && e[8] == (match h.ty case Request => 0 case Response => 16 case Notify => 32 case Error => 48)
            && e[9] == 16 * (h.options % 16)
            && 256 * (e[10] as int) + e[11] as int == h.seqNo
            && e[12..] == f.contents
  {
    FrameParts(f);
    EncodedHeader(f.header);
    assert EncodeFrame(f)[..12] == FireHeaderBytes(f.header);
  }

  lemma EncodedHeader(h: FrameHeader)
    ensures var e := FireHeaderBytes(h);
            && |e| == 12
            && 256 * (e[0] as int) + e[1] as int == h.length % 65536
            && 256 * (e[2] as int) + e[3] as int == h.component
            && 256 * (e[4] as int) + e[5] as int == h.command
            && 256 * (e[6] as int) + e[7] as int == h.error
            && e[8] == (match h.ty case Request => 0 case Response => 16 case Notify => 32 case Error => 48)
            && e[9] == 16 * (h.options % 16)
            && 256 * (e[10] as int) + e[11] as int == h.seqNo
  {
    hide Truncate;
    TruncateWraps(h.length);
    U16Rebuilt(Truncate(h.length));
    U16Rebuilt(h.component);
    U16Rebuilt(h.command);
    U16Rebuilt(h.error);
    U16Rebuilt(h.seqNo);
  }

  // ---- Responses ----

  /** A response keeps the component, command and sequence number of what it answers. */
  function ResponseRaw(header: FrameHeader, contents: seq<byte>): Frame {
    Frame(FrameHeader(|contents|, header.component, header.command, 0, Response, 0, header.seqNo), contents)
  }

  function ResponseEmpty(header: FrameHeader): Frame {
    ResponseRaw(header, [])
  }

  class FireCodec {
    var currentFrame: Option<FrameHeader>

    constructor ()
      ensures currentFrame == None
    {
      currentFrame := None;
    }

    method Decode(src: BytesMut) returns (r: Option<Frame>)
      modifies this, src
      ensures Sane(FireFormat())
      ensures (r, Decoder(currentFrame, src.data)) ==
              Framing.Decode(FireFormat(), Decoder(old(currentFrame), old(src.data)))
    {
      var current := currentFrame;
      if current.None? {
        if |src.data| < MIN_HEADER_SIZE {
          return None;
        }
        ghost var before := src.data;
        var length := src.GetU16();
        var component := src.GetU16();
        var command := src.GetU16();
        var error := src.GetU16();
        var ty := src.GetU8();
        var options := src.GetU8();
        var seqNo := src.GetU16();
        current := Some(FrameHeader(length, component, command, error,
                                    FrameTypeFrom(HighNibble(ty)), HighNibble(options), seqNo));
        assert current.value == ParseFireHeader(before[..12]) && src.data == before[12..];
        currentFrame := current;
      }
      if |src.data| < current.value.length {
        return None;
      }
      currentFrame := None;
      var buffer := src.SplitTo(current.value.length);
      r := Some(Frame(current.value, buffer));
    }

    method Encode(item: Frame, dst: BytesMut)
      modifies dst
      ensures dst.data == old(dst.data) + EncodeFrame(item)
    {
      var header := item.header;
      dst.PutU16(Truncate(header.length));
      dst.PutU16(header.component);
      dst.PutU16(header.command);
      dst.PutU16(header.error);
      dst.PutU8(Raised(FrameTypeCode(header.ty)));
      dst.PutU8(Raised(header.options));
      dst.PutU16(header.seqNo);
      dst.Extend(item.contents);
    }
  }
}
