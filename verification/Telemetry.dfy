/**
 Telemetry messages from the game: length-framed events of `key=value` lines, one of whose
 values is encrypted. Bytes are bit vectors here, for the sake of the cipher.
 */
module Telemetry {
  import opened Wrappers

  type octet = bv8

  const NEWLINE: octet := 10
  const EQUALS: octet := 61
  const DASH: octet := 45
  const HEADER_SIZE: nat := 12
  const TLM3: seq<octet> := [84, 76, 77, 51]
  const TLM3_KEY: seq<octet> :=
    [84, 104, 101, 32, 116, 114, 117, 116, 104, 32, 105, 115, 32, 98, 97, 99, 107, 32, 105, 110, 32, 115, 116,
     121, 108, 101, 46]

  // ---- Splitting ----

  /** `split`: the parts between separators, at least one. */
  function Split(s: seq<octet>, sep: octet): (parts: seq<seq<octet>>)
    ensures parts != []
  {
    if s == [] then [[]]
    else
      var rest := Split(s[1..], sep);
      if s[0] == sep then [[]] + rest else [[s[0]] + rest[0]] + rest[1..]
  }

  /** `splitn(2, ..)` when it gives two parts: what is before and after the first separator. */
  function SplitOnce(s: seq<octet>, sep: octet): Option<(seq<octet>, seq<octet>)> {
    if s == [] then None
    else if s[0] == sep then Some(([], s[1..]))
    else match SplitOnce(s[1..], sep)
      case None => None
      case Some((before, after)) => Some(([s[0]] + before, after))
  }

  function Join(parts: seq<seq<octet>>, sep: octet): seq<octet> {
    if parts == [] then []
    else if |parts| == 1 then parts[0]
    else parts[0] + [sep] + Join(parts[1..], sep)
  }

  lemma {:induction false} JoinOfSplit(s: seq<octet>, sep: octet)
    ensures Join(Split(s, sep), sep) == s
    ensures forall part | part in Split(s, sep) :: sep !in part
  {
    if s != [] {
      JoinOfSplit(s[1..], sep);
      var rest, parts := Split(s[1..], sep), Split(s, sep);
      if s[0] == sep {
        assert parts[1..] == rest;
        assert [] + [sep] + s[1..] == s;
      } else {
        assert parts[1..] == rest[1..];
        if |rest| > 1 {
          assert [s[0]] + rest[0] + [sep] + Join(rest[1..], sep) == [s[0]] + (rest[0] + [sep] + Join(rest[1..], sep));
        }
        assert Join(parts, sep) == [s[0]] + s[1..] == s;
        forall part | part in parts ensures sep !in part {
          assert part == parts[0] || part in rest[1..];
          assert rest[0] in rest;
        }
      }
    }
  }

  /** Splitting what was joined gives the parts back, if none contains the separator. */
  lemma {:induction false} SplitOfJoin(parts: seq<seq<octet>>, sep: octet)
    requires parts != [] && forall part | part in parts :: sep !in part
    ensures Split(Join(parts, sep), sep) == parts
    decreases |parts|, |parts[0]|
  {
    var s := Join(parts, sep);
    if |parts| == 1 {
      SplitWithout(parts[0], sep);
    } else if parts[0] == [] {
      assert s == [sep] + Join(parts[1..], sep);
      assert s[1..] == Join(parts[1..], sep);
      SplitOfJoin(parts[1..], sep);
      assert [[]] + parts[1..] == parts;
    } else {
      var shorter := [parts[0][1..]] + parts[1..];
      forall part | part in shorter ensures sep !in part {
        assert parts[0] in parts;
        assert part == shorter[0] || part in parts[1..];
      }
      assert shorter[1..] == parts[1..];
      assert s[1..] == Join(shorter, sep);
      assert s[0] == parts[0][0] && parts[0] in parts;
      SplitOfJoin(shorter, sep);
      assert [s[0]] + shorter[0] == parts[0] && [parts[0]] + parts[1..] == parts;
    }
  }

  lemma {:induction false} SplitWithout(s: seq<octet>, sep: octet)
    requires sep !in s
    ensures Split(s, sep) == [s]
  {
    if s != [] {
      assert s[0] != sep;
      SplitWithout(s[1..], sep);
      assert [s[0]] + s[1..] == s;
    }
  }

  /** The first separator is where the split happens; without one there is none. */
  lemma {:induction false} SplitOnceLaw(s: seq<octet>, sep: octet)
    ensures SplitOnce(s, sep).None? <==> sep !in s
    ensures SplitOnce(s, sep).Some? ==>
              var (before, after) := SplitOnce(s, sep).value; s == before + [sep] + after && sep !in before
  {
    if s != [] && s[0] != sep {
      SplitOnceLaw(s[1..], sep);
      assert s == [s[0]] + s[1..];
    }
  }

  lemma {:induction false} SplitOnceOf(before: seq<octet>, sep: octet, after: seq<octet>)
    requires sep !in before
    ensures SplitOnce(before + [sep] + after, sep) == Some((before, after))
  {
    var s := before + [sep] + after;
    if before == [] {
      assert s[1..] == after;
    } else {
      SplitOnceOf(before[1..], sep, after);
      assert s[0] == before[0] && s[1..] == before[1..] + [sep] + after;
      assert [before[0]] + before[1..] == before;
    }
  }

  // ---- Lines and pairs ----

  /** The pairs of the lines that have an equals sign. */
  function PairsOf(lines: seq<seq<octet>>): seq<(seq<octet>, seq<octet>)> {
    if lines == [] then []
    else
      var rest := PairsOf(lines[1..]);
      match SplitOnce(lines[0], EQUALS)
      case None => rest
      case Some(pair) => [pair] + rest
  }

  function Pairs(buffer: seq<octet>): seq<(seq<octet>, seq<octet>)> {
    PairsOf(Split(buffer, NEWLINE))
  }

  function Lines(pairs: seq<(seq<octet>, seq<octet>)>): seq<seq<octet>> {
    if pairs == [] then [] else [pairs[0].0 + [EQUALS] + pairs[0].1] + Lines(pairs[1..])
  }

  /** No key with an equals sign, and no newline anywhere. */
  predicate Clean(pair: (seq<octet>, seq<octet>)) {
    61 !in pair.0 && 10 !in pair.0 && 10 !in pair.1
  }

  lemma {:induction false} PairsOfLines(pairs: seq<(seq<octet>, seq<octet>)>)
    requires forall pair | pair in pairs :: Clean(pair)
    ensures PairsOf(Lines(pairs)) == pairs
    ensures forall line | line in Lines(pairs) :: NEWLINE !in line
  {
    if pairs != [] {
      assert pairs[0] in pairs;
      PairsOfLines(pairs[1..]);
      SplitOnceOf(pairs[0].0, EQUALS, pairs[0].1);
      assert Lines(pairs)[1..] == Lines(pairs[1..]);
    }
  }

  lemma {:induction false} PairsAreClean(lines: seq<seq<octet>>)
    requires forall line | line in lines :: NEWLINE !in line
    ensures forall pair | pair in PairsOf(lines) :: Clean(pair)
  {
    if lines != [] {
      PairsAreClean(lines[1..]);
      SplitOnceLaw(lines[0], EQUALS);
      if SplitOnce(lines[0], EQUALS).Some? {
        var (key, value) := SplitOnce(lines[0], EQUALS).value;
        assert lines[0] in lines;
        assert forall x | x in key || x in value :: x in lines[0];
      }
    }
  }

  /** Newline-joined `key=value` lines parse to exactly those pairs if and only if no key has
      an equals sign and nothing has a newline. */
  lemma ParseOfJoinedIff(pairs: seq<(seq<octet>, seq<octet>)>)
    ensures Pairs(Join(Lines(pairs), 10)) == pairs <==> forall pair | pair in pairs :: Clean(pair)
  {
    if forall pair | pair in pairs :: Clean(pair) {
      PairsOfLines(pairs);
      if pairs == [] {
        assert Split([], NEWLINE)[1..] == [];
      } else {
        SplitOfJoin(Lines(pairs), NEWLINE);
      }
    } else {
      JoinOfSplit(Join(Lines(pairs), NEWLINE), NEWLINE);
      PairsAreClean(Split(Join(Lines(pairs), NEWLINE), NEWLINE));
    }
  }

  /** Whatever lines are joined, parsing takes each on its own and drops those without an
      equals sign. */
  lemma ParseOfLines(lines: seq<seq<octet>>)
    requires lines != [] && forall line: seq<octet> | line in lines :: 10 !in line
    ensures Pairs(Join(lines, 10)) == PairsOf(lines)
    ensures forall pair | pair in Pairs(Join(lines, 10)) :: Clean(pair)
  {
    SplitOfJoin(lines, NEWLINE);
    PairsAreClean(lines);
  }

  lemma {:induction false} PairsOfConcat(a: seq<seq<octet>>, b: seq<seq<octet>>)
    ensures PairsOf(a + b) == PairsOf(a) + PairsOf(b)
  {
    if a == [] {
      assert a + b == b;
    } else {
      PairsOfConcat(a[1..], b);
      assert (a + b)[0] == a[0] && (a + b)[1..] == a[1..] + b;
    }
  }

  /** A line gives its key and value if it has an equals sign, the first of which ends the key;
      otherwise it gives nothing. The lines around it make no difference. */
  lemma PairsOfLine(before: seq<seq<octet>>, line: seq<octet>, after: seq<seq<octet>>)
    ensures 61 !in line ==> PairsOf(before + [line] + after) == PairsOf(before) + PairsOf(after)
    ensures forall key: seq<octet>, value: seq<octet> | 61 !in key && line == key + [61] + value ::
              PairsOf(before + [line] + after) == PairsOf(before) + [(key, value)] + PairsOf(after)
  {
    PairsOfConcat(before + [line], after);
    PairsOfConcat(before, [line]);
    SplitOnceLaw(line, EQUALS);
    assert PairsOf([line]) == match SplitOnce(line, EQUALS) case None => [] case Some(pair) => [pair];
    assert PairsOf(before) + [] == PairsOf(before);
    forall key: seq<octet>, value: seq<octet> | 61 !in key && line == key + [61] + value
      ensures PairsOf(before + [line] + after) == PairsOf(before) + [(key, value)] + PairsOf(after)
    {
      SplitOnceOf(key, EQUALS, value);
    }
  }

  // ---- The cipher ----

  /** The input zipped with the key repeated for ever, starting at `at`. */
  function Cipher(input: seq<octet>, key: seq<octet>, at: nat): seq<octet> {
    if input == [] || key == [] then []
    else [(input[0] ^ key[at % |key|]) % 0x80] + Cipher(input[1..], key, at + 1)
  }

  function XorCipher(input: seq<octet>, key: seq<octet>): seq<octet> {
    Cipher(input, key, 0)
  }

  lemma XorTwice(data: octet, key: octet)
    ensures (((data ^ key) % 0x80) ^ key) % 0x80 == data % 0x80
    ensures (data ^ key) % 0x80 < 0x80
    ensures data % 0x80 == data <==> data < 0x80
  {
  }

  lemma {:induction false} CipherLaw(input: seq<octet>, key: seq<octet>, at: nat)
    requires key != []
    ensures var once := Cipher(input, key, at);
            && |once| == |input|
            && (forall k | 0 <= k < |once| :: once[k] < 0x80)
            && var twice := Cipher(once, key, at);
               |twice| == |input| && forall k | 0 <= k < |input| :: twice[k] == input[k] % 0x80
  {
    if input != [] {
      CipherLaw(input[1..], key, at + 1);
      XorTwice(input[0], key[at % |key|]);
      assert Cipher(input, key, at)[1..] == Cipher(input[1..], key, at + 1);
    }
  }

  lemma {:induction false} CipherFrom(input: seq<octet>, key: seq<octet>, at: nat)
    requires key != []
    ensures var once := Cipher(input, key, at);
            |once| == |input| && forall k | 0 <= k < |input| :: once[k] == (input[k] ^ key[(at + k) % |key|]) % 0x80
  {
    if input != [] {
      CipherFrom(input[1..], key, at + 1);
      var once, rest := Cipher(input, key, at), Cipher(input[1..], key, at + 1);
      forall k | 0 <= k < |input| ensures once[k] == (input[k] ^ key[(at + k) % |key|]) % 0x80 {
        if k > 0 {
          assert once[k] == rest[k - 1] && input[k] == input[1..][k - 1];
          assert at + 1 + (k - 1) == at + k;
        }
      }
    }
  }

  /** Every byte is combined with the key's, which repeats, and cut to seven bits. */
  lemma CipherAt(input: seq<octet>, key: seq<octet>)
    requires key != []
    ensures |XorCipher(input, key)| == |input|
    ensures forall k | 0 <= k < |input| :: XorCipher(input, key)[k] == (input[k] ^ key[k % |key|]) % 128
  {
    CipherFrom(input, key, 0);
  }

  /** The output is ASCII, hence valid UTF-8 (section 3 of RFC 3629); and applying the cipher
      twice gives the input back exactly if the input was ASCII. */
  lemma CipherInvolutiveIff(input: seq<octet>, key: seq<octet>)
    requires key != []
    ensures |XorCipher(input, key)| == |input|
    ensures forall b | b in XorCipher(input, key) :: b < 0x80
    ensures XorCipher(XorCipher(input, key), key) == input <==> forall k | 0 <= k < |input| :: input[k] < 0x80
  {
    CipherLaw(input, key, 0);
    forall k | 0 <= k < |input| ensures input[k] % 0x80 == input[k] <==> input[k] < 0x80 {
      XorTwice(input[k], 0);
    }
  }

  // ---- Values ----

  /** A value as text: the bytes themselves, or their debug form. */
  datatype Text = Plain(bytes: seq<octet>) | Debug(bytes: seq<octet>)

  function DecodeTlm3(input: seq<octet>): Text {
    match SplitOnce(input, DASH)
    case None => Debug(input)
    case Some((_, line)) => Plain(XorCipher(line, TLM3_KEY))
  }

  function Value(pair: (seq<octet>, seq<octet>)): (seq<octet>, Text) {
    (pair.0, if pair.0 == TLM3 then DecodeTlm3(pair.1) else Debug(pair.1))
  }

  function Values(pairs: seq<(seq<octet>, seq<octet>)>): seq<(seq<octet>, Text)> {
    if pairs == [] then [] else [Value(pairs[0])] + Values(pairs[1..])
  }

  /** Text taken as it is really is text: it is ASCII. */
  lemma {:induction false} PlainIsAscii(pairs: seq<(seq<octet>, seq<octet>)>)
    ensures |Values(pairs)| == |pairs|
    ensures forall k | 0 <= k < |pairs| ::
              && Values(pairs)[k].0 == pairs[k].0
              && (Values(pairs)[k].1.Plain? ==>
                    pairs[k].0 == TLM3 && forall b | b in Values(pairs)[k].1.bytes :: b < 0x80)
  {
    if pairs != [] {
      PlainIsAscii(pairs[1..]);
      SplitOnceLaw(pairs[0].1, DASH);
      if SplitOnce(pairs[0].1, DASH).Some? {
        CipherInvolutiveIff(SplitOnce(pairs[0].1, DASH).value.1, TLM3_KEY);
      }
    }
  }

  // ---- What a line comes to ----

  lemma {:induction false} ValuesAt(pairs: seq<(seq<octet>, seq<octet>)>)
    ensures |Values(pairs)| == |pairs|
    ensures forall k | 0 <= k < |pairs| :: Values(pairs)[k] == Value(pairs[k])
  {
    if pairs != [] {
      ValuesAt(pairs[1..]);
    }
  }

  lemma OneLine(key: seq<octet>, value: seq<octet>)
    requires 61 !in key && 10 !in key && 10 !in value
    ensures Pairs(key + [61] + value) == [(key, value)]
  {
    var line := key + [61] + value;
    SplitWithout(line, NEWLINE);
    PairsOfLine([], line, []);
    assert [] + [line] + [] == [line];
    assert PairsOf([]) + [(key, value)] + PairsOf([]) == [(key, value)];
  }

  /** A line `TLM3=p-q`, with no dash in `p`: the value is `q` decrypted with the key, byte by
      byte. */
  lemma Tlm3Value(p: seq<octet>, q: seq<octet>)
    requires 45 !in p && 10 !in p && 10 !in q
    ensures var values := Values(Pairs([84, 76, 77, 51, 61] + p + [45] + q));
            // "The truth is back in style."
            var key: seq<octet> := [84, 104, 101, 32, 116, 114, 117, 116, 104, 32, 105, 115, 32, 98, 97, 99, 107,
                                    32, 105, 110, 32, 115, 116, 121, 108, 101, 46];
            && |values| == 1 && values[0].0 == [84, 76, 77, 51] && values[0].1.Plain?
            && |values[0].1.bytes| == |q|
            && forall k | 0 <= k < |q| :: values[0].1.bytes[k] == (q[k] ^ key[k % 27]) % 128
  {
    var value := p + [45] + q;
    assert [84, 76, 77, 51, 61] + p + [45] + q == [84, 76, 77, 51] + [61] + value;
    OneLine([84, 76, 77, 51], value);
    SplitOnceOf(p, DASH, q);
    CipherAt(q, TLM3_KEY);
    ValuesAt([([84, 76, 77, 51], value)]);
  }

  /** A line `TLM3=v` without a dash, or with any other key, gives the debug form of its value. */
  lemma DebugValue(key: seq<octet>, value: seq<octet>)
    requires 61 !in key && 10 !in key && 10 !in value
    requires key != [84, 76, 77, 51] || 45 !in value
    ensures Values(Pairs(key + [61] + value)) == [(key, Debug(value))]
  {
    OneLine(key, value);
    SplitOnceLaw(value, DASH);
    ValuesAt([(key, value)]);
  }

  // ---- Events ----

  /** An event on the wire. */
  datatype RawEvent = RawEvent(header: seq<octet>, body: seq<octet>)

  function LengthField(header: seq<octet>): nat
    requires |header| == HEADER_SIZE
  {
    (header[10] as nat) * 0x100 + header[11] as nat
  }

  /** `length - 12` on 16 bits: below twelve it panics when overflow is checked, and wraps
      when it is not. */
  function BodyLength(length: nat, checked: bool): Option<nat>
    requires length < 0x1_0000
  {
    if length >= 12 then Some(length - 12) else if checked then None else Some(length + 0x1_0000 - 12)
  }

  datatype ReadResult = Event(raw: RawEvent, rest: seq<octet>) | EndOfStream | Overflow

  function NextEvent(stream: seq<octet>, checked: bool): ReadResult {
    if |stream| < HEADER_SIZE then EndOfStream
    else match BodyLength(LengthField(stream[..HEADER_SIZE]), checked)
      case None => Overflow
      case Some(n) =>
        if |stream| - HEADER_SIZE < n then EndOfStream
        else Event(RawEvent(stream[..HEADER_SIZE], stream[HEADER_SIZE..HEADER_SIZE + n]), stream[HEADER_SIZE + n..])
  }

  /** Exactly what reading an event gives. The header's last two bytes count it and the body;
      below twelve that overflows, or, unchecked, wraps around. */
  lemma NextEventIs(stream: seq<octet>, checked: bool)
    requires |stream| >= 12
    ensures var length := 256 * (stream[10] as int) + stream[11] as int;
            var n := if length >= 12 then length - 12 else length + 65524;
            NextEvent(stream, checked) ==
            if length < 12 && checked then Overflow
            else if |stream| < 12 + n then EndOfStream
            else Event(RawEvent(stream[..12], stream[12..12 + n]), stream[12 + n..])
  {
    assert stream[..12][10] == stream[10] && stream[..12][11] == stream[11];
  }

  /** All events until one cannot be read, and the bytes from there on. */
  function Events(stream: seq<octet>, checked: bool): (seq<RawEvent>, seq<octet>)
    decreases |stream|
  {
    match NextEvent(stream, checked)
    case Event(raw, rest) => var (more, end) := Events(rest, checked); ([raw] + more, end)
    case _ => ([], stream)
  }

  function Wire(events: seq<RawEvent>): seq<octet> {
    if events == [] then [] else events[0].header + events[0].body + Wire(events[1..])
  }

  lemma EventsStep(stream: seq<octet>, checked: bool)
    ensures var next := NextEvent(stream, checked);
            var (events, end) := Events(stream, checked);
            if next.Event? then
              && |next.rest| < |stream|
              && stream == next.raw.header + next.raw.body + next.rest
              && events == [next.raw] + Events(next.rest, checked).0
              && end == Events(next.rest, checked).1
            else events == [] && end == stream
  {
  }

  /** Events tile the stream: nothing between them is skipped or read twice. */
  lemma {:induction false} EventsTile(stream: seq<octet>, checked: bool)
    ensures var (events, end) := Events(stream, checked);
            stream == Wire(events) + end && !NextEvent(end, checked).Event?
    decreases |stream|
  {
    EventsStep(stream, checked);
    var next := NextEvent(stream, checked);
    if next.Event? {
      EventsTile(next.rest, checked);
      TileStep(next.raw, Events(next.rest, checked).0, Events(next.rest, checked).1);
    }
  }

  lemma TileStep(raw: RawEvent, more: seq<RawEvent>, end: seq<octet>)
    ensures Wire([raw] + more) + end == raw.header + raw.body + (Wire(more) + end)
  {
    assert ([raw] + more)[1..] == more;
  }

  /** A well-formed event: its length field counts its header and its body. */
  predicate WellFormed(e: RawEvent) {
    |e.header| == 12 && 256 * (e.header[10] as int) + e.header[11] as int == 12 + |e.body|
  }

  /** Consecutive well-formed events are read back exactly, whatever incomplete bytes follow. */
  lemma {:induction false} EventsOfWire(events: seq<RawEvent>, tail: seq<octet>, checked: bool)
    requires forall e | e in events :: WellFormed(e)
    requires !NextEvent(tail, checked).Event?
    ensures Events(Wire(events) + tail, checked) == (events, tail)
  {
    if events == [] {
      assert [] + tail == tail;
    } else {
      var e, later := events[0], Wire(events[1..]) + tail;
      var stream := Wire(events) + tail;
      assert e in events;
      assert stream == e.header + e.body + later;
      assert stream[..HEADER_SIZE] == e.header;
      assert stream[HEADER_SIZE..HEADER_SIZE + |e.body|] == e.body;
      assert stream[HEADER_SIZE + |e.body|..] == later;
      assert NextEvent(stream, checked) == Event(e, later);
      EventsOfWire(events[1..], tail, checked);
      assert [e] + events[1..] == events;
    }
  }

  /** Exactly when reading an event panics. */
  lemma OverflowIff(stream: seq<octet>, checked: bool)
    ensures NextEvent(stream, checked).Overflow? <==>
            checked && |stream| >= HEADER_SIZE && stream[10] == 0 && stream[11] < 12
  {
    if |stream| >= HEADER_SIZE {
      assert stream[..HEADER_SIZE][10] == stream[10] && stream[..HEADER_SIZE][11] == stream[11];
    }
  }

  class TcpStream {
    var data: seq<octet>

    constructor (data: seq<octet>)
      ensures this.data == data
    {
      this.data := data;
    }

    /** `read_exact`: without enough bytes it fails, and the rest of the stream is gone. */
    method ReadExact(n: nat) returns (bytes: Option<seq<octet>>)
      modifies this
      ensures n <= |old(data)| ==> bytes == Some(old(data)[..n]) && data == old(data)[n..]
      ensures n > |old(data)| ==> bytes == None && data == []
    {
      if n > |data| {
        data := [];
        return None;
      }
      bytes := Some(data[..n]);
      data := data[n..];
    }
  }

  /** The values of an event's body. */
  function EventValues(raw: RawEvent): seq<(seq<octet>, Text)> {
    Values(Pairs(raw.body))
  }

  method ReadTelemetryEvent(stream: TcpStream, checked: bool) returns (event: Call<Option<seq<(seq<octet>, Text)>>>)
    modifies stream
    ensures match NextEvent(old(stream.data), checked)
            case Event(raw, rest) => event == Ready(Some(EventValues(raw))) && stream.data == rest
            case EndOfStream => event == Ready(None)
            case Overflow => event.Panicked?
  {
    ghost var before := stream.data;
    var header := stream.ReadExact(HEADER_SIZE);
    if header.None? {
      return Ready(None);
    }
    var length := BodyLength(LengthField(header.value), checked);
    if length.None? {
      return Panicked;
    }
    var buffer := stream.ReadExact(length.value);
    if buffer.None? {
      return Ready(None);
    }
    assert before[HEADER_SIZE..][..length.value] == before[HEADER_SIZE..HEADER_SIZE + length.value];
    assert before[HEADER_SIZE..][length.value..] == before[HEADER_SIZE + length.value..];
    event := Ready(Some(Values(Pairs(buffer.value))));
  }

  /** The values of a list of events. */
  function AllValues(events: seq<RawEvent>): seq<seq<(seq<octet>, Text)>> {
    if events == [] then [] else AllValues(events[..|events| - 1]) + [EventValues(events[|events| - 1])]
  }

  /** The k-th publication is that of the k-th event. */
  lemma {:induction false} PublishedAt(events: seq<RawEvent>)
    ensures |AllValues(events)| == |events|
    ensures forall k | 0 <= k < |events| :: AllValues(events)[k] == Values(Pairs(events[k].body))
  {
    if events != [] {
      PublishedAt(events[..|events| - 1]);
    }
  }

  /** What is published so far, and what the stream still holds. */
  ghost predicate Publishing(published: seq<seq<(seq<octet>, Text)>>, done: seq<RawEvent>,
                             all: seq<RawEvent>, left: seq<RawEvent>)
  {
    published == AllValues(done) && all == done + left
  }

  lemma PublishStep(published: seq<seq<(seq<octet>, Text)>>, done: seq<RawEvent>, all: seq<RawEvent>,
                    next: RawEvent, left: seq<RawEvent>)
    requires Publishing(published, done, all, [next] + left)
    ensures Publishing(published + [EventValues(next)], done + [next], all, left)
  {
    assert (done + [next])[..|done|] == done;
    assert done + ([next] + left) == done + [next] + left;
  }

  /** Handles one client: publishes the values of every event on the stream, in order. */
  method Handle(stream: TcpStream, checked: bool) returns (published: seq<seq<(seq<octet>, Text)>>)
    modifies stream
    ensures published == AllValues(Events(old(stream.data), checked).0)
  {
    published := [];
    ghost var done: seq<RawEvent> := [];
    ghost var all := Events(stream.data, checked).0;
    assert [] + all == all;
    while true
      invariant Publishing(published, done, all, Events(stream.data, checked).0)
      decreases |stream.data|
    {
      ghost var next := NextEvent(stream.data, checked);
      EventsStep(stream.data, checked);
      var event := ReadTelemetryEvent(stream, checked);
      if event.Panicked? || event.value.None? {
        assert done + [] == done;
        return;
      }
      PublishStep(published, done, all, next.raw, Events(next.rest, checked).0);
      published, done := published + [event.value.value], done + [next.raw];
    }
  }
}
