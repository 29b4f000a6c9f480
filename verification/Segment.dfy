/** The segment writer, and the law that the stream reader undoes it. */
module Segment {
  import opened Wire
  import opened Wrappers
  import opened MessageReader
  import opened ReaderTheorems

  function Payload(ms: seq<Message>): seq<byte> {
    if ms == [] then [] else ms[0].bytes + Payload(ms[1..])
  }

  /** Timestamp, protocol and announced length; the length is cut to 16 bits. A peer marks its replies in the protocol's high bit. */
  function HeaderBytes(timestamp: nat, protocol: nat, reply: bool, payload: seq<byte>): seq<byte> {
    BigEndian(timestamp, 4) + U16(if reply then protocol + 0x8000 else protocol) + U16(|payload| % 0x1_0000)
  }

  class Segment {
    var timestamp: nat
    var protocol: nat
    var payloadLength: nat
    var payload: seq<byte>
    var messages: seq<Message>

    constructor (timestamp: nat)
      ensures this.timestamp == timestamp && protocol == 0 && payloadLength == 0 && payload == [] && messages == []
    {
      this.timestamp, protocol, payloadLength, payload, messages := timestamp, 0, 0, [], [];
    }

    /** A segment carries messages of one protocol, that of its first message. */
    method AddMessage(m: Message) returns (ok: bool)
      modifies this`protocol, this`messages
      ensures ok <==> (m.protocol, m.sub) in WRITABLE_TYPES && (old(messages) != [] ==> m.protocol == old(protocol))
      ensures ok ==> messages == old(messages) + [m] && protocol == m.protocol
      ensures !ok ==> messages == old(messages) && protocol == old(protocol)
      ensures OneProtocol(old(messages), old(protocol)) ==> OneProtocol(messages, protocol)
    {
      WritableTypes(m);
      if !Writable(m) || (messages != [] && m.protocol != protocol) {
        return false;
      }
      protocol := m.protocol;
      messages := messages + [m];
      ok := true;
    }

    /** Appends the messages to the payload, so marshalling twice repeats them, and writes header and payload. */
    method MarshalDataItem() returns (out: seq<byte>)
      modifies this`payload, this`payloadLength
      ensures payload == old(payload) + Payload(messages) && payloadLength == |payload| % 0x1_0000
      ensures out == HeaderBytes(timestamp, protocol, false, payload) + payload
    {
      for i := 0 to |messages|
        invariant payload == old(payload) + Payload(messages[..i])
      {
        PayloadSnoc(messages[..i], messages[i]);
        assert messages[..i + 1] == messages[..i] + [messages[i]];
        payload := payload + messages[i].bytes;
      }
      assert messages[..|messages|] == messages;
      payloadLength := |payload| % 0x1_0000;
      out := BigEndian(timestamp, 4) + U16(protocol) + U16(payloadLength) + payload;
    }
  }

  predicate OneProtocol(ms: seq<Message>, protocol: nat) {
    forall i :: 0 <= i < |ms| ==> ms[i].protocol == protocol
  }

  lemma {:induction false} PayloadSnoc(ms: seq<Message>, m: Message)
    ensures Payload(ms + [m]) == Payload(ms) + m.bytes
  {
    if ms == [] {
      assert ms + [m] == [m] && [m][1..] == [];
    } else {
      assert (ms + [m])[1..] == ms[1..] + [m];
      PayloadSnoc(ms[1..], m);
    }
  }

  // ------------------------------------------------------ reading what was written

  /** What a segment holds when it is marshalled, here or by the peer as a reply. */
  datatype Content = Content(timestamp: nat, protocol: nat, reply: bool, messages: seq<Message>)

  function Marshalled(s: Content): seq<byte> {
    HeaderBytes(s.timestamp, s.protocol, s.reply, Payload(s.messages)) + Payload(s.messages)
  }

  /** The encoder wrote bytes that the decoder takes for this message. */
  predicate WellEncoded(c: Codec, m: Message) {
    c.item(m.bytes) == Whole(Some(m.sub), |m.bytes|) && m.sub < 0x1_0000 && Known(m.protocol, m.sub) && c.accepts(m)
  }

  /** One protocol, well-encoded messages, no StartBatch, a payload whose length fits in 16 bits. */
  predicate Readable(c: Codec, s: Content) {
    AllWellEncoded(c, s.protocol, s.messages) && s.protocol <= 10 && |Payload(s.messages)| < 0x1_0000
  }

  /** A well-encoded message is the first one decoded, whatever follows it. */
  lemma FirstIsDecoded(c: Codec, m: Message, rest: seq<byte>)
    requires SelfDelimiting(c.item) && WellEncoded(c, m)
    ensures |m.bytes| >= 1 && NextMessage(c, m.protocol, m.bytes + rest) == One(m)
  {
    assert StableAt(c.item, m.bytes, rest);
    assert (m.bytes + rest)[..|m.bytes|] == m.bytes;
  }

  lemma OneInFront(c: Codec, protocol: nat, m: Message, rest: seq<byte>)
    requires SelfDelimiting(c.item) && |m.bytes| >= 1 && !m.IsStartBatch()
    requires NextMessage(c, protocol, m.bytes + rest) == One(m)
    ensures NextMessages(c, protocol, m.bytes + rest) == Prefixed(m, NextMessages(c, protocol, rest))
  {
    assert (m.bytes + rest)[|m.bytes|..] == rest;
  }

  predicate AllWellEncoded(c: Codec, protocol: nat, ms: seq<Message>) {
    forall i :: 0 <= i < |ms| ==> ms[i].protocol == protocol && WellEncoded(c, ms[i]) && !ms[i].IsStartBatch()
  }

  /** Well-encoded messages are decoded in order, and then what follows them. */
  lemma {:induction false} PayloadInFront(c: Codec, protocol: nat, ms: seq<Message>, rest: seq<byte>)
    requires SelfDelimiting(c.item) && AllWellEncoded(c, protocol, ms)
    ensures NextMessages(c, protocol, Payload(ms) + rest) == MessageReader.After(ms, NextMessages(c, protocol, rest))
  {
    if ms == [] {
      assert [] + rest == rest;
      AfterNothing(NextMessages(c, protocol, rest));
    } else {
      var later := Payload(ms[1..]) + rest;
      PayloadInFront(c, protocol, ms[1..], rest);
      BytesAssociate(ms[0].bytes, Payload(ms[1..]), rest);
      FirstIsDecoded(c, ms[0], later);
      OneInFront(c, protocol, ms[0], later);
      AfterTwice(ms[0], ms[1..], NextMessages(c, protocol, rest));
      assert [ms[0]] + ms[1..] == ms;
    }
  }

  /** The payload decodes to the messages it was built from. */
  lemma PayloadParses(c: Codec, protocol: nat, ms: seq<Message>)
    requires SelfDelimiting(c.item) && AllWellEncoded(c, protocol, ms)
    ensures NextMessages(c, protocol, Payload(ms)) == Parsed(ms, [])
  {
    PayloadInFront(c, protocol, ms, []);
    assert Payload(ms) + [] == Payload(ms) && ms + [] == ms;
  }

  lemma ProtocolBytes(protocol: nat, reply: bool)
    requires protocol <= 10
    ensures U16(if reply then protocol + 0x8000 else protocol) == [if reply then 0x80 else 0, protocol]
  {
  }

  lemma U16RoundTrip(n: nat)
    requires n < 0x1_0000
    ensures U16(n)[0] as int * 256 + U16(n)[1] as int == n
  {
    assert n / 256 < 256;
  }

  lemma HeaderFields(t: seq<byte>, p: seq<byte>, l: seq<byte>, rest: seq<byte>)
    requires |t| == 4 && |p| == 2 && |l| == 2 && p[0] in {0x00, 0x80} && p[1] <= 10
    ensures |t + p + l| == HEADER_SIZE
    ensures ReadHeader(t + p + l + rest) == Some(Header(t, p[1], l[0] as int * 256 + l[1] as int))
  {
    var d := t + p + l + rest;
    assert d[..4] == t && d[4] == p[0] && d[5] == p[1] && d[6] == l[0] && d[7] == l[1];
  }

  /** The header announces the protocol, marked as a reply or not, and the payload length, exactly when that fits. */
  lemma HeaderAnnounces(timestamp: nat, protocol: nat, reply: bool, payload: seq<byte>, rest: seq<byte>)
    requires protocol <= 10
    ensures |HeaderBytes(timestamp, protocol, reply, payload)| == HEADER_SIZE
    ensures var h := ReadHeader(HeaderBytes(timestamp, protocol, reply, payload) + rest);
            && h.Some? && h.value.protocol == protocol && h.value.timestamp == BigEndian(timestamp, 4)
            && (h.value.length == |payload| <==> |payload| < 0x1_0000)
  {
    BigEndianWidth(timestamp, 4);
    ProtocolBytes(protocol, reply);
    U16RoundTrip(|payload| % 0x1_0000);
    HeaderFields(BigEndian(timestamp, 4), U16(if reply then protocol + 0x8000 else protocol), U16(|payload| % 0x1_0000), rest);
  }

  /** One written segment is read whole, unless it is a lone header at the end of the stream. */
  lemma SegmentIsRead(c: Codec, s: Content, rest: seq<byte>)
    requires Sound(c) && Readable(c, s) && Payload(s.messages) + rest != []
    ensures Drive(c, FRESH, Marshalled(s) + rest) == Behind(s.messages, Drive(c, FRESH, rest))
  {
    var payload := Payload(s.messages);
    var header := HeaderBytes(s.timestamp, s.protocol, s.reply, payload);
    HeaderAnnounces(s.timestamp, s.protocol, s.reply, payload, payload + rest);
    BytesAssociate(header, payload, rest);
    SegmentOpens(c, header, payload + rest);
    PayloadIsTaken(c, s, ReadHeader(header + (payload + rest)).value, rest);
  }

  lemma SegmentOpens(c: Codec, header: seq<byte>, body: seq<byte>)
    requires Sound(c) && |header| == HEADER_SIZE && body != [] && ReadHeader(header + body).Some?
    ensures Drive(c, FRESH, header + body) == Fill(c, Opened(FRESH, ReadHeader(header + body).value), body)
  {
    assert FRESH.header + (header + body) == header + body;
    assert (header + body)[HEADER_SIZE..] == body;
  }

  lemma PayloadIsTaken(c: Codec, s: Content, h: Header, rest: seq<byte>)
    requires Sound(c) && Readable(c, s) && Payload(s.messages) + rest != []
    requires h.protocol == s.protocol && h.length == |Payload(s.messages)|
    ensures Fill(c, Opened(FRESH, h), Payload(s.messages) + rest) == Behind(s.messages, Drive(c, FRESH, rest))
  {
    var payload := Payload(s.messages);
    PayloadParses(c, s.protocol, s.messages);
    var full := Opened(FRESH, h).(buffer := payload);
    assert (payload + rest)[..h.length] == payload && (payload + rest)[h.length..] == rest;
    assert [] + payload == payload;
    assert !StartsBatch(s.messages);
    assert Complete(c, full) == Ran(s.messages, FRESH);
  }

  function Stream(segments: seq<Content>): seq<byte> {
    if segments == [] then [] else Marshalled(segments[0]) + Stream(segments[1..])
  }

  function MessagesOf(segments: seq<Content>): seq<Message> {
    if segments == [] then [] else segments[0].messages + MessagesOf(segments[1..])
  }

  /** The bytes still held at the end: the header of a last segment without payload. */
  function HeldAtEnd(segments: seq<Content>): seq<byte> {
    if segments == [] then []
    else var last := segments[|segments| - 1]; if Payload(last.messages) == [] then Marshalled(last) else []
  }

  /**
   Writer and reader undo each other: reading the written segments yields all their messages in order,
   and leaves the reader fresh but for a last header that announced no payload.
   */
  lemma {:induction false} ReaderUndoesWriter(c: Codec, segments: seq<Content>)
    requires Sound(c) && forall i :: 0 <= i < |segments| ==> Readable(c, segments[i])
    ensures Drive(c, FRESH, Stream(segments)) == Ran(MessagesOf(segments), FRESH.(header := HeldAtEnd(segments)))
  {
    if segments != [] {
      ReaderUndoesWriter(c, segments[1..]);
      if Payload(segments[0].messages) + Stream(segments[1..]) != [] {
        SegmentIsRead(c, segments[0], Stream(segments[1..]));
        HeldByLast(segments);
      } else {
        StreamIsEmpty(segments[1..]);
        LoneSegment(c, segments[0]);
        assert segments == [segments[0]];
      }
    }
  }

  lemma HeldByLast(segments: seq<Content>)
    requires segments != [] && Payload(segments[0].messages) + Stream(segments[1..]) != []
    ensures HeldAtEnd(segments) == HeldAtEnd(segments[1..])
  {
    if segments[1..] != [] {
      assert segments[1..][|segments[1..]| - 1] == segments[|segments| - 1];
    }
  }

  lemma OneSegment(s: Content)
    ensures Stream([s]) == Marshalled(s) && MessagesOf([s]) == s.messages
    ensures HeldAtEnd([s]) == if Payload(s.messages) == [] then Marshalled(s) else []
  {
    assert [s][1..] == [];
  }

  lemma EmptySegmentSize(s: Content)
    requires Payload(s.messages) == [] && s.protocol <= 10
    ensures |Marshalled(s)| == HEADER_SIZE
  {
    HeaderAnnounces(s.timestamp, s.protocol, s.reply, [], []);
  }

  lemma LoneSegment(c: Codec, s: Content)
    requires Sound(c) && Readable(c, s) && Payload(s.messages) == []
    ensures Drive(c, FRESH, Stream([s])) == Ran(MessagesOf([s]), FRESH.(header := HeldAtEnd([s])))
  {
    OneSegment(s);
    EmptySegmentSize(s);
    NoBytesNoMessages(c, s);
    LoneHeader(c, Marshalled(s));
  }

  lemma StreamIsEmpty(segments: seq<Content>)
    ensures Stream(segments) == [] <==> segments == []
  {
    if segments != [] {
      var s := segments[0];
      BigEndianWidth(s.timestamp, 4);
    }
  }

  lemma NoBytesNoMessages(c: Codec, s: Content)
    requires SelfDelimiting(c.item) && Readable(c, s)
    ensures Payload(s.messages) == [] <==> s.messages == []
  {
    if s.messages != [] {
      assert WellEncoded(c, s.messages[0]);
      assert |s.messages[0].bytes| >= 1;
    }
  }

  lemma LoneHeader(c: Codec, header: seq<byte>)
    requires Sound(c) && |header| == HEADER_SIZE
    ensures Drive(c, FRESH, header) == Ran([], FRESH.(header := header))
  {
    assert FRESH.header + header == header;
  }

  /**
   The same read by read, however the network cuts the written bytes: exactly when no read overfills
   the header.
   */
  lemma ReaderUndoesWriterInPieces(c: Codec, segments: seq<Content>, cuts: seq<seq<byte>>)
    requires Sound(c) && forall i :: 0 <= i < |segments| ==> Readable(c, segments[i])
    requires Joined(cuts) == Stream(segments)
    ensures ReadAll(c, FRESH, cuts) == Returned(Ran(MessagesOf(segments), FRESH.(header := HeldAtEnd(segments)))) <==>
            ReadsFit(c, FRESH, cuts)
  {
    ReaderUndoesWriter(c, segments);
    GoodStreamInPieces(c, FRESH, cuts);
  }

  // ------------------------------------------------------ what the caller holds

  predicate SameType(m: Message, n: Message) {
    m.protocol == n.protocol && m.sub == n.sub
  }

  /** The last message of m's type, or m itself. */
  function LastOfType(ms: seq<Message>, m: Message): Message {
    if ms == [] then m
    else if SameType(ms[|ms| - 1], m) then ms[|ms| - 1]
    else LastOfType(ms[..|ms| - 1], m)
  }

  /**
   Outside a batch every message is decoded into the one object of its type. So the messages of a read
   hold, when it returns, what their types were decoded from last.
   */
  function Held(ms: seq<Message>): seq<Message> {
    seq(|ms|, i requires 0 <= i < |ms| => LastOfType(ms, ms[i]))
  }

  lemma {:induction false} LastOfTypeIs(ms: seq<Message>, m: Message) returns (k: nat)
    requires exists i :: 0 <= i < |ms| && SameType(ms[i], m)
    ensures k < |ms| && LastOfType(ms, m) == ms[k] && SameType(ms[k], m)
    ensures forall i :: 0 <= i < |ms| && SameType(ms[i], m) ==> i <= k
  {
    var n := |ms| - 1;
    if SameType(ms[n], m) {
      k := n;
    } else {
      var i :| 0 <= i < |ms| && SameType(ms[i], m);
      assert ms[..n][i] == ms[i];
      k := LastOfTypeIs(ms[..n], m);
      assert forall i :: 0 <= i < n ==> ms[..n][i] == ms[i];
    }
  }

  /** No type comes twice with different contents. */
  predicate NoneOverwritten(ms: seq<Message>) {
    forall i, j :: 0 <= i < j < |ms| && SameType(ms[i], ms[j]) ==> ms[i] == ms[j]
  }

  /** The caller holds the decoded messages exactly when no type came twice with different contents. */
  lemma HeldIff(ms: seq<Message>)
    ensures Held(ms) == ms <==> NoneOverwritten(ms)
  {
    forall i | 0 <= i < |ms| ensures NoneOverwritten(ms) ==> Held(ms)[i] == ms[i] {
      var k := LastOfTypeIs(ms, ms[i]);
    }
    if Held(ms) == ms {
      forall i, j | 0 <= i < j < |ms| && SameType(ms[i], ms[j]) ensures ms[i] == ms[j] {
        SameLast(ms, ms[i], ms[j]);
        assert Held(ms)[i] == ms[i] && Held(ms)[j] == ms[j];
      }
    }
  }

  lemma {:induction false} SameLast(ms: seq<Message>, m: Message, n: Message)
    requires SameType(m, n) && exists i :: 0 <= i < |ms| && SameType(ms[i], m)
    ensures LastOfType(ms, m) == LastOfType(ms, n)
  {
    var k := LastOfTypeIs(ms, m);
    assert SameType(ms[k], n);
    var l := LastOfTypeIs(ms, n);
  }

  /** Of written segments read in one read, the caller holds all messages exactly when none of them was overwritten. */
  lemma ReadIsHeldIff(c: Codec, segments: seq<Content>)
    requires Sound(c) && forall i :: 0 <= i < |segments| ==> Readable(c, segments[i])
    ensures var o := Drive(c, FRESH, Stream(segments));
            o.Ran? && (Held(o.messages) == MessagesOf(segments) <==> NoneOverwritten(MessagesOf(segments)))
  {
    ReaderUndoesWriter(c, segments);
    HeldIff(MessagesOf(segments));
  }
}
