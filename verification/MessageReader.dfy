/**
 The stream reader on the bytes themselves: it reassembles segments from arbitrary reads and,
 while a block batch is open, block messages from segments.
 */
module MessageReader {
  import opened Wire
  import opened Wrappers

  const HEADER_SIZE := 8

  datatype Error = BadHeader | Undecodable | NoSubprotocol | UnknownMessage | BadBody | BadBlockLead | BadBlock

  // ------------------------------------------------------ one segment

  datatype One = One(message: Message) | NotOne(error: Error)

  /** The first message of a segment payload. Subprotocols are cut to 16 bits. */
  function NextMessage(c: Codec, protocol: nat, data: seq<byte>): One
    requires SelfDelimiting(c.item)
  {
    match c.item(data)
    case Partial => NotOne(Undecodable)
    case Bad => NotOne(Undecodable)
    case Whole(None, _) => NotOne(NoSubprotocol)
    case Whole(Some(head), size) =>
      var m := Message(protocol, head % 0x1_0000, data[..size]);
      if !Known(protocol, m.sub) then NotOne(UnknownMessage)
      else if !c.accepts(m) then NotOne(BadBody)
      else One(m)
  }

  /** What is decoded and what is refused, error by error. */
  lemma NextMessageMeans(c: Codec, protocol: nat, data: seq<byte>)
    requires SelfDelimiting(c.item)
    ensures var r, item := NextMessage(c, protocol, data), c.item(data);
            && (r == NotOne(Undecodable) <==> !item.Whole?)
            && (r == NotOne(NoSubprotocol) <==> item.Whole? && item.head.None?)
            && (item.Whole? && item.head.Some? ==>
                  && item.size <= |data|
                  && var m := Message(protocol, item.head.value % 65536, data[..item.size]);
                  && (r == NotOne(UnknownMessage) <==> (m.protocol, m.sub) !in MESSAGE_TYPES)
                  && (r == NotOne(BadBody) <==> (m.protocol, m.sub) in MESSAGE_TYPES && !c.accepts(m))
                  && (r == One(m) <==> (m.protocol, m.sub) in MESSAGE_TYPES && c.accepts(m)))
            && (r.One? ==> item.Whole? && item.head.Some?)
  {
    match c.item(data)
    case Whole(Some(head), _) => KnownTypes(protocol, head % 65536);
    case _ =>
  }

  datatype Parsed = Parsed(messages: seq<Message>, rest: seq<byte>) | Failed(error: Error)

  function Prefixed(m: Message, p: Parsed): Parsed {
    if p.Failed? then p else Parsed([m] + p.messages, p.rest)
  }

  function After(ms: seq<Message>, p: Parsed): Parsed {
    if p.Failed? then p else Parsed(ms + p.messages, p.rest)
  }

  /** All messages of a payload, or those up to a StartBatch, with the bytes behind it. */
  function NextMessages(c: Codec, protocol: nat, data: seq<byte>): Parsed
    requires SelfDelimiting(c.item)
    decreases |data|
  {
    if data == [] then Parsed([], []) else
      match NextMessage(c, protocol, data)
      case NotOne(e) => Failed(e)
      case One(m) =>
        if m.IsStartBatch() then Parsed([m], data[|m.bytes|..])
        else Prefixed(m, NextMessages(c, protocol, data[|m.bytes|..]))
  }

  predicate StartsBatch(ms: seq<Message>) {
    ms != [] && ms[|ms| - 1].IsStartBatch()
  }

  predicate EndsBatch(ms: seq<Message>) {
    ms != [] && ms[|ms| - 1].IsBatchDone()
  }

  const DONE := Message(BLOCK_FETCH, BATCH_DONE, [0x81, 0x05])

  /** The block messages at the front of a batch buffer; what follows a BatchDone is dropped. */
  function NextBlocks(c: Codec, data: seq<byte>): Parsed
    requires SelfDelimiting(c.block)
    decreases |data|
  {
    if data == [] then Parsed([], [])
    else if StartsWith(data, 0x81, 0x05) then Parsed([DONE], [])
    else if !StartsWith(data, 0x82, 0x04) then Failed(BadBlockLead)
    else
      match c.block(data)
      case Partial => Parsed([], data)
      case Bad => Failed(BadBlock)
      case Whole(_, n) => Prefixed(Message(BLOCK_FETCH, BLOCK, data[..n]), NextBlocks(c, data[n..]))
  }

  // ------------------------------------------------------ the stream

  datatype Reader = Reader(timestamp: seq<byte>, protocol: nat, length: nat, buffer: seq<byte>,
                           header: seq<byte>, batch: seq<byte>, batching: bool)

  const FRESH := Reader([], 0, 0, [], [], [], false)

  /** Between reads: a segment is partly read, or at most a header is held. */
  predicate Between(r: Reader) {
    && |r.header| <= HEADER_SIZE && r.length < 0x1_0000
    && (r.buffer != [] ==> |r.buffer| < r.length && r.header == [])
    && (r.buffer == [] ==> r.length == 0 && r.protocol == 0 && r.timestamp == [])
  }

  function Reset(r: Reader): Reader {
    r.(timestamp := [], protocol := 0, length := 0, buffer := [])
  }

  datatype Header = Header(timestamp: seq<byte>, protocol: nat, length: nat)

  /**
   Four bytes timestamp, two bytes protocol, two bytes length. A fifth byte 0x80 marks what the peer sends
   as a reply; no other high byte is accepted, and no protocol above 10.
   */
  function ReadHeader(d: seq<byte>): (h: Option<Header>)
    requires |d| >= HEADER_SIZE
    ensures h.Some? <==> d[4] in {0x00, 0x80} && d[5] <= 10
    ensures h.Some? ==> h.value == Header(d[..4], d[5], d[6] as int * 256 + d[7] as int)
  {
    var raw := Be16(d[4], d[5]);
    var protocol := if d[4] == 0x80 then raw - 0x8000 else raw;
    if protocol > 10 then None else Some(Header(d[..4], protocol, Be16(d[6], d[7])))
  }

  datatype Out = Ran(messages: seq<Message>, reader: Reader) | Stopped(messages: seq<Message>, error: Error)

  function Behind(ms: seq<Message>, o: Out): Out {
    match o
    case Ran(ms', r) => Ran(ms + ms', r)
    case Stopped(ms', e) => Stopped(ms + ms', e)
  }

  /** What a complete segment yields. */
  function Complete(c: Codec, r: Reader): Out
    requires Sound(c)
  {
    if r.batching then
      match NextBlocks(c, r.batch + r.buffer)
      case Failed(e) => Stopped([], e)
      case Parsed(ms, rest) => Ran(ms, Reset(r).(batch := rest, batching := !EndsBatch(ms)))
    else
      match NextMessages(c, r.protocol, r.buffer)
      case Failed(e) => Stopped([], e)
      case Parsed(ms, rest) =>
        Ran(ms, Reset(r).(batch := if StartsBatch(ms) then rest else r.batch, batching := StartsBatch(ms)))
  }

  /** The reader on the bytes alone, as if a header were always taken as soon as it is there. */
  function Drive(c: Codec, r: Reader, data: seq<byte>): Out
    requires Sound(c) && Between(r)
    decreases |r.header| + |data|, 1
  {
    if r.buffer != [] then Fill(c, r, data)
    else
      var pending := r.header + data;
      if |pending| <= HEADER_SIZE then Ran([], r.(header := pending))
      else match ReadHeader(pending)
           case None => Stopped([], BadHeader)
           case Some(h) => Fill(c, Opened(r, h), pending[HEADER_SIZE..])
  }

  function Opened(r: Reader, h: Header): Reader {
    r.(timestamp := h.timestamp, protocol := h.protocol, length := h.length, header := [])
  }

  /** A segment is open: more of its payload arrives. */
  function Fill(c: Codec, r: Reader, data: seq<byte>): Out
    requires Sound(c) && r.header == [] && r.length < 0x1_0000
    requires (if r.buffer == [] then data != [] else |r.buffer| < r.length)
    decreases |data| + if r.buffer == [] then 1 else 0, 0
  {
    var need := r.length - |r.buffer|;
    if |data| < need then Ran([], r.(buffer := r.buffer + data))
    else match Complete(c, r.(buffer := r.buffer + data[..need]))
         case Stopped(ms, e) => Stopped(ms, e)
         case Ran(ms, r') => Behind(ms, Drive(c, r', data[need..]))
  }

  // ------------------------------------------------------ one read

  /** More bytes are held than a header has: short reads were appended to it. */
  predicate Overfull(r: Reader) {
    |r.header| > HEADER_SIZE && r.buffer == [] && r.length == 0 && r.protocol == 0 && r.timestamp == []
  }

  predicate Resting(r: Reader) {
    Between(r) || Overfull(r)
  }

  /** A read returns messages and perhaps an error, or panics on a negative index. */
  datatype ReadResult = Returned(out: Out) | Panicked

  /**
   One read. With no segment open, at most a header's worth of data is only appended to the held
   bytes. Longer data behind an overfull header moves the index below 0, if the header is good.
   */
  function ReadOnce(c: Codec, r: Reader, data: seq<byte>): ReadResult
    requires Sound(c) && Resting(r)
  {
    if r.buffer == [] && |data| <= HEADER_SIZE then Returned(Ran([], r.(header := r.header + data)))
    else if Between(r) then Returned(Drive(c, r, data))
    else if ReadHeader(r.header + data).None? then Returned(Stopped([], BadHeader))
    else Panicked
  }
}
