/**
 A block batch end to end: the block messages of a batch, sent as one body that is cut into
 segments anywhere but behind the first byte of an item, come out of the reader one by one.
 */
module BatchReading {
  import opened Wire
  import opened MessageReader
  import opened ReaderTheorems
  import opened Segment

  /** The reader inside a batch, with these bytes left over. */
  function Waiting(left: seq<byte>): Reader {
    FRESH.(batch := left, batching := true)
  }

  datatype Part = Part(timestamp: nat, reply: bool, body: seq<byte>)

  function Carried(p: Part): seq<byte> {
    HeaderBytes(p.timestamp, BLOCK_FETCH, p.reply, p.body) + p.body
  }

  predicate Fits(p: Part) {
    0 < |p.body| < 0x1_0000
  }

  function CarriedAll(parts: seq<Part>): seq<byte> {
    if parts == [] then [] else CarriedAll(parts[..|parts| - 1]) + Carried(parts[|parts| - 1])
  }

  function BodiesOf(parts: seq<Part>): seq<seq<byte>> {
    seq(|parts|, i requires 0 <= i < |parts| => parts[i].body)
  }

  /** What a part of the body makes of the reader. */
  function Taken(p: Parsed): Out {
    match p
    case Failed(e) => Stopped([], e)
    case Parsed(ms, rest) => Ran(ms, if EndsBatch(ms) then FRESH else Waiting(rest))
  }

  lemma PartOpens(c: Codec, left: seq<byte>, header: seq<byte>, body: seq<byte>)
    requires Sound(c) && |header| == HEADER_SIZE && body != [] && ReadHeader(header + body).Some?
    ensures Drive(c, Waiting(left), header + body) == Fill(c, Opened(Waiting(left), ReadHeader(header + body).value), body)
  {
    assert Waiting(left).header + (header + body) == header + body;
    assert (header + body)[HEADER_SIZE..] == body;
  }

  lemma BodyCompletes(c: Codec, left: seq<byte>, h: Header, body: seq<byte>)
    requires Sound(c) && h.length < 0x1_0000
    ensures Complete(c, Opened(Waiting(left), h).(buffer := body)) == Taken(NextBlocks(c, left + body))
  {
    var p := NextBlocks(c, left + body);
    if p.Parsed? && EndsBatch(p.messages) { BatchDoneLeavesNothing(c, left + body); }
  }

  lemma NothingLeft(c: Codec, ms: seq<Message>, r: Reader)
    requires Sound(c) && Between(r) && r.buffer == []
    ensures Behind(ms, Drive(c, r, [])) == Ran(ms, r)
  {
    assert r.header + [] == r.header && ms + [] == ms;
  }

  lemma PartCompletes(c: Codec, left: seq<byte>, h: Header, body: seq<byte>)
    requires Sound(c) && body != [] && h.length == |body| < 0x1_0000
    ensures Fill(c, Opened(Waiting(left), h), body) == Taken(NextBlocks(c, left + body))
  {
    var open := Opened(Waiting(left), h);
    var o := Complete(c, open.(buffer := body));
    FillCompletes(c, open, body);
    assert body[..h.length] == body && body[h.length..] == [] && open.buffer + body == body;
    BodyCompletes(c, left, h, body);
    if o.Ran? { NothingLeft(c, o.messages, o.reader); }
  }

  /** One part of the body, read inside a batch, is parsed together with what was left over. */
  lemma PartIsRead(c: Codec, left: seq<byte>, p: Part)
    requires Sound(c) && Fits(p)
    ensures Drive(c, Waiting(left), Carried(p)) == Taken(NextBlocks(c, left + p.body))
  {
    HeaderAnnounces(p.timestamp, BLOCK_FETCH, p.reply, p.body, p.body);
    PartOpens(c, left, HeaderBytes(p.timestamp, BLOCK_FETCH, p.reply, p.body), p.body);
    PartCompletes(c, left, ReadHeader(Carried(p)).value, p.body);
  }

  /** The first k parts do not end the batch. */
  predicate OpenBefore(c: Codec, left: seq<byte>, parts: seq<Part>, k: nat)
    requires SelfDelimiting(c.block) && k <= |parts|
  {
    match Feed(c, left, BodiesOf(parts[..k]))
    case Failed(_) => true
    case Parsed(ms, _) => !EndsBatch(ms)
  }

  /** The batch does not end before the last part. */
  ghost predicate StaysOpen(c: Codec, left: seq<byte>, parts: seq<Part>)
    requires SelfDelimiting(c.block)
  {
    forall k :: 0 <= k < |parts| ==> OpenBefore(c, left, parts, k)
  }

  /** The reader has done what the feed did. */
  predicate AsFed(o: Out, fed: Parsed) {
    match fed
    case Failed(e) => o.Stopped? && o.error == e
    case Parsed(_, _) => o == Taken(fed)
  }

  /** The reader feeds its batch buffer: its messages, what it keeps and its error are those of the feed. */
  lemma {:induction false} PartsAreFed(c: Codec, left: seq<byte>, parts: seq<Part>)
    requires Sound(c) && forall i :: 0 <= i < |parts| ==> Fits(parts[i])
    requires StaysOpen(c, left, parts)
    ensures AsFed(Drive(c, Waiting(left), CarriedAll(parts)), Feed(c, left, BodiesOf(parts)))
    decreases |parts|
  {
    if parts == [] {
      NothingFed(c, left);
    } else {
      var n := |parts| - 1;
      InitStaysOpen(c, left, parts);
      PartsAreFed(c, left, parts[..n]);
      NextPart(c, left, parts);
    }
  }

  lemma NothingFed(c: Codec, left: seq<byte>)
    requires Sound(c)
    ensures AsFed(Drive(c, Waiting(left), CarriedAll([])), Feed(c, left, BodiesOf([])))
  {
    NothingLeft(c, [], Waiting(left));
    BehindNothing(Drive(c, Waiting(left), []));
  }

  lemma InitStaysOpen(c: Codec, left: seq<byte>, parts: seq<Part>)
    requires SelfDelimiting(c.block) && parts != [] && StaysOpen(c, left, parts)
    ensures StaysOpen(c, left, parts[..|parts| - 1])
  {
    var init := parts[..|parts| - 1];
    forall k | 0 <= k < |init| ensures OpenBefore(c, left, init, k) {
      assert init[..k] == parts[..k] && OpenBefore(c, left, parts, k);
    }
  }

  lemma NextPart(c: Codec, left: seq<byte>, parts: seq<Part>)
    requires Sound(c) && parts != [] && Fits(parts[|parts| - 1]) && StaysOpen(c, left, parts)
    requires AsFed(Drive(c, Waiting(left), CarriedAll(parts[..|parts| - 1])), Feed(c, left, BodiesOf(parts[..|parts| - 1])))
    ensures AsFed(Drive(c, Waiting(left), CarriedAll(parts)), Feed(c, left, BodiesOf(parts)))
  {
    var n := |parts| - 1;
    var init, last := parts[..n], parts[n];
    var before := Feed(c, left, BodiesOf(init));
    assert OpenBefore(c, left, parts, n);
    assert BodiesOf(parts)[..n] == BodiesOf(init) && BodiesOf(parts)[n] == last.body;
    DriveSplits(c, Waiting(left), CarriedAll(init), Carried(last));
    if before.Parsed? {
      PartIsRead(c, before.rest, last);
      TakenAfter(before.messages, NextBlocks(c, before.rest + last.body));
    }
  }

  lemma TakenAfter(ms: seq<Message>, p: Parsed)
    requires !EndsBatch(ms)
    ensures p.Parsed? ==> Behind(ms, Taken(p)) == Taken(MessageReader.After(ms, p))
  {
    if p.Parsed? {
      if p.messages == [] {
        assert ms + p.messages == ms;
      } else {
        assert (ms + p.messages)[|ms + p.messages| - 1] == p.messages[|p.messages| - 1];
      }
    }
  }

  // ------------------------------------------------------ the blocks of a batch

  /** The bytes of one block message. */
  predicate IsBlock(c: Codec, b: seq<byte>) {
    StartsWith(b, 0x82, 0x04) && c.block(b).Whole? && c.block(b).size == |b|
  }

  function Flat(blocks: seq<seq<byte>>): seq<byte> {
    if blocks == [] then [] else blocks[0] + Flat(blocks[1..])
  }

  function BlockMessages(blocks: seq<seq<byte>>): seq<Message> {
    if blocks == [] then [] else [Message(BLOCK_FETCH, BLOCK, blocks[0])] + BlockMessages(blocks[1..])
  }

  /** Every block comes as message 4 of protocol 3, with its own bytes; the end of a batch is message 5. */
  lemma {:induction false} BlockMessagesAt(blocks: seq<seq<byte>>, i: nat)
    requires i < |blocks|
    ensures |BlockMessages(blocks)| == |blocks| && BlockMessages(blocks)[i] == Message(3, 4, blocks[i])
    ensures DONE == Message(3, 5, [0x81, 0x05])
    decreases |blocks|
  {
    if |blocks| > 1 {
      BlockMessagesAt(blocks[1..], if i == 0 then 0 else i - 1);
    }
  }

  /** A body of whole blocks parses to those blocks, in order, whatever follows them. */
  lemma {:induction false} BodyParses(c: Codec, blocks: seq<seq<byte>>, tail: seq<byte>)
    requires SelfDelimiting(c.block) && forall i :: 0 <= i < |blocks| ==> IsBlock(c, blocks[i])
    ensures NextBlocks(c, Flat(blocks) + tail) == MessageReader.After(BlockMessages(blocks), NextBlocks(c, tail))
  {
    if blocks == [] {
      assert [] + tail == tail;
      AfterNothing(NextBlocks(c, tail));
    } else {
      var b, rest := blocks[0], blocks[1..];
      assert IsBlock(c, b);
      BytesAssociate(b, Flat(rest), tail);
      BlockInFrontOf(c, b, Flat(rest) + tail);
      assert b[..|b|] == b && b[|b|..] + (Flat(rest) + tail) == Flat(rest) + tail;
      BodyParses(c, rest, tail);
      AfterTwice(Message(BLOCK_FETCH, BLOCK, b), BlockMessages(rest), NextBlocks(c, tail));
    }
  }

  const END: seq<byte> := [0x81, 0x05]

  /** The end of a batch is not seen before the last byte of its body. */
  lemma {:induction false} OpenInside(c: Codec, blocks: seq<seq<byte>>, a: seq<byte>, b: seq<byte>)
    requires SelfDelimiting(c.block) && forall i :: 0 <= i < |blocks| ==> IsBlock(c, blocks[i])
    requires a + b == Flat(blocks) + END && b != []
    ensures Open(c, a)
    decreases |blocks|
  {
    if blocks == [] {
      assert a + b == END;
      assert a == (a + b)[..|a|];
    } else {
      var first, rest := blocks[0], blocks[1..];
      assert IsBlock(c, first);
      BytesAssociate(first, Flat(rest), END);
      if |a| < |first| {
        SameStart(a, b, first, Flat(rest) + END);
        PieceOfBlock(c, first, |a|);
      } else {
        SameStart(first, Flat(rest) + END, a, b);
        OpenInside(c, rest, a[|first|..], b);
        OpenBehind(c, first, a[|first|..]);
      }
    }
  }

  /** Of two splits of the same bytes the shorter first part starts the longer one. */
  lemma SameStart(a: seq<byte>, b: seq<byte>, a': seq<byte>, b': seq<byte>)
    requires a + b == a' + b' && |a| <= |a'|
    ensures a == a'[..|a|] && a' == a + a'[|a|..] && a'[|a|..] + b' == b
  {
    assert a == (a + b)[..|a|] && b == (a + b)[|a|..];
    assert a'[..|a|] == (a' + b')[..|a|] && a'[|a|..] + b' == (a' + b')[|a|..];
  }

  /** A whole block in front does not end a batch. */
  lemma OpenBehind(c: Codec, block: seq<byte>, a: seq<byte>)
    requires SelfDelimiting(c.block) && IsBlock(c, block) && Open(c, a)
    ensures Open(c, block + a)
  {
    BlockInFrontOf(c, block, a);
    assert block[..|block|] == block && block[|block|..] + a == a;
    if NextBlocks(c, a).Parsed? {
      EndsBehind(Message(BLOCK_FETCH, BLOCK, block), NextBlocks(c, a).messages);
    }
  }

  /** A proper part of a block is not the end of a batch. */
  lemma PieceOfBlock(c: Codec, block: seq<byte>, n: nat)
    requires SelfDelimiting(c.block) && IsBlock(c, block) && n < |block|
    ensures Open(c, block[..n])
  {
    assert StableAt(c.block, block[..n], block[n..]);
    assert block[..n] + block[n..] == block;
  }

  lemma {:induction false} ProperPrefix(parts: seq<Part>, k: nat) returns (b: seq<byte>)
    requires k < |parts| && forall i :: 0 <= i < |parts| ==> Fits(parts[i])
    ensures Joined(BodiesOf(parts)[..k]) + b == Joined(BodiesOf(parts)) && b != []
    decreases |parts|
  {
    var n := |parts| - 1;
    var last := parts[n].body;
    assert BodiesOf(parts)[..n] == BodiesOf(parts[..n]);
    if k == n {
      b := last;
    } else {
      assert BodiesOf(parts)[..k] == BodiesOf(parts[..n])[..k];
      b := ProperPrefix(parts[..n], k);
      BytesAssociate(Joined(BodiesOf(parts)[..k]), b, last);
      b := b + last;
    }
  }

  /** Behind what the start segment held already, the parts carry the blocks of a batch and its end. */
  ghost predicate CarriesBatch(c: Codec, front: seq<byte>, blocks: seq<seq<byte>>, parts: seq<Part>) {
    && parts != [] && (forall i :: 0 <= i < |parts| ==> Fits(parts[i]))
    && (forall i :: 0 <= i < |blocks| ==> IsBlock(c, blocks[i]))
    && front + Joined(BodiesOf(parts)) == Flat(blocks) + END
  }

  lemma BodyIsParsed(c: Codec, blocks: seq<seq<byte>>)
    requires SelfDelimiting(c.block) && forall i :: 0 <= i < |blocks| ==> IsBlock(c, blocks[i])
    ensures NextBlocks(c, Flat(blocks) + END) == Parsed(BlockMessages(blocks) + [DONE], [])
  {
    BodyParses(c, blocks, END);
    assert NextBlocks(c, END) == Parsed([DONE], []);
  }

  /** The end of the batch comes in the last part. */
  lemma BatchStaysOpen(c: Codec, front: seq<byte>, blocks: seq<seq<byte>>, parts: seq<Part>)
    requires SelfDelimiting(c.block) && CarriesBatch(c, front, blocks, parts)
    ensures StaysOpen(c, front, parts)
  {
    var segments := BodiesOf(parts);
    BodyIsParsed(c, blocks);
    forall k | 0 <= k < |parts| ensures OpenBefore(c, front, parts, k) {
      assert BodiesOf(parts[..k]) == segments[..k];
      if k > 0 {
        FedUpTo(c, front, segments, k);
        var b := ProperPrefix(parts, k);
        BytesAssociate(front, Joined(segments[..k]), b);
        OpenInside(c, blocks, UpTo(front, segments, k), b);
      }
    }
  }

  /**
   The blocks of a batch and its end, cut into segments behind what the reader holds already, are read as
   exactly those blocks and a BatchDone, the reader fresh again, exactly when no cut between two of these
   segments leaves the lone first byte of an item; else reading fails.
   */
  lemma BatchIsRead(c: Codec, front: seq<byte>, blocks: seq<seq<byte>>, parts: seq<Part>)
    requires Sound(c) && CarriesBatch(c, front, blocks, parts)
    ensures var o := Drive(c, Waiting(front), CarriedAll(parts));
            if NoLoneBytes(c, front, BodiesOf(parts)) then o == Ran(BlockMessages(blocks) + [DONE], FRESH) else o.Stopped?
  {
    BodyIsTaken(c, blocks);
    FeedIsOneShot(c, front, BodiesOf(parts));
    BatchStaysOpen(c, front, blocks, parts);
    PartsAreFed(c, front, parts);
  }

  lemma BodyIsTaken(c: Codec, blocks: seq<seq<byte>>)
    requires SelfDelimiting(c.block) && forall i :: 0 <= i < |blocks| ==> IsBlock(c, blocks[i])
    ensures var p := NextBlocks(c, Flat(blocks) + END); p.Parsed? && Taken(p) == Ran(BlockMessages(blocks) + [DONE], FRESH)
  {
    BodyIsParsed(c, blocks);
    assert (BlockMessages(blocks) + [DONE])[|BlockMessages(blocks)|] == DONE;
  }

  // ------------------------------------------------------ from the start message on

  /** A segment that opens a batch: messages, the StartBatch, and perhaps first bytes of the batch itself. */
  datatype Opening = Opening(timestamp: nat, reply: bool, before: seq<Message>, start: Message, front: seq<byte>)

  function StartBody(s: Opening): seq<byte> {
    Payload(s.before) + (s.start.bytes + s.front)
  }

  function StartSegment(s: Opening): seq<byte> {
    HeaderBytes(s.timestamp, BLOCK_FETCH, s.reply, StartBody(s)) + StartBody(s)
  }

  predicate Opens(c: Codec, s: Opening) {
    AllWellEncoded(c, BLOCK_FETCH, s.before) && WellEncoded(c, s.start) && s.start.IsStartBatch() && |StartBody(s)| < 0x1_0000
  }

  /** Decoding stops behind the StartBatch and hands on the bytes that follow it. */
  lemma StartStopsPayload(c: Codec, s: Opening)
    requires SelfDelimiting(c.item) && Opens(c, s)
    ensures StartBody(s) != [] && NextMessages(c, BLOCK_FETCH, StartBody(s)) == Parsed(s.before + [s.start], s.front)
  {
    PayloadInFront(c, BLOCK_FETCH, s.before, s.start.bytes + s.front);
    FirstIsDecoded(c, s.start, s.front);
    assert (s.start.bytes + s.front)[|s.start.bytes|..] == s.front;
  }

  lemma StartCompletes(c: Codec, h: Header, s: Opening)
    requires Sound(c) && Opens(c, s) && h.protocol == BLOCK_FETCH && h.length == |StartBody(s)|
    ensures StartBody(s) != [] && Fill(c, Opened(FRESH, h), StartBody(s)) == Ran(s.before + [s.start], Waiting(s.front))
  {
    var open, body, ms := Opened(FRESH, h), StartBody(s), s.before + [s.start];
    StartStopsPayload(c, s);
    FillCompletes(c, open, body);
    assert body[..h.length] == body && body[h.length..] == [] && open.buffer + body == body;
    assert ms[|ms| - 1] == s.start;
    assert Complete(c, open.(buffer := body)) == Ran(ms, Waiting(s.front));
    NothingLeft(c, ms, Waiting(s.front));
  }

  /** A segment with a StartBatch puts a fresh reader inside a batch, with the bytes behind it held. */
  lemma StartOpensBatch(c: Codec, s: Opening)
    requires Sound(c) && Opens(c, s)
    ensures Drive(c, FRESH, StartSegment(s)) == Ran(s.before + [s.start], Waiting(s.front))
  {
    StartStopsPayload(c, s);
    HeaderAnnounces(s.timestamp, BLOCK_FETCH, s.reply, StartBody(s), StartBody(s));
    SegmentOpens(c, HeaderBytes(s.timestamp, BLOCK_FETCH, s.reply, StartBody(s)), StartBody(s));
    StartCompletes(c, ReadHeader(StartSegment(s)).value, s);
  }

  /**
   A batch from its start to its end: start message, blocks and end come out in order and the reader is
   fresh again, exactly when no cut behind the start segment leaves a lone byte.
   */
  lemma WholeBatchIsRead(c: Codec, s: Opening, blocks: seq<seq<byte>>, parts: seq<Part>)
    requires Sound(c) && Opens(c, s) && CarriesBatch(c, s.front, blocks, parts)
    ensures var o := Drive(c, FRESH, StartSegment(s) + CarriedAll(parts));
            if NoLoneBytes(c, s.front, BodiesOf(parts)) then o == Ran(s.before + [s.start] + (BlockMessages(blocks) + [DONE]), FRESH)
            else o.Stopped?
  {
    StartOpensBatch(c, s);
    DriveSplits(c, FRESH, StartSegment(s), CarriedAll(parts));
    BatchIsRead(c, s.front, blocks, parts);
  }

  /** The same read by read: exactly when no cut of the sender leaves a lone byte and no read overfills the header. */
  lemma WholeBatchInPieces(c: Codec, s: Opening, blocks: seq<seq<byte>>, parts: seq<Part>, cuts: seq<seq<byte>>)
    requires Sound(c) && Opens(c, s) && CarriesBatch(c, s.front, blocks, parts)
    requires Joined(cuts) == StartSegment(s) + CarriedAll(parts)
    ensures ReadAll(c, FRESH, cuts) == Returned(Ran(s.before + [s.start] + (BlockMessages(blocks) + [DONE]), FRESH)) <==>
            NoLoneBytes(c, s.front, BodiesOf(parts)) && ReadsFit(c, FRESH, cuts)
  {
    WholeBatchIsRead(c, s, blocks, parts);
    if ReadsFit(c, FRESH, cuts) {
      FittingReads(c, FRESH, cuts);
    } else if ReadAll(c, FRESH, cuts).Returned? && ReadAll(c, FRESH, cuts).out.Ran? {
      ReadsKeepInvariant(c, FRESH, cuts);
    }
  }
}
