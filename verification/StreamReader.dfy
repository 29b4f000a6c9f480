/** The reader object: the buffers it keeps between reads and the loops that fill and empty them. */
module StreamReader {
  import opened Wire
  import opened Wrappers
  import opened MessageReader
  import opened ReaderTheorems

  class StreamReader {
    const codec: Codec
    var timestamp: seq<byte>
    var protocol: nat
    var length: nat
    var buffer: seq<byte>
    var partialHeader: seq<byte>
    var batchBuffer: seq<byte>
    var batching: bool

    ghost function View(): Reader
      reads this
    {
      Reader(timestamp, protocol, length, buffer, partialHeader, batchBuffer, batching)
    }

    constructor (codec: Codec)
      ensures this.codec == codec && View() == FRESH
    {
      this.codec := codec;
      timestamp, protocol, length, buffer, partialHeader, batchBuffer, batching := [], 0, 0, [], [], [], false;
    }

    method ResetSegment()
      modifies this
      ensures View() == Reset(old(View()))
    {
      buffer, timestamp, protocol, length := [], [], 0, 0;
    }

    /** Block messages from the front of the batch buffer. */
    method ParseBlocks(data: seq<byte>) returns (p: Parsed)
      requires Sound(codec)
      ensures p == NextBlocks(codec, data)
    {
      var i := 0;
      var messages: seq<Message> := [];
      ghost var whole := NextBlocks(codec, data);
      AfterNothing(whole);
      assert data[0..] == data;
      while i < |data|
        invariant 0 <= i <= |data|
        invariant whole == MessageReader.After(messages, NextBlocks(codec, data[i..]))
        decreases |data| - i
      {
        var rest := data[i..];
        if StartsWith(rest, 0x81, 0x05) {
          return Parsed(messages + [DONE], []);
        }
        if !StartsWith(rest, 0x82, 0x04) {
          return Failed(BadBlockLead);
        }
        var item := codec.block(rest);
        if item.Partial? {
          assert messages + [] == messages;
          return Parsed(messages, rest);
        }
        if item.Bad? {
          return Failed(BadBlock);
        }
        BlockTaken(codec, data, i, messages);
        messages := messages + [Message(BLOCK_FETCH, BLOCK, rest[..item.size])];
        i := i + item.size;
      }
      assert data[i..] == [] && messages + [] == messages;
      p := Parsed(messages, []);
    }

    /** Messages from a segment payload, stopping behind a StartBatch. */
    method ParseMessages(payload: seq<byte>) returns (p: Parsed)
      requires Sound(codec)
      ensures p == NextMessages(codec, protocol, payload)
    {
      var data, messages := payload, [];
      AfterNothing(NextMessages(codec, protocol, payload));
      while data != []
        invariant NextMessages(codec, protocol, payload) == MessageReader.After(messages, NextMessages(codec, protocol, data))
        decreases |data|
      {
        var one := NextMessage(codec, protocol, data);
        if one.NotOne? {
          return Failed(one.error);
        }
        var m := one.message;
        var remaining := data[|m.bytes|..];
        if m.IsStartBatch() {
          return Parsed(messages + [m], remaining);
        }
        AfterSnoc(messages, m, NextMessages(codec, protocol, remaining));
        messages := messages + [m];
        data := remaining;
      }
      assert messages + [] == messages;
      p := Parsed(messages, []);
    }

    /** What the loop does once a segment is complete. `soFar` are the messages this read has yielded already. */
    method CompleteSegment(soFar: seq<Message>) returns (messages: seq<Message>, error: Option<Error>)
      requires Sound(codec)
      requires batching ==> !EndsBatch(soFar)
      modifies this
      ensures var o := Complete(codec, old(View()));
              && messages == soFar + o.messages
              && (o.Ran? ==> error == None && View() == o.reader && (batching ==> !EndsBatch(messages)))
              && (o.Stopped? ==> error == Some(o.error))
    {
      messages, error := soFar, None;
      if batching {
        batchBuffer := batchBuffer + buffer;
        var blocks := ParseBlocks(batchBuffer);
        if blocks.Failed? {
          assert soFar + [] == soFar;
          return soFar, Some(blocks.error);
        }
        EndsLater(soFar, blocks.messages);
        messages := messages + blocks.messages;
        batchBuffer := blocks.rest;
        if EndsBatch(messages) {
          assert blocks.rest == [] by { BatchDoneLeavesNothing(codec, old(batchBuffer + buffer)); }
          batching := false;
        }
        ResetSegment();
        return;
      }
      var parsed := ParseMessages(buffer);
      if parsed.Failed? {
        assert soFar + [] == soFar;
        return soFar, Some(parsed.error);
      }
      messages := messages + parsed.messages;
      EndsLater(soFar, parsed.messages);
      if StartsBatch(parsed.messages) {
        batching := true;
        batchBuffer := parsed.rest;
      }
      ResetSegment();
    }

    /**
     Takes a segment header from the held bytes and the data, or holds what is too short for one. The
     returned index is negative when more than a header was held.
     */
    method OpenSegment(data: seq<byte>, i: nat) returns (next: int, held: bool, error: Option<Error>)
      requires buffer == [] && i < |data|
      modifies this
      ensures held <==> |data| - i <= HEADER_SIZE
      ensures held ==> error == None && View() == old(View()).(header := old(partialHeader) + data[i..])
      ensures error.Some? <==> !held && ReadHeader(old(partialHeader) + data[i..]).None?
      ensures error.Some? ==> error.value == BadHeader
      ensures !held && error == None ==>
                && next == i + HEADER_SIZE - |old(partialHeader)|
                && View() == Opened(old(View()), ReadHeader(old(partialHeader) + data[i..]).value)
    {
      next, held, error := i, false, None;
      if |data| - i <= HEADER_SIZE {
        partialHeader := partialHeader + data[i..];
        return i, true, None;
      }
      var h := ReadHeader(partialHeader + data[i..]);
      if h.None? {
        return i, false, Some(BadHeader);
      }
      timestamp, protocol, length := h.value.timestamp, h.value.protocol, h.value.length;
      next := i + HEADER_SIZE - |partialHeader|;
      partialHeader := [];
    }

    /** Moves payload bytes into the buffer and completes the segment when it is full. */
    method FillSegment(data: seq<byte>, i: nat, soFar: seq<Message>)
      returns (next: nat, messages: seq<Message>, error: Option<Error>)
      requires Sound(codec) && i <= |data| && partialHeader == [] && length < 0x1_0000
      requires (if buffer == [] then i < |data| else |buffer| < length)
      requires batching ==> !EndsBatch(soFar)
      modifies this
      ensures i <= next <= |data| && (old(buffer) != [] && i < |data| ==> i < next)
      ensures error.None? ==> Between(View()) && partialHeader == [] && (batching ==> !EndsBatch(messages))
      ensures Filled(codec, Behind(soFar, Fill(codec, old(View()), data[i..])), messages, error, View(), data[next..])
    {
      ghost var open, rest := View(), data[i..];
      messages, error := soFar, None;
      next := TakePayload(data, i);
      if |buffer| == length {
        CompleteRests(codec, View());
        messages, error := CompleteSegment(soFar);
        FullFill(codec, open, rest, soFar, messages, error, View());
      } else {
        ShortFill(codec, open, rest, soFar);
      }
    }

    method TakePayload(data: seq<byte>, i: nat) returns (next: nat)
      requires i <= |data| && |buffer| <= length
      modifies this`buffer
      ensures var need, rest := length - |old(buffer)|, data[i..];
              if |rest| < need then next == |data| && data[next..] == [] && View() == old(View()).(buffer := old(buffer) + rest)
              else next == i + need && data[next..] == rest[need..] && View() == old(View()).(buffer := old(buffer) + rest[..need])
    {
      var need := length - |buffer|;
      var take := if need > |data| - i then |data| - i else need;
      next := i + take;
      assert data[i..next] == data[i..][..take] && data[next..] == data[i..][take..];
      buffer := buffer + data[i..next];
    }

    /** One read, its panic on a negative index included. */
    method Read(data: seq<byte>) returns (messages: seq<Message>, error: Option<Error>, panicked: bool)
      requires Sound(codec) && Resting(View())
      modifies this
      ensures var o := ReadOnce(codec, old(View()), data);
              && (panicked <==> o.Panicked?)
              && (o.Returned? ==> messages == o.out.messages)
              && (o.Returned? && o.out.Ran? ==> error == None && View() == o.out.reader && Resting(View()))
              && (o.Returned? && o.out.Stopped? ==> error == Some(o.out.error))
    {
      var i := 0;
      messages, error, panicked := [], None, false;
      ghost var start := View();
      NothingTaken(codec, start, data);
      while i < |data|
        invariant 0 <= i <= |data| && error == None && !panicked
        invariant Reading(codec, start, data, i, messages, View())
        invariant batching ==> !EndsBatch(messages)
        decreases |data| - i + |partialHeader|
      {
        ghost var before := View();
        if buffer == [] {
          var next, held;
          next, held, error := OpenSegment(data, i);
          if held {
            if Taken(start, data) { HeldAtLast(codec, before, data[i..], messages); }
            return;
          }
          if error.Some? {
            if Taken(start, data) { StoppedAtHeader(codec, before, data[i..], messages); }
            return;
          }
          if next < 0 {
            // the data is sliced at a negative index
            return messages, None, true;
          }
          SegmentOpened(codec, before, data, i, next);
          i := next;
        }
        i, messages, error := FillSegment(data, i, messages);
        if error.Some? {
          return;
        }
      }
      AllTaken(codec, start, data, messages, View());
    }
  }

  /** A read that is taken apart: no more than a header was held, and it is not too short for one. */
  predicate Taken(r: Reader, data: seq<byte>) {
    Between(r) && (r.buffer == [] ==> |data| > HEADER_SIZE)
  }

  /** Where a read is: nothing taken yet, or behind the segments that end before position i. */
  ghost predicate Reading(c: Codec, start: Reader, data: seq<byte>, i: nat, ms: seq<Message>, now: Reader)
    requires Sound(c) && i <= |data|
  {
    match start
    case Reader(_, _, _, _, _, _, _) =>
      && ((now == start && i == 0 && ms == []) || (now.header == [] && Taken(start, data)))
      && (Taken(start, data) ==> Between(now) && Drive(c, start, data) == Behind(ms, Drive(c, now, data[i..])))
  }

  lemma NothingTaken(c: Codec, start: Reader, data: seq<byte>)
    requires Sound(c)
    ensures Reading(c, start, data, 0, [], start)
  {
    assert data[0..] == data;
    if Between(start) { BehindNothing(Drive(c, start, data)); }
  }

  lemma AllTaken(c: Codec, start: Reader, data: seq<byte>, ms: seq<Message>, now: Reader)
    requires Sound(c) && Resting(start) && Reading(c, start, data, |data|, ms, now)
    ensures ReadOnce(c, start, data) == Returned(Ran(ms, now)) && Resting(now)
  {
    assert data[|data|..] == [] && ms + [] == ms;
    if Taken(start, data) { NothingRead(c, now); } else { assert now.header + [] == now.header; }
  }

  /** The last bytes of a read, too short for a header. */
  lemma HeldAtLast(c: Codec, r: Reader, rest: seq<byte>, ms: seq<Message>)
    requires Sound(c) && Between(r) && r.buffer == [] && |r.header| + |rest| <= HEADER_SIZE
    ensures Behind(ms, Drive(c, r, rest)) == Ran(ms, r.(header := r.header + rest))
  {
    assert ms + [] == ms;
  }

  lemma StoppedAtHeader(c: Codec, r: Reader, rest: seq<byte>, ms: seq<Message>)
    requires Sound(c) && Between(r) && r.buffer == [] && |rest| > HEADER_SIZE && ReadHeader(r.header + rest).None?
    ensures Behind(ms, Drive(c, r, rest)) == Stopped(ms, BadHeader)
  {
    assert ms + [] == ms;
  }

  lemma SegmentOpened(c: Codec, r: Reader, data: seq<byte>, i: nat, next: nat)
    requires Sound(c) && r.buffer == [] && i < |data| && |data| - i > HEADER_SIZE && next == i + HEADER_SIZE - |r.header|
    requires ReadHeader(r.header + data[i..]).Some?
    ensures next < |data|
    ensures Between(r) ==> Drive(c, r, data[i..]) == Fill(c, Opened(r, ReadHeader(r.header + data[i..]).value), data[next..])
  {
    if Between(r) {
      assert (r.header + data[i..])[HEADER_SIZE..] == data[next..];
    }
  }

  lemma BlockTaken(c: Codec, data: seq<byte>, i: nat, ms: seq<Message>)
    requires Sound(c) && i <= |data| && StartsWith(data[i..], 0x82, 0x04) && c.block(data[i..]).Whole?
    ensures var n := c.block(data[i..]).size;
            && 0 < n <= |data| - i
            && MessageReader.After(ms, NextBlocks(c, data[i..])) ==
               MessageReader.After(ms + [Message(BLOCK_FETCH, BLOCK, data[i..][..n])], NextBlocks(c, data[i + n..]))
  {
    var n := c.block(data[i..]).size;
    BlockInFront(c, data[i..]);
    assert data[i..][n..] == data[i + n..];
    AfterSnoc(ms, Message(BLOCK_FETCH, BLOCK, data[i..][..n]), NextBlocks(c, data[i + n..]));
  }

  lemma AfterSnoc(ms: seq<Message>, m: Message, p: Parsed)
    ensures MessageReader.After(ms, Prefixed(m, p)) == MessageReader.After(ms + [m], p)
  {
    if p.Parsed? { assert ms + ([m] + p.messages) == ms + [m] + p.messages; }
  }

  /** The last message of a longer list is the last of its second part, if that has any. */
  lemma EndsLater(a: seq<Message>, b: seq<Message>)
    ensures EndsBatch(a + b) == if b == [] then EndsBatch(a) else EndsBatch(b)
  {
    if b == [] { assert a + b == a; }
  }

  /** Behind a completed segment nothing is held. */
  lemma CompleteRests(c: Codec, r: Reader)
    requires Sound(c) && r.header == []
    ensures var o := Complete(c, r); o.Ran? ==> o.reader.header == [] && Between(o.reader)
  {
  }

  /** What a filled segment amounts to: an error behind the messages, or more data for the reader. */
  ghost predicate Filled(c: Codec, fill: Out, ms: seq<Message>, error: Option<Error>, now: Reader, left: seq<byte>)
    requires Sound(c) && (error.None? ==> Between(now))
  {
    match error
    case Some(e) => fill == Stopped(ms, e)
    case None => fill == Behind(ms, Drive(c, now, left))
  }

  /** A full segment: what it yields, and then what the rest of the data yields. */
  lemma FullFill(c: Codec, r: Reader, rest: seq<byte>, ms: seq<Message>, ms': seq<Message>, error: Option<Error>, now: Reader)
    requires Sound(c) && r.header == [] && r.length < 0x1_0000 && (error.None? ==> Between(now))
    requires (if r.buffer == [] then rest != [] else |r.buffer| < r.length)
    requires r.length - |r.buffer| <= |rest|
    requires var o := Complete(c, r.(buffer := r.buffer + rest[..r.length - |r.buffer|]));
             && ms' == ms + o.messages
             && (if o.Ran? then error == None && now == o.reader else error == Some(o.error))
    ensures Filled(c, Behind(ms, Fill(c, r, rest)), ms', error, now, rest[r.length - |r.buffer|..])
  {
    var need := r.length - |r.buffer|;
    var o := Complete(c, r.(buffer := r.buffer + rest[..need]));
    FillCompletes(c, r, rest);
    BehindFull(ms, Fill(c, r, rest), o, if o.Ran? then Drive(c, o.reader, rest[need..]) else o);
  }

  lemma BehindFull(ms: seq<Message>, fill: Out, o: Out, driven: Out)
    requires fill == if o.Ran? then Behind(o.messages, driven) else o
    ensures Behind(ms, fill) == if o.Ran? then Behind(ms + o.messages, driven) else Stopped(ms + o.messages, o.error)
  {
    if o.Ran? { BehindTwice(ms, o.messages, driven); }
  }

  /** A segment still short of its length. */
  lemma ShortFill(c: Codec, r: Reader, rest: seq<byte>, ms: seq<Message>)
    requires Sound(c) && r.header == [] && r.length < 0x1_0000
    requires (if r.buffer == [] then rest != [] else |r.buffer| < r.length)
    requires |rest| < r.length - |r.buffer|
    ensures Between(r.(buffer := r.buffer + rest))
    ensures Filled(c, Behind(ms, Fill(c, r, rest)), ms, None, r.(buffer := r.buffer + rest), [])
  {
    NothingRead(c, r.(buffer := r.buffer + rest));
  }
}
