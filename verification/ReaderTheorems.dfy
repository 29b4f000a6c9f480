/**
 Laws of the stream reader: exactly which cuttings of the stream into reads do not show,
 incremental parsing of a block batch is parsing it at once, and which cuts break a batch.
 */
module ReaderTheorems {
  import opened Wire
  import opened MessageReader

  // ------------------------------------------------------ fragmentation

  /** On the bytes alone the reader keeps a buffer strictly shorter than announced and at most a header held. */
  lemma {:induction false} DriveKeepsInvariant(c: Codec, r: Reader, data: seq<byte>)
    requires Sound(c) && Between(r)
    ensures Drive(c, r, data).Ran? ==> Between(Drive(c, r, data).reader)
    decreases |r.header| + |data|, 1
  {
    if r.buffer != [] {
      FillKeepsInvariant(c, r, data);
    } else if |r.header + data| > HEADER_SIZE {
      var h := ReadHeader(r.header + data);
      if h.Some? {
        FillKeepsInvariant(c, Opened(r, h.value), (r.header + data)[HEADER_SIZE..]);
      }
    }
  }

  lemma {:induction false} FillKeepsInvariant(c: Codec, r: Reader, data: seq<byte>)
    requires Sound(c) && r.header == [] && r.length < 0x1_0000
    requires (if r.buffer == [] then data != [] else |r.buffer| < r.length)
    ensures Fill(c, r, data).Ran? ==> Between(Fill(c, r, data).reader)
    decreases |data| + if r.buffer == [] then 1 else 0, 0
  {
    var need := r.length - |r.buffer|;
    if |data| >= need {
      var o := Complete(c, r.(buffer := r.buffer + data[..need]));
      if o.Ran? {
        DriveKeepsInvariant(c, o.reader, data[need..]);
      }
    }
  }

  /** Reading on after an outcome: an error ends the stream. */
  function Then(c: Codec, o: Out, b: seq<byte>): Out
    requires Sound(c) && (o.Ran? ==> Between(o.reader))
  {
    match o
    case Ran(ms, r) => Behind(ms, Drive(c, r, b))
    case Stopped(_, _) => o
  }

  /** On the bytes alone, a and then b is a followed by b, errors included. */
  lemma {:induction false} DriveSplits(c: Codec, r: Reader, a: seq<byte>, b: seq<byte>)
    requires Sound(c) && Between(r)
    ensures Drive(c, r, a).Ran? ==> Between(Drive(c, r, a).reader)
    ensures Drive(c, r, a + b) == Then(c, Drive(c, r, a), b)
    decreases |r.header| + |a|, 1
  {
    DriveKeepsInvariant(c, r, a);
    if r.buffer != [] {
      FillSplits(c, r, a, b);
    } else {
      HeaderSplits(c, r, a, b);
    }
  }

  lemma {:induction false} HeaderSplits(c: Codec, r: Reader, a: seq<byte>, b: seq<byte>)
    requires Sound(c) && Between(r) && r.buffer == []
    requires Drive(c, r, a).Ran? ==> Between(Drive(c, r, a).reader)
    ensures Drive(c, r, a + b) == Then(c, Drive(c, r, a), b)
    decreases |r.header| + |a|, 0
  {
    var pending := r.header + a;
    BytesAssociate(r.header, a, b);
    if |pending| <= HEADER_SIZE {
      HeldSplits(c, r, a, b);
    } else {
      SameHeader(pending, b);
      DriveOpens(c, r, a);
      DriveOpens(c, r, a + b);
      var h := ReadHeader(pending);
      if h.Some? {
        FillSplits(c, Opened(r, h.value), pending[HEADER_SIZE..], b);
      }
    }
  }

  lemma HeldSplits(c: Codec, r: Reader, a: seq<byte>, b: seq<byte>)
    requires Sound(c) && Between(r) && r.buffer == [] && |r.header + a| <= HEADER_SIZE
    ensures Drive(c, r, a) == Ran([], r.(header := r.header + a))
    ensures Drive(c, r, a + b) == Behind([], Drive(c, r.(header := r.header + a), b))
  {
    BytesAssociate(r.header, a, b);
    BehindNothing(Drive(c, r.(header := r.header + a), b));
  }

  /** Enough bytes for a header and more: the header is read and the segment opened. */
  lemma DriveOpens(c: Codec, r: Reader, data: seq<byte>)
    requires Sound(c) && Between(r) && r.buffer == [] && |r.header + data| > HEADER_SIZE
    ensures var pending := r.header + data;
            Drive(c, r, data) == match ReadHeader(pending)
                                 case None => Stopped([], BadHeader)
                                 case Some(h) => Fill(c, Opened(r, h), pending[HEADER_SIZE..])
  {
  }

  lemma SameHeader(pending: seq<byte>, b: seq<byte>)
    requires |pending| > HEADER_SIZE
    ensures ReadHeader(pending + b) == ReadHeader(pending)
    ensures (pending + b)[HEADER_SIZE..] == pending[HEADER_SIZE..] + b
  {
    var d := pending + b;
    assert d[..4] == pending[..4];
    assert d[4] == pending[4] && d[5] == pending[5] && d[6] == pending[6] && d[7] == pending[7];
  }

  lemma FillCompletes(c: Codec, r: Reader, data: seq<byte>)
    requires Sound(c) && r.header == [] && r.length < 0x1_0000
    requires (if r.buffer == [] then data != [] else |r.buffer| < r.length)
    requires r.length - |r.buffer| <= |data|
    ensures var need := r.length - |r.buffer|;
            var o := Complete(c, r.(buffer := r.buffer + data[..need]));
            Fill(c, r, data) == if o.Ran? then Behind(o.messages, Drive(c, o.reader, data[need..])) else o
  {
    var need := r.length - |r.buffer|;
    var o := Complete(c, r.(buffer := r.buffer + data[..need]));
    if o.Ran? {
      assert Fill(c, r, data) == Behind(o.messages, Drive(c, o.reader, data[need..]));
    } else {
      assert Fill(c, r, data) == o;
    }
  }

  lemma BehindNothing(o: Out)
    ensures Behind([], o) == o
  {
  }

  lemma BehindTwice(ms: seq<Message>, ms': seq<Message>, o: Out)
    ensures Behind(ms, Behind(ms', o)) == Behind(ms + ms', o)
  {
    assert ms + (ms' + o.messages) == ms + ms' + o.messages;
  }

  lemma {:induction false} FillSplits(c: Codec, r: Reader, a: seq<byte>, b: seq<byte>)
    requires Sound(c) && r.header == [] && r.length < 0x1_0000
    requires (if r.buffer == [] then a != [] else |r.buffer| < r.length)
    requires r.buffer == [] || Between(r)
    ensures Fill(c, r, a).Ran? ==> Between(Fill(c, r, a).reader)
    ensures Fill(c, r, a + b) == Then(c, Fill(c, r, a), b)
    decreases |a| + if r.buffer == [] then 1 else 0, 0
  {
    FillKeepsInvariant(c, r, a);
    var need := r.length - |r.buffer|;
    if |a| < need {
      FillMore(c, r, a, b);
    } else {
      assert (a + b)[..need] == a[..need] && (a + b)[need..] == a[need..] + b;
      var o := Complete(c, r.(buffer := r.buffer + a[..need]));
      FillCompletes(c, r, a);
      FillCompletes(c, r, a + b);
      if o.Ran? {
        DriveSplits(c, o.reader, a[need..], b);
        var first := Drive(c, o.reader, a[need..]);
        if first.Ran? {
          BehindTwice(o.messages, first.messages, Drive(c, first.reader, b));
        }
      }
    }
  }

  /** The payload is still short after a: the rest of it is taken from b. */
  lemma FillMore(c: Codec, r: Reader, a: seq<byte>, b: seq<byte>)
    requires Sound(c) && r.header == [] && r.length < 0x1_0000
    requires (if r.buffer == [] then a != [] else |r.buffer| < r.length)
    requires |a| < r.length - |r.buffer|
    ensures Between(r.(buffer := r.buffer + a))
    ensures Fill(c, r, a + b) == Behind([], Drive(c, r.(buffer := r.buffer + a), b))
  {
    var held := r.(buffer := r.buffer + a);
    BehindNothing(Drive(c, held, b));
    assert Drive(c, held, b) == Fill(c, held, b);
    FillInTwo(c, r, a, b);
  }

  lemma FillInTwo(c: Codec, r: Reader, a: seq<byte>, b: seq<byte>)
    requires Sound(c) && r.header == [] && r.length < 0x1_0000
    requires (if r.buffer == [] then a != [] else |r.buffer| < r.length)
    requires |a| < r.length - |r.buffer|
    ensures Fill(c, r, a + b) == Fill(c, r.(buffer := r.buffer + a), b)
  {
    var held := r.(buffer := r.buffer + a);
    var need, more := r.length - |r.buffer|, r.length - |held.buffer|;
    if |a + b| < need {
      assert r.buffer + (a + b) == held.buffer + b;
    } else {
      assert r.buffer + (a + b)[..need] == held.buffer + b[..more];
      assert (a + b)[need..] == b[more..];
    }
  }

  function Joined(cuts: seq<seq<byte>>): seq<byte> {
    if cuts == [] then [] else Joined(cuts[..|cuts| - 1]) + cuts[|cuts| - 1]
  }

  lemma JoinedSnoc(cuts: seq<seq<byte>>, last: seq<byte>)
    ensures Joined(cuts + [last]) == Joined(cuts) + last
  {
    assert (cuts + [last])[..|cuts|] == cuts;
  }

  lemma {:induction false} JoinedSplits(cuts: seq<seq<byte>>, k: nat)
    requires k <= |cuts|
    ensures Joined(cuts) == Joined(cuts[..k]) + Joined(cuts[k..])
    decreases |cuts|
  {
    if k == |cuts| {
      assert cuts[..k] == cuts && cuts[k..] == [];
    } else {
      var n := |cuts| - 1;
      JoinedSplits(cuts[..n], k);
      assert cuts[..n][..k] == cuts[..k] && cuts[k..] == cuts[..n][k..] + [cuts[n]];
      JoinedSnoc(cuts[..n][k..], cuts[n]);
      BytesAssociate(Joined(cuts[..k]), Joined(cuts[..n][k..]), cuts[n]);
    }
  }

  // ------------------------------------------------------ read by read

  /** What the next read adds to an outcome; nothing follows an error or a panic. */
  function ReadNext(c: Codec, o: ReadResult, data: seq<byte>): ReadResult
    requires Sound(c) && (o.Returned? && o.out.Ran? ==> Resting(o.out.reader))
  {
    if o.Panicked? || o.out.Stopped? then o
    else
      match ReadOnce(c, o.out.reader, data)
      case Panicked => Panicked
      case Returned(out) => Returned(Behind(o.out.messages, out))
  }

  lemma ReadOnceRests(c: Codec, r: Reader, data: seq<byte>)
    requires Sound(c) && Resting(r)
    ensures var o := ReadOnce(c, r, data); o.Returned? && o.out.Ran? ==> Resting(o.out.reader)
  {
    if Between(r) { DriveKeepsInvariant(c, r, data); }
  }

  /** The reader fed read by read, short reads and panics included. */
  ghost function ReadAll(c: Codec, r: Reader, cuts: seq<seq<byte>>): (o: ReadResult)
    requires Sound(c) && Between(r)
    ensures o.Returned? && o.out.Ran? ==> Resting(o.out.reader)
    decreases |cuts|
  {
    if cuts == [] then Returned(Ran([], r)) else
      var before := ReadAll(c, r, cuts[..|cuts| - 1]);
      if before.Returned? && before.out.Ran? then
        ReadOnceRests(c, before.out.reader, cuts[|cuts| - 1]);
        ReadNext(c, before, cuts[|cuts| - 1])
      else before
  }

  /** With no segment open, a short read must leave the held bytes within a header. */
  predicate FitsNext(o: Out, data: seq<byte>) {
    o.Ran? && o.reader.buffer == [] && |data| <= HEADER_SIZE ==> |o.reader.header| + |data| <= HEADER_SIZE
  }

  /** How many reads come before the first that overfills the header. */
  function Fitting(c: Codec, r: Reader, cuts: seq<seq<byte>>): (k: nat)
    requires Sound(c) && Between(r)
    ensures k <= |cuts|
    decreases |cuts|
  {
    if cuts == [] then 0 else
      var n := |cuts| - 1;
      var k := Fitting(c, r, cuts[..n]);
      if k == n && FitsNext(Drive(c, r, Joined(cuts[..n])), cuts[n]) then |cuts| else k
  }

  /** No read overfills the header. */
  predicate ReadsFit(c: Codec, r: Reader, cuts: seq<seq<byte>>)
    requires Sound(c) && Between(r)
  {
    Fitting(c, r, cuts) == |cuts|
  }

  /** A reader that only appends a short read to the bytes it holds is right exactly when they still fit in a header. */
  lemma ShortReadIsHeld(c: Codec, r: Reader, data: seq<byte>)
    requires Sound(c) && Between(r) && r.buffer == [] && |data| <= HEADER_SIZE
    ensures Drive(c, r, data) == Ran([], r.(header := r.header + data)) <==> |r.header| + |data| <= HEADER_SIZE
  {
    DriveKeepsInvariant(c, r, data);
  }

  /** A read that fits is read as its bytes. */
  lemma FittingRead(c: Codec, r: Reader, data: seq<byte>)
    requires Sound(c) && Between(r) && FitsNext(Ran([], r), data)
    ensures ReadOnce(c, r, data) == Returned(Drive(c, r, data))
  {
  }

  lemma NothingRead(c: Codec, r: Reader)
    requires Sound(c) && Between(r)
    ensures Drive(c, r, []) == Ran([], r)
  {
    if r.buffer == [] { assert r.header + [] == r.header; } else { assert r.buffer + [] == r.buffer; }
  }

  /** Reads that fit are read as their bytes together: messages, error and state. */
  lemma {:induction false} FittingReads(c: Codec, r: Reader, cuts: seq<seq<byte>>)
    requires Sound(c) && Between(r) && ReadsFit(c, r, cuts)
    ensures ReadAll(c, r, cuts) == Returned(Drive(c, r, Joined(cuts)))
    decreases |cuts|
  {
    if cuts == [] {
      NothingRead(c, r);
    } else {
      var n := |cuts| - 1;
      FittingReads(c, r, cuts[..n]);
      DriveSplits(c, r, Joined(cuts[..n]), cuts[n]);
      var o := Drive(c, r, Joined(cuts[..n]));
      if o.Ran? { FittingRead(c, o.reader, cuts[n]); }
    }
  }

  predicate AllShort(cuts: seq<seq<byte>>) {
    forall i :: 0 <= i < |cuts| ==> |cuts[i]| <= HEADER_SIZE
  }

  /** What becomes of the reader once a read has overfilled the header of `r`. */
  function Spoiled(ms: seq<Message>, r: Reader, cuts: seq<seq<byte>>): ReadResult
    requires |r.header + Joined(cuts)| >= HEADER_SIZE
  {
    if AllShort(cuts) then Returned(Ran(ms, r.(header := r.header + Joined(cuts))))
    else if ReadHeader(r.header + Joined(cuts)).None? then Returned(Stopped(ms, BadHeader))
    else Panicked
  }

  /** The reads up to the first that overfills the header give a reader with no segment open. */
  lemma {:induction false} MisfitMeans(c: Codec, r: Reader, cuts: seq<seq<byte>>)
    requires Sound(c) && Between(r) && !ReadsFit(c, r, cuts)
    ensures var k := Fitting(c, r, cuts);
            var o := Drive(c, r, Joined(cuts[..k]));
            && o.Ran? && o.reader.buffer == [] && Between(o.reader)
            && |cuts[k]| <= HEADER_SIZE < |o.reader.header| + |cuts[k]|
            && ReadsFit(c, r, cuts[..k])
    decreases |cuts|
  {
    var n := |cuts| - 1;
    var k := Fitting(c, r, cuts[..n]);
    if k < n {
      MisfitMeans(c, r, cuts[..n]);
      assert cuts[..n][..k] == cuts[..k];
    } else {
      DriveKeepsInvariant(c, r, Joined(cuts[..n]));
    }
  }

  lemma HeaderFromFront(d: seq<byte>, e: seq<byte>)
    requires |d| >= HEADER_SIZE
    ensures ReadHeader(d + e).None? <==> ReadHeader(d).None?
  {
  }

  /** One read more on a spoiled reader. */
  lemma SpoiledNext(c: Codec, ms: seq<Message>, r: Reader, cuts: seq<seq<byte>>, data: seq<byte>)
    requires Sound(c) && Between(r) && r.buffer == [] && |r.header + Joined(cuts)| > HEADER_SIZE
    ensures Joined(cuts + [data]) == Joined(cuts) + data
    ensures ReadNext(c, Spoiled(ms, r, cuts), data) == Spoiled(ms, r, cuts + [data])
  {
    JoinedSnoc(cuts, data);
    BytesAssociate(r.header, Joined(cuts), data);
    HeaderFromFront(r.header + Joined(cuts), data);
    assert AllShort(cuts + [data]) <==> AllShort(cuts) && |data| <= HEADER_SIZE by {
      assert (cuts + [data])[|cuts|] == data;
      assert forall i :: 0 <= i < |cuts| ==> (cuts + [data])[i] == cuts[i];
    }
    assert ms + [] == ms;
  }

  lemma ReadAllSnoc(c: Codec, r: Reader, cuts: seq<seq<byte>>)
    requires Sound(c) && Between(r) && cuts != []
    ensures ReadAll(c, r, cuts) == ReadNext(c, ReadAll(c, r, cuts[..|cuts| - 1]), cuts[|cuts| - 1])
  {
  }

  lemma JoinedOne(data: seq<byte>)
    ensures Joined([data]) == data
  {
    assert [data][..0] == [] && [] + data == data;
  }

  /** The read that overfills the header is only appended to it. */
  lemma MisfitIsHeld(c: Codec, ms: seq<Message>, r: Reader, data: seq<byte>)
    requires Sound(c) && Between(r) && r.buffer == [] && |data| <= HEADER_SIZE < |r.header| + |data|
    ensures Joined([data]) == data
    ensures ReadNext(c, Returned(Ran(ms, r)), data) == Spoiled(ms, r, [data])
  {
    JoinedOne(data);
    assert AllShort([data]);
    assert ms + [] == ms;
  }

  /** The outcome `o` of the first k reads is spoiled by those after it. */
  ghost predicate SpoiledFrom(c: Codec, r: Reader, cuts: seq<seq<byte>>, k: nat, o: Out)
    requires Sound(c) && Between(r) && k <= |cuts|
  {
    match o
    case Ran(ms, last) => |last.header + Joined(cuts[k..])| > HEADER_SIZE && ReadAll(c, r, cuts) == Spoiled(ms, last, cuts[k..])
    case Stopped(_, _) => false
  }

  lemma SpoiledFirst(c: Codec, r: Reader, cuts: seq<seq<byte>>, o: Out)
    requires Sound(c) && Between(r) && cuts != [] && o.Ran? && Between(o.reader) && o.reader.buffer == []
    requires ReadAll(c, r, cuts[..|cuts| - 1]) == Returned(o)
    requires |cuts[|cuts| - 1]| <= HEADER_SIZE < |o.reader.header| + |cuts[|cuts| - 1]|
    ensures SpoiledFrom(c, r, cuts, |cuts| - 1, o)
  {
    var n := |cuts| - 1;
    ReadAllSnoc(c, r, cuts);
    assert cuts[n..] == [cuts[n]];
    MisfitIsHeld(c, o.messages, o.reader, cuts[n]);
  }

  lemma SpoiledLater(c: Codec, r: Reader, cuts: seq<seq<byte>>, k: nat, o: Out)
    requires Sound(c) && Between(r) && k < |cuts| && o.Ran? && Between(o.reader) && o.reader.buffer == []
    requires SpoiledFrom(c, r, cuts[..|cuts| - 1], k, o)
    ensures SpoiledFrom(c, r, cuts, k, o)
  {
    var n := |cuts| - 1;
    ReadAllSnoc(c, r, cuts);
    assert cuts[k..] == cuts[..n][k..] + [cuts[n]];
    SpoiledNext(c, o.messages, o.reader, cuts[..n][k..], cuts[n]);
  }

  /** Every read after the one that overfills the header. */
  lemma {:induction false} SpoiledOn(c: Codec, r: Reader, cuts: seq<seq<byte>>, k: nat, o: Out)
    requires Sound(c) && Between(r) && k < |cuts| && ReadAll(c, r, cuts[..k]) == Returned(o)
    requires o.Ran? && Between(o.reader) && o.reader.buffer == []
    requires |cuts[k]| <= HEADER_SIZE < |o.reader.header| + |cuts[k]|
    ensures SpoiledFrom(c, r, cuts, k, o)
    decreases |cuts|
  {
    var n := |cuts| - 1;
    if k < n {
      assert cuts[..n][..k] == cuts[..k];
      SpoiledOn(c, r, cuts[..n], k, o);
      SpoiledLater(c, r, cuts, k, o);
    } else {
      SpoiledFirst(c, r, cuts, o);
    }
  }

  /** From the read that overfills the header on, every outcome is known. */
  lemma MisfitReads(c: Codec, r: Reader, cuts: seq<seq<byte>>)
    requires Sound(c) && Between(r) && !ReadsFit(c, r, cuts)
    ensures var k := Fitting(c, r, cuts); SpoiledFrom(c, r, cuts, k, Drive(c, r, Joined(cuts[..k])))
  {
    var k := Fitting(c, r, cuts);
    MisfitMeans(c, r, cuts);
    FittingReads(c, r, cuts[..k]);
    SpoiledOn(c, r, cuts, k, Drive(c, r, Joined(cuts[..k])));
  }

  /** The cutting is noticed late: the overfilled header is bad, and a longer read reports it. */
  predicate BadAnyway(c: Codec, r: Reader, cuts: seq<seq<byte>>)
    requires Sound(c) && Between(r)
  {
    var k := Fitting(c, r, cuts);
    var o := Drive(c, r, Joined(cuts[..k]));
    && o.Ran? && |o.reader.header + Joined(cuts[k..])| > HEADER_SIZE
    && !AllShort(cuts[k..]) && ReadHeader(o.reader.header + Joined(cuts[k..])).None?
  }

  /** A bad header ends the stream wherever its reads were cut. */
  lemma BadHeaderStops(c: Codec, r: Reader, data: seq<byte>)
    requires Sound(c) && Between(r) && r.buffer == [] && |r.header + data| > HEADER_SIZE && ReadHeader(r.header + data).None?
    ensures Drive(c, r, data) == Stopped([], BadHeader)
  {
  }

  /**
   Fragmentation: reading a stream cut by cut gives messages, error and state of its bytes exactly when
   no read overfills the header, or the header it overfills is a bad one that a longer read reports.
   */
  lemma CuttingDoesNotShow(c: Codec, r: Reader, cuts: seq<seq<byte>>)
    requires Sound(c) && Between(r)
    ensures ReadAll(c, r, cuts) == Returned(Drive(c, r, Joined(cuts))) <==>
            ReadsFit(c, r, cuts) || BadAnyway(c, r, cuts)
  {
    if ReadsFit(c, r, cuts) {
      FittingReads(c, r, cuts);
    } else {
      var k := Fitting(c, r, cuts);
      var o := Drive(c, r, Joined(cuts[..k]));
      MisfitMeans(c, r, cuts);
      MisfitReads(c, r, cuts);
      DriveKeepsInvariant(c, r, Joined(cuts));
      JoinedSplits(cuts, k);
      DriveSplits(c, r, Joined(cuts[..k]), Joined(cuts[k..]));
      if ReadHeader(o.reader.header + Joined(cuts[k..])).None? {
        BadHeaderStops(c, o.reader, Joined(cuts[k..]));
        assert o.messages + [] == o.messages;
      }
    }
  }

  /** On a stream without errors: exactly when no read overfills the header. */
  lemma GoodStreamInPieces(c: Codec, r: Reader, cuts: seq<seq<byte>>)
    requires Sound(c) && Between(r) && Drive(c, r, Joined(cuts)).Ran?
    ensures ReadAll(c, r, cuts) == Returned(Drive(c, r, Joined(cuts))) <==> ReadsFit(c, r, cuts)
  {
    CuttingDoesNotShow(c, r, cuts);
    if BadAnyway(c, r, cuts) && !ReadsFit(c, r, cuts) {
      MisfitReads(c, r, cuts);
    }
  }

  /** Any two cuttings of a stream whose reads fit give the same messages, error and state. */
  lemma CuttingsAgree(c: Codec, r: Reader, cuts: seq<seq<byte>>, cuts': seq<seq<byte>>)
    requires Sound(c) && Between(r) && Joined(cuts) == Joined(cuts')
    requires ReadsFit(c, r, cuts) && ReadsFit(c, r, cuts')
    ensures ReadAll(c, r, cuts) == ReadAll(c, r, cuts')
  {
    FittingReads(c, r, cuts);
    FittingReads(c, r, cuts');
  }

  /**
   Between error-free reads the buffer is empty or strictly shorter than announced, and at most a
   header is held exactly when the reads fit.
   */
  lemma ReadsKeepInvariant(c: Codec, r: Reader, cuts: seq<seq<byte>>)
    requires Sound(c) && Between(r) && ReadAll(c, r, cuts).Returned? && ReadAll(c, r, cuts).out.Ran?
    ensures var r' := ReadAll(c, r, cuts).out.reader;
            && (r'.buffer != [] ==> |r'.buffer| < r'.length)
            && (|r'.header| <= HEADER_SIZE <==> ReadsFit(c, r, cuts))
  {
    if ReadsFit(c, r, cuts) {
      FittingReads(c, r, cuts);
      DriveKeepsInvariant(c, r, Joined(cuts));
    } else {
      MisfitMeans(c, r, cuts);
      MisfitReads(c, r, cuts);
    }
  }

  /** A stream that only comes in short reads is never read: all of it is held for a header. */
  lemma {:induction false} ShortReadsYieldNothing(c: Codec, cuts: seq<seq<byte>>)
    requires Sound(c) && AllShort(cuts)
    ensures ReadAll(c, FRESH, cuts) == Returned(Ran([], FRESH.(header := Joined(cuts))))
    ensures ReadsFit(c, FRESH, cuts) <==> |Joined(cuts)| <= HEADER_SIZE
    decreases |cuts|
  {
    if cuts != [] {
      var n := |cuts| - 1;
      assert AllShort(cuts[..n]) && |cuts[n]| <= HEADER_SIZE;
      ShortReadsYieldNothing(c, cuts[..n]);
      assert Joined(cuts) == Joined(cuts[..n]) + cuts[n];
    }
    ReadsKeepInvariant(c, FRESH, cuts);
  }

  // ------------------------------------------------------ block batches

  /** Parsing a batch buffer in two steps is parsing it at once, as long as the batch has not ended. */
  lemma {:induction false} BlocksAppend(c: Codec, a: seq<byte>, b: seq<byte>)
    requires SelfDelimiting(c.block)
    requires NextBlocks(c, a).Parsed? && !EndsBatch(NextBlocks(c, a).messages)
    ensures NextBlocks(c, a + b) == After(NextBlocks(c, a).messages, NextBlocks(c, NextBlocks(c, a).rest + b))
    decreases |a|
  {
    if a == [] {
      assert a + b == b && [] + b == b;
      AfterNothing(NextBlocks(c, b));
    } else if c.block(a).Partial? {
      AfterNothing(NextBlocks(c, a + b));
    } else {
      var n := c.block(a).size;
      LaterEnds(c, a);
      BlocksAppend(c, a[n..], b);
      BlockAppends(c, a, b);
    }
  }

  lemma BlockInFront(c: Codec, d: seq<byte>)
    requires SelfDelimiting(c.block) && StartsWith(d, 0x82, 0x04) && c.block(d).Whole?
    ensures var n := c.block(d).size;
            NextBlocks(c, d) == Prefixed(Message(BLOCK_FETCH, BLOCK, d[..n]), NextBlocks(c, d[n..]))
  {
  }

  /** A block message in front of a list does not change whether it ends a batch. */
  lemma EndsBehind(m: Message, ms: seq<Message>)
    requires !m.IsBatchDone()
    ensures EndsBatch([m] + ms) == EndsBatch(ms)
  {
    assert ([m] + ms)[|ms|] == if ms == [] then m else ms[|ms| - 1];
  }

  /** With a whole block in front, the batch ends in a exactly when it ends behind that block. */
  lemma LaterEnds(c: Codec, a: seq<byte>)
    requires SelfDelimiting(c.block) && StartsWith(a, 0x82, 0x04) && c.block(a).Whole? && NextBlocks(c, a).Parsed?
    ensures NextBlocks(c, a[c.block(a).size..]).Parsed?
    ensures EndsBatch(NextBlocks(c, a).messages) == EndsBatch(NextBlocks(c, a[c.block(a).size..]).messages)
  {
    var n := c.block(a).size;
    BlockInFront(c, a);
    EndsBehind(Message(BLOCK_FETCH, BLOCK, a[..n]), NextBlocks(c, a[n..]).messages);
  }

  /** More bytes behind a whole block are bytes behind what follows it. */
  lemma BlockInFrontOf(c: Codec, a: seq<byte>, b: seq<byte>)
    requires SelfDelimiting(c.block) && StartsWith(a, 0x82, 0x04) && c.block(a).Whole?
    ensures var n := c.block(a).size;
            NextBlocks(c, a + b) == Prefixed(Message(BLOCK_FETCH, BLOCK, a[..n]), NextBlocks(c, a[n..] + b))
  {
    var n := c.block(a).size;
    assert StableAt(c.block, a, b);
    assert (a + b)[n..] == a[n..] + b && (a + b)[..n] == a[..n];
    BlockInFront(c, a + b);
  }

  lemma BlockAppends(c: Codec, a: seq<byte>, b: seq<byte>)
    requires SelfDelimiting(c.block) && StartsWith(a, 0x82, 0x04) && c.block(a).Whole? && NextBlocks(c, a).Parsed?
    requires var p := NextBlocks(c, a[c.block(a).size..]);
             p.Parsed? && NextBlocks(c, a[c.block(a).size..] + b) == After(p.messages, NextBlocks(c, p.rest + b))
    ensures NextBlocks(c, a + b) == After(NextBlocks(c, a).messages, NextBlocks(c, NextBlocks(c, a).rest + b))
  {
    var n := c.block(a).size;
    var p := NextBlocks(c, a[n..]);
    BlockInFront(c, a);
    BlockInFrontOf(c, a, b);
    AfterTwice(Message(BLOCK_FETCH, BLOCK, a[..n]), p.messages, NextBlocks(c, p.rest + b));
  }

  lemma AfterNothing(p: Parsed)
    ensures After([], p) == p
  {
  }

  lemma AfterTwice(m: Message, ms: seq<Message>, p: Parsed)
    ensures Prefixed(m, After(ms, p)) == After([m] + ms, p)
  {
    if p.Parsed? { assert [m] + (ms + p.messages) == [m] + ms + p.messages; }
  }

  /** More bytes behind the end of a batch change nothing. */
  lemma {:induction false} EndStays(c: Codec, a: seq<byte>, b: seq<byte>)
    requires SelfDelimiting(c.block) && NextBlocks(c, a).Parsed? && EndsBatch(NextBlocks(c, a).messages)
    ensures NextBlocks(c, a + b) == NextBlocks(c, a)
    decreases |a|
  {
    if !StartsWith(a, 0x81, 0x05) && c.block(a).Whole? {
      LaterEnds(c, a);
      EndStays(c, a[c.block(a).size..], b);
      BlockInFront(c, a);
      BlockInFrontOf(c, a, b);
    }
  }

  /** A BatchDone ends the parse with nothing left: the error for left-over bytes cannot occur. */
  lemma {:induction false} BatchDoneLeavesNothing(c: Codec, data: seq<byte>)
    requires SelfDelimiting(c.block) && NextBlocks(c, data).Parsed? && EndsBatch(NextBlocks(c, data).messages)
    ensures NextBlocks(c, data).rest == []
    decreases |data|
  {
    if data != [] && !StartsWith(data, 0x81, 0x05) && c.block(data).Whole? {
      var n := c.block(data).size;
      LaterEnds(c, data);
      BatchDoneLeavesNothing(c, data[n..]);
    }
  }

  /** Position p of a batch body is where an item starts. */
  predicate ItemStart(c: Codec, body: seq<byte>, p: nat)
    requires SelfDelimiting(c.block)
    decreases |body|
  {
    p == 0 ||
    (StartsWith(body, 0x82, 0x04) && c.block(body).Whole? && c.block(body).size <= p &&
     ItemStart(c, body[c.block(body).size..], p - c.block(body).size))
  }

  /**
   A prefix of a well-formed batch body fails to parse exactly when its last byte is the lone first
   byte of an item.
   */
  lemma {:induction false} PrefixFailsAtLoneByte(c: Codec, a: seq<byte>, b: seq<byte>)
    requires SelfDelimiting(c.block) && NextBlocks(c, a + b).Parsed?
    ensures NextBlocks(c, a).Failed? <==> a != [] && ItemStart(c, a + b, |a| - 1)
    decreases |a|
  {
    if StartsWith(a, 0x82, 0x04) {
      assert StableAt(c.block, a, b);
      WholeInPrefix(c.block, a, b);
      if c.block(a).Whole? {
        var n := c.block(a).size;
        assert (a + b)[n..] == a[n..] + b;
        PrefixFailsAtLoneByte(c, a[n..], b);
      }
    }
  }

  /** An item that fits in a prefix is decoded from the prefix. */
  lemma WholeInPrefix(decode: seq<byte> -> Item, a: seq<byte>, b: seq<byte>)
    requires SelfDelimiting(decode)
    ensures decode(a + b).Whole? && decode(a + b).size <= |a| ==> decode(a) == decode(a + b)
  {
    if decode(a + b).Whole? && decode(a + b).size <= |a| {
      var n := decode(a + b).size;
      assert (a + b)[..n] == a[..n];
      assert a[..n] + a[n..] == a;
      assert AloneAt(decode, a + b) && StableAt(decode, a[..n], a[n..]);
    }
  }

  /** The batch buffer fed segment by segment, until the batch ends. */
  function Feed(c: Codec, buffer: seq<byte>, segments: seq<seq<byte>>): Parsed
    requires SelfDelimiting(c.block)
  {
    if segments == [] then Parsed([], buffer) else
      var before := Feed(c, buffer, segments[..|segments| - 1]);
      if before.Failed? || EndsBatch(before.messages) then before
      else After(before.messages, NextBlocks(c, before.rest + segments[|segments| - 1]))
  }

  /** The bytes up to a cut do not end in the lone first byte of an item of the body. */
  predicate NoLoneByte(c: Codec, body: seq<byte>, a: seq<byte>)
    requires SelfDelimiting(c.block)
  {
    a != [] ==> !ItemStart(c, body, |a| - 1)
  }

  /** The batch has not ended in these bytes. */
  predicate Open(c: Codec, a: seq<byte>)
    requires SelfDelimiting(c.block)
  {
    NextBlocks(c, a).Parsed? ==> !EndsBatch(NextBlocks(c, a).messages)
  }

  /** Buffer and segments up to a cut. */
  function UpTo(buffer: seq<byte>, segments: seq<seq<byte>>, k: nat): seq<byte>
    requires k <= |segments|
  {
    buffer + Joined(segments[..k])
  }

  /** No inner cut of the segments leaves a lone first byte of an item. */
  ghost predicate NoLoneBytes(c: Codec, buffer: seq<byte>, segments: seq<seq<byte>>)
    requires SelfDelimiting(c.block)
  {
    forall k :: 0 < k < |segments| ==> NoLoneByte(c, buffer + Joined(segments), UpTo(buffer, segments, k))
  }

  /** One of the first k cuts leaves a lone byte. */
  ghost predicate LoneByteUpTo(c: Codec, buffer: seq<byte>, segments: seq<seq<byte>>, k: nat)
    requires SelfDelimiting(c.block) && k <= |segments|
  {
    exists j :: 0 < j <= k && !NoLoneByte(c, buffer + Joined(segments), UpTo(buffer, segments, j))
  }

  lemma BytesAssociate(a: seq<byte>, b: seq<byte>, d: seq<byte>)
    ensures a + b + d == a + (b + d)
  {
  }

  /** A front of a body that parses fails exactly at a lone byte. */
  lemma FrontFails(c: Codec, buffer: seq<byte>, segments: seq<seq<byte>>, k: nat)
    requires SelfDelimiting(c.block) && NextBlocks(c, buffer + Joined(segments)).Parsed? && k <= |segments|
    ensures NextBlocks(c, UpTo(buffer, segments, k)).Failed? <==>
            !NoLoneByte(c, buffer + Joined(segments), UpTo(buffer, segments, k))
  {
    JoinedSplits(segments, k);
    BytesAssociate(buffer, Joined(segments[..k]), Joined(segments[k..]));
    PrefixFailsAtLoneByte(c, UpTo(buffer, segments, k), Joined(segments[k..]));
  }

  /** The feed after k segments: failed if a cut has left a lone byte, else as parsing its bytes at once. */
  ghost predicate FedRight(c: Codec, buffer: seq<byte>, segments: seq<seq<byte>>, k: nat)
    requires SelfDelimiting(c.block) && k <= |segments|
  {
    match Feed(c, buffer, segments[..k])
    case Failed(_) => LoneByteUpTo(c, buffer, segments, k)
    case Parsed(ms, rest) => !LoneByteUpTo(c, buffer, segments, k) && NextBlocks(c, UpTo(buffer, segments, k)) == Parsed(ms, rest)
  }

  lemma {:induction false} FedUpTo(c: Codec, buffer: seq<byte>, segments: seq<seq<byte>>, k: nat)
    requires SelfDelimiting(c.block) && NextBlocks(c, buffer + Joined(segments)).Parsed? && 0 < k <= |segments|
    ensures FedRight(c, buffer, segments, k)
  {
    if k == 1 {
      FedFirst(c, buffer, segments);
    } else {
      FedUpTo(c, buffer, segments, k - 1);
      FedNext(c, buffer, segments, k);
    }
  }

  lemma FedFirst(c: Codec, buffer: seq<byte>, segments: seq<seq<byte>>)
    requires SelfDelimiting(c.block) && NextBlocks(c, buffer + Joined(segments)).Parsed? && segments != []
    ensures FedRight(c, buffer, segments, 1)
  {
    FrontFails(c, buffer, segments, 1);
    LoneByteSnoc(c, buffer, segments, 1);
    assert Joined(segments[..1]) == segments[0];
    AfterNothing(NextBlocks(c, buffer + segments[0]));
  }

  lemma FedNext(c: Codec, buffer: seq<byte>, segments: seq<seq<byte>>, k: nat)
    requires SelfDelimiting(c.block) && NextBlocks(c, buffer + Joined(segments)).Parsed? && 1 < k <= |segments|
    requires FedRight(c, buffer, segments, k - 1)
    ensures FedRight(c, buffer, segments, k)
  {
    FrontFails(c, buffer, segments, k);
    LoneByteSnoc(c, buffer, segments, k);
    assert segments[..k][..k - 1] == segments[..k - 1];
    BytesAssociate(buffer, Joined(segments[..k - 1]), segments[k - 1]);
    FeedOnce(c, UpTo(buffer, segments, k - 1), segments[k - 1]);
  }

  lemma LoneByteSnoc(c: Codec, buffer: seq<byte>, segments: seq<seq<byte>>, k: nat)
    requires SelfDelimiting(c.block) && 0 < k <= |segments|
    ensures LoneByteUpTo(c, buffer, segments, k) <==>
            LoneByteUpTo(c, buffer, segments, k - 1) || !NoLoneByte(c, buffer + Joined(segments), UpTo(buffer, segments, k))
  {
  }

  /** Bytes that parse, and more of them, until the batch ends. */
  lemma FeedOnce(c: Codec, a: seq<byte>, b: seq<byte>)
    requires SelfDelimiting(c.block)
    ensures NextBlocks(c, a).Parsed? ==>
              NextBlocks(c, a + b) == if EndsBatch(NextBlocks(c, a).messages) then NextBlocks(c, a)
                                      else After(NextBlocks(c, a).messages, NextBlocks(c, NextBlocks(c, a).rest + b))
  {
    if NextBlocks(c, a).Parsed? {
      if EndsBatch(NextBlocks(c, a).messages) {
        EndStays(c, a, b);
      } else {
        BlocksAppend(c, a, b);
      }
    }
  }

  /**
   Feeding a batch body segment by segment yields the blocks and the left-over of parsing it at once,
   exactly when no cut leaves the lone first byte of an item; else it fails.
   */
  lemma FeedIsOneShot(c: Codec, buffer: seq<byte>, segments: seq<seq<byte>>)
    requires SelfDelimiting(c.block) && segments != [] && NextBlocks(c, buffer + Joined(segments)).Parsed?
    ensures var fed := Feed(c, buffer, segments);
            if NoLoneBytes(c, buffer, segments) then fed == NextBlocks(c, buffer + Joined(segments)) else fed.Failed?
  {
    assert segments[..|segments|] == segments;
    FedUpTo(c, buffer, segments, |segments|);
    FrontFails(c, buffer, segments, |segments|);
  }
}
