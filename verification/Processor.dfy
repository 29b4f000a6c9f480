/**
 The block processor: one batch, the drain loop, and the rollback handler, as methods on
 the database. Their contracts use the functions the run model is built from.
 */
module Processor {
  import opened Tables
  import opened Chain
  import opened ChainIndex
  import opened Database
  import opened Run
  import opened Draining
  import opened Wrappers

  datatype Outcome = Drained | Panicked | NoStart | FetchFailed | ChainBroken | TxsClashed | Committed

  class BlockProcessor {
    const db: SqliteDatabase
    const reorgWindow: nat
    var highestPoint: PointRef

    constructor (db: SqliteDatabase, reorgWindow: nat)
      ensures this.db == db && this.reorgWindow == reorgWindow
      ensures HighestIs(db.point, highestPoint)
    {
      this.db, this.reorgWindow := db, reorgWindow;
      var top := db.GetHighestPoint();
      highestPoint := if top.Some? then top.value else NO_POINT;
    }

    /** Height and hashes the next batch starts from. */
    method Start() returns (c: Option<Cursor>)
      ensures c.Some? ==> StartsAt(db.point, highestPoint, c.value)
      ensures c.None? ==> CannotStart(db.point, highestPoint)
    {
      var height := highestPoint.height;
      if highestPoint.hash != "" {
        height := height + 1;
      }
      if height == 0 {
        return Some(Cursor(0, "", ""));
      }
      var behind := db.GetBoundaryPointBehind(highestPoint.hash);
      c := if behind.NoRowBehind? then Some(Cursor(height, highestPoint.hash, "")) else None;
    }

    /** The loop over the fetched blocks: link check, heights, transaction references. */
    method LinkBlocks(cursor: Cursor, blocks: seq<Block>) returns (r: Batch, maxPoint: PointRef)
      ensures r == Pass(cursor, blocks)
      ensures r.Accepted? ==> maxPoint == if r.points == [] then NO_POINT else r.points[|r.points| - 1]
    {
      var height, prevHash, prevBoundaryHash := cursor.height, cursor.prevHash, cursor.prevBoundaryHash;
      var pointRefs: seq<PointRef>, txRefs: seq<TxRef> := [], [];
      maxPoint := NO_POINT;
      for n := 0 to |blocks|
        invariant Pass(cursor, blocks[..n]) == Accepted(Cursor(height, prevHash, prevBoundaryHash), pointRefs, txRefs)
        invariant maxPoint == if pointRefs == [] then NO_POINT else pointRefs[|pointRefs| - 1]
      {
        var block := blocks[n];
        assert blocks[..n + 1][..n] == blocks[..n];
        if height > 0 && block.kind != BOUNDARY && block.prevHash != prevHash && block.prevHash != prevBoundaryHash {
          BrokenStays(cursor, blocks, n + 1);
          return Broken, maxPoint;
        }
        ghost var before := txRefs;
        for j := 0 to |block.txs|
          invariant txRefs == before + BlockTxs(block, height)[..j]
        {
          assert BlockTxs(block, height)[..j + 1] == BlockTxs(block, height)[..j] + [TxRef(block.txs[j], height)];
          txRefs := txRefs + [TxRef(block.txs[j], height)];
        }
        assert BlockTxs(block, height)[..|block.txs|] == BlockTxs(block, height);
        maxPoint := PointRef(block.slot, block.hash, block.kind, height);
        pointRefs := pointRefs + [maxPoint];
        if block.kind == BOUNDARY {
          if height == 0 {
            height := 1;
          }
          prevBoundaryHash := block.hash;
        } else {
          height := height + 1;
          prevHash := block.hash;
        }
      }
      assert blocks[..|blocks|] == blocks;
      r := Accepted(Cursor(height, prevHash, prevBoundaryHash), pointRefs, txRefs);
    }

    /** One turn of the processing loop. `rows` and `cursor` tell what was read. */
    method ProcessBatch(fetch: Node)
      returns (outcome: Outcome, ghost rows: seq<PointRef>, ghost cursor: Cursor)
      modifies this`highestPoint, db
      ensures Turn(old(db.View()), old(highestPoint), fetch, reorgWindow, outcome, rows, cursor, db.View(), highestPoint)
      ensures |rows| - reorgWindow <= 10000
    {
      cursor := Cursor(0, "", "");
      var points := db.GetPointsForProcessing(BLOCK_BATCH_SIZE + reorgWindow);
      rows := points;
      if reorgWindow > 0 && |points| <= reorgWindow {
        return Drained, rows, cursor;
      }
      points := points[..|points| - reorgWindow];
      if points == [] {
        // the slice is indexed without a check
        return Panicked, rows, cursor;
      }
      var start := Start();
      if start.None? {
        return NoStart, rows, cursor;
      }
      cursor := start.value;
      assert points[0] == rows[0] && points[|points| - 1] == rows[|rows| - reorgWindow - 1];
      var fetched := fetch(points[0].Key(), points[|points| - 1].Key());
      if fetched.FetchError? {
        return FetchFailed, rows, cursor;
      }
      var batch, maxPoint := LinkBlocks(start.value, fetched.blocks);
      if batch.Broken? {
        return ChainBroken, rows, cursor;
      }
      outcome := Store(batch.points, batch.txs, maxPoint);
    }

    /** The two commits of a batch, heights first. */
    method Store(points: seq<PointRef>, txs: seq<TxRef>, maxPoint: PointRef) returns (outcome: Outcome)
      modifies this`highestPoint, db
      ensures outcome == if FreshTxs(old(db.tx), txs) then Committed else TxsClashed
      ensures db.View() == Tables(SetHeights(old(db.point), points), old(db.archive),
                                  if outcome.Committed? then InsertTxs(old(db.tx), txs) else old(db.tx))
      ensures highestPoint == if outcome.Committed? then maxPoint else old(highestPoint)
    {
      db.SetPointHeights(points);
      var ok := db.AddTxsForBlock(txs);
      if !ok {
        return TxsClashed;
      }
      highestPoint := maxPoint;
      outcome := Committed;
    }

    /**
     The drain loop, for a node whose ranges begin where they were asked to. `log` lists the turns
     that committed heights. When each of them got exactly the blocks of its rows, the loop has processed
     the oldest points only, and ends drained after ceil(max(0, U - w) / 10000) batches with min(U, w) rows
     left; with no window it panics then. When the node serves a chain that goes on from the indexed one
     and no two blocks share a slot at the edge of a batch, it does get there, and tables and cache are
     those of one big batch.
     */
    method ProcessBlocks(fetch: Node) returns (outcome: Outcome, batches: nat, ghost log: seq<Logged>)
      requires Honest(fetch)
      modifies this`highestPoint, db
      ensures outcome != Committed
      ensures Unprocessed(db.point) <= Unprocessed(old(db.point))
      ensures outcome.Panicked? ==> reorgWindow == 0 && Unprocessed(db.point) == {}
      ensures outcome.Drained? ==> reorgWindow > 0 && |Unprocessed(db.point)| <= reorgWindow
      ensures HashesIdentify(old(db.point)) && AllFull(fetch, reorgWindow, log) ==>
                forall j, k :: j in Unprocessed(old(db.point)) - Unprocessed(db.point) && k in Unprocessed(db.point) ==> j.slot <= k.slot
      ensures HashesIdentify(old(db.point)) && AllFull(fetch, reorgWindow, log) && outcome.Drained? ==>
                && var u := |Unprocessed(old(db.point))|;
                && |Unprocessed(db.point)| == (if u < reorgWindow then u else reorgWindow)
                && batches == CeilDiv(if u < reorgWindow then 0 else u - reorgWindow, 10000)
      ensures forall chain, lost, future ::
                Smooth(Setup(old(db.View()), old(highestPoint), chain, lost, future), fetch, reorgWindow) ==>
                  && outcome == (if reorgWindow > 0 then Drained else Panicked) && AllFull(fetch, reorgWindow, log)
                  && var end := Advanced(Setup(old(db.View()), old(highestPoint), chain, lost, future), Todo(future, reorgWindow));
                  && db.View() == end.t && highestPoint == end.cache
    {
      batches, log := 0, [];
      ghost var t0, cache0 := db.View(), highestPoint;
      while true
        invariant |log| == batches && Looping(t0, cache0, fetch, reorgWindow, log, db.View(), highestPoint)
        decreases |Unprocessed(db.point)|
      {
        ghost var t, cache := db.View(), highestPoint;
        ghost var rows, cursor;
        outcome, rows, cursor := ProcessBatch(fetch);
        ghost var turn := Logged(t, cache, rows, cursor);
        if outcome != Committed {
          LoopEnds(t0, cache0, fetch, reorgWindow, log, turn, outcome, db.View(), highestPoint);
          log := if outcome.TxsClashed? then log + [turn] else log;
          return;
        }
        LoopGoesOn(t0, cache0, fetch, reorgWindow, log, turn, db.View(), highestPoint);
        log := log + [turn];
        batches := batches + 1;
      }
    }

    /** Rolls the index back, and the cache with it if the query still finds a point. */
    method HandleRollback(rollbackSlot: nat) returns (ok: bool, ghost before: PointRef, ghost after: PointRef)
      modifies this`highestPoint, db
      ensures HighestIs(old(db.point), before) && HighestIs(RolledBack(old(db.View()), rollbackSlot).point, after)
      ensures ok <==> rollbackSlot < before.slot ==> !ArchiveClash(old(db.View()), rollbackSlot)
      ensures var rolls := rollbackSlot < before.slot && ok;
              && db.View() == (if rolls then RolledBack(old(db.View()), rollbackSlot) else old(db.View()))
              && highestPoint == (if rolls && after != NO_POINT then after else old(highestPoint))
    {
      ok := true;
      after := AnswerExists(RolledBack(db.View(), rollbackSlot).point);
      var top := db.GetHighestPoint();
      before := if top.Some? then top.value else NO_POINT;
      var highestSlot := if top.Some? then top.value.slot else 0;
      if rollbackSlot < highestSlot {
        ok := db.HandleRollback(rollbackSlot);
        if ok {
          var rollbackPoint := db.GetHighestPoint();
          after := if rollbackPoint.Some? then rollbackPoint.value else NO_POINT;
          if rollbackPoint.Some? {
            highestPoint := rollbackPoint.value;
          }
        }
      }
    }
  }

  /**
   One turn of the processing loop, from tables and cache to tables and cache, by its outcome. Only a
   commit, or a tx clash after the heights were committed, changes anything.
   */
  ghost predicate Turn(t: Tables, cache: PointRef, fetch: Node, window: nat,
                       outcome: Outcome, rows: seq<PointRef>, cursor: Cursor, t': Tables, cache': PointRef) {
    match outcome
    case Drained =>
      OldestFirst(t.point, BLOCK_BATCH_SIZE + window, rows) && 0 < window && |rows| <= window && t' == t && cache' == cache
    case Panicked =>
      OldestFirst(t.point, BLOCK_BATCH_SIZE + window, rows) && window == 0 && rows == [] && t' == t && cache' == cache
    case NoStart =>
      Takes(t, window, rows) && CannotStart(t.point, cache) && t' == t && cache' == cache
    case FetchFailed =>
      Takes(t, window, rows) && StartsAt(t.point, cache, cursor) && Requested(fetch, rows, window).FetchError? && t' == t && cache' == cache
    case ChainBroken =>
      && Takes(t, window, rows) && StartsAt(t.point, cache, cursor) && Requested(fetch, rows, window).Blocks?
      && Pass(cursor, Requested(fetch, rows, window).blocks).Broken? && t' == t && cache' == cache
    case TxsClashed =>
      && Takes(t, window, rows) && StartsAt(t.point, cache, cursor) && Requested(fetch, rows, window).Blocks?
      && var batch := Pass(cursor, Requested(fetch, rows, window).blocks);
      && batch.Accepted? && !FreshTxs(t.tx, batch.txs)
      && t' == Tables(SetHeights(t.point, batch.points), t.archive, t.tx) && cache' == cache
    case Committed =>
      && Takes(t, window, rows) && StartsAt(t.point, cache, cursor) && Requested(fetch, rows, window).Blocks?
      && var batch := Pass(cursor, Requested(fetch, rows, window).blocks);
      && batch.Accepted? && FreshTxs(t.tx, batch.txs)
      && t' == Tables(SetHeights(t.point, batch.points), t.archive, InsertTxs(t.tx, batch.txs))
      && cache' == (if batch.points == [] then NO_POINT else batch.points[|batch.points| - 1])
  }

  /** The turn reads more rows than the window holds. */
  ghost predicate Takes(t: Tables, window: nat, rows: seq<PointRef>) {
    OldestFirst(t.point, BLOCK_BATCH_SIZE + window, rows) && window < |rows|
  }

  /** Before a turn: tables and cache, and what the turn read. */
  datatype Logged = Logged(t: Tables, cache: PointRef, rows: seq<PointRef>, cursor: Cursor)

  /** The turn got exactly the blocks of the rows it took. */
  ghost predicate Full(fetch: Node, window: nat, rows: seq<PointRef>)
    requires window < |rows|
  {
    match Requested(fetch, rows, window)
    case FetchError => false
    case Blocks(blocks) => KeysOf(blocks) == Keys(rows[..|rows| - window])
  }

  ghost predicate AllFull(fetch: Node, window: nat, log: seq<Logged>)
    decreases |log|
  {
    log == [] ||
    (window < |log[|log| - 1].rows| && Full(fetch, window, log[|log| - 1].rows) && AllFull(fetch, window, log[..|log| - 1]))
  }

  lemma FullSnoc(fetch: Node, window: nat, log: seq<Logged>, turn: Logged)
    ensures AllFull(fetch, window, log + [turn]) <==> AllFull(fetch, window, log) && window < |turn.rows| && Full(fetch, window, turn.rows)
  {
    assert (log + [turn])[..|log|] == log;
  }

  /** A turn never makes a row unprocessed, and a committed one processes the first row at least. */
  lemma TurnShrinks(turn: Logged, fetch: Node, window: nat, outcome: Outcome, t': Tables, cache': PointRef)
    requires Turn(turn.t, turn.cache, fetch, window, outcome, turn.rows, turn.cursor, t', cache') && Honest(fetch)
    ensures Unprocessed(t'.point) <= Unprocessed(turn.t.point)
    ensures outcome.Committed? ==> |Unprocessed(t'.point)| < |Unprocessed(turn.t.point)|
    ensures outcome in {Drained, Panicked} ==> |Unprocessed(t'.point)| <= window
    ensures outcome.Drained? ==> window > 0
    ensures outcome.Panicked? ==> window == 0
  {
    if outcome in {Committed, TxsClashed} {
      var blocks := Requested(fetch, turn.rows, window).blocks;
      PassMeans(turn.cursor, blocks);
      assert blocks[0].Key() == turn.rows[0].Key();
      FirstIsProcessed(turn.t.point, turn.rows[0].Key(), blocks, turn.cursor.height);
    }
  }

  /** An empty range is committed as an empty batch: no row is processed and the cached point is forgotten. */
  lemma EmptyRangeChangesNothing(turn: Logged, fetch: Node, window: nat, outcome: Outcome, t': Tables, cache': PointRef)
    requires Turn(turn.t, turn.cache, fetch, window, outcome, turn.rows, turn.cursor, t', cache')
    requires window < |turn.rows| && Requested(fetch, turn.rows, window) == Blocks([]) && !outcome.NoStart?
    ensures outcome == Committed && t' == turn.t && cache' == NO_POINT
  {
    PassMeans(turn.cursor, []);
    assert RefsFrom(turn.cursor.height, []) == [] && TxsFrom(turn.cursor.height, []) == [];
  }

  lemma FirstIsProcessed(point: map<PointKey, Row>, k: PointKey, blocks: seq<Block>, h0: nat)
    requires k in Unprocessed(point) && blocks != [] && blocks[0].Key() == k
    ensures var after := SetHeights(point, RefsFrom(h0, blocks));
            Unprocessed(after) <= Unprocessed(point) - {k} && |Unprocessed(after)| < |Unprocessed(point)|
  {
    var after := SetHeights(point, RefsFrom(h0, blocks));
    SetHeightsFrame(point, RefsFrom(h0, blocks));
    forall j | j in Unprocessed(after) ensures j in Unprocessed(point) { OnlyShrinks(point, RefsFrom(h0, blocks), j); }
    NamedIsProcessed(point, RefsFrom(h0, blocks), 0, k);
    SmallerSet(Unprocessed(after), Unprocessed(point), k);
  }

  lemma SmallerSet(a: set<PointKey>, b: set<PointKey>, k: PointKey)
    requires a <= b && k in b && k !in a
    ensures |a| < |b|
  {
    assert |b - a| == |b| - |a| && k in b - a;
  }

  lemma {:induction false} OnlyShrinks(point: map<PointKey, Row>, refs: seq<PointRef>, j: PointKey)
    requires j in Unprocessed(SetHeights(point, refs))
    ensures j in Unprocessed(point)
  {
    if refs != [] { OnlyShrinks(point, refs[..|refs| - 1], j); }
  }

  /** What a turn that got the blocks of its rows does to the count of unprocessed rows. */
  lemma TurnCounts(turn: Logged, fetch: Node, window: nat, outcome: Outcome, t': Tables, cache': PointRef,
                   start: set<PointKey>, batches: nat)
    requires Turn(turn.t, turn.cache, fetch, window, outcome, turn.rows, turn.cursor, t', cache')
    requires OnTrack(turn.t.point, start, window, batches)
    ensures outcome in {Committed, TxsClashed} && window < |turn.rows| && Full(fetch, window, turn.rows) ==> OnTrack(t'.point, start, window, batches + 1)
    ensures outcome !in {Committed, TxsClashed} ==> OnTrack(t'.point, start, window, batches)
  {
    if outcome in {Committed, TxsClashed} && window < |turn.rows| && Full(fetch, window, turn.rows) {
      CommitCounts(turn, fetch, window, t'.point, start, batches);
    }
  }

  lemma CommitCounts(turn: Logged, fetch: Node, window: nat, after: map<PointKey, Row>, start: set<PointKey>, batches: nat)
    requires Takes(turn.t, window, turn.rows) && Full(fetch, window, turn.rows)
    requires var batch := Pass(turn.cursor, Requested(fetch, turn.rows, window).blocks);
             batch.Accepted? && after == SetHeights(turn.t.point, batch.points)
    requires OnTrack(turn.t.point, start, window, batches)
    ensures OnTrack(after, start, window, batches + 1)
  {
    TurnProgress(start, turn.t.point, after, window, batches, turn.rows, turn.cursor,
                 Requested(fetch, turn.rows, window).blocks);
  }

  /** What the drain has processed when each of its turns got the blocks of its rows. */
  lemma DrainEnds(point0: map<PointKey, Row>, point: map<PointKey, Row>, start: set<PointKey>, fetch: Node, window: nat,
                  batches: nat, log: seq<Logged>, turn: Logged, outcome: Outcome)
    requires outcome != Committed && (outcome.Drained? ==> |Unprocessed(point)| <= window)
    requires HashesIdentify(point0) && AllFull(fetch, window, log) ==>
               if outcome.TxsClashed? then window < |turn.rows| && Full(fetch, window, turn.rows) ==> OnTrack(point, start, window, batches + 1)
               else OnTrack(point, start, window, batches)
    ensures var all := if outcome.TxsClashed? then log + [turn] else log;
            HashesIdentify(point0) && AllFull(fetch, window, all) ==>
              && (forall j, k :: j in start - Unprocessed(point) && k in Unprocessed(point) ==> j.slot <= k.slot)
              && (outcome.Drained? ==>
                    && |Unprocessed(point)| == (if |start| < window then |start| else window)
                    && batches == CeilDiv(if |start| < window then 0 else |start| - window, BLOCK_BATCH_SIZE))
  {
    FullSnoc(fetch, window, log, turn);
    if outcome.Drained? && HashesIdentify(point0) && AllFull(fetch, window, log) {
      DrainCount(start, Unprocessed(point), window, batches);
    }
  }

  /** What the drain loop keeps. */
  ghost predicate Looping(t0: Tables, cache0: PointRef, fetch: Node, window: nat, log: seq<Logged>, t: Tables, cache: PointRef) {
    match t0
    case Tables(point0, _, _) =>
      && Unprocessed(t.point) <= Unprocessed(point0)
      && (HashesIdentify(point0) && AllFull(fetch, window, log) ==> OnTrack(t.point, Unprocessed(point0), window, |log|))
      && Turns(t0, cache0, fetch, window, log, t, cache)
  }

  lemma LoopGoesOn(t0: Tables, cache0: PointRef, fetch: Node, window: nat, log: seq<Logged>, turn: Logged, t': Tables, cache': PointRef)
    requires Looping(t0, cache0, fetch, window, log, turn.t, turn.cache) && Honest(fetch)
    requires Turn(turn.t, turn.cache, fetch, window, Committed, turn.rows, turn.cursor, t', cache')
    ensures Looping(t0, cache0, fetch, window, log + [turn], t', cache')
    ensures |Unprocessed(t'.point)| < |Unprocessed(turn.t.point)|
  {
    TurnShrinks(turn, fetch, window, Committed, t', cache');
    FullSnoc(fetch, window, log, turn);
    if HashesIdentify(t0.point) && AllFull(fetch, window, log) {
      TurnCounts(turn, fetch, window, Committed, t', cache', Unprocessed(t0.point), |log|);
    }
    assert (log + [turn])[..|log|] == log;
  }

  /** The drain loop as a whole. */
  lemma LoopEnds(t0: Tables, cache0: PointRef, fetch: Node, window: nat, log: seq<Logged>,
                 turn: Logged, outcome: Outcome, t': Tables, cache': PointRef)
    requires Looping(t0, cache0, fetch, window, log, turn.t, turn.cache) && Honest(fetch) && outcome != Committed
    requires Turn(turn.t, turn.cache, fetch, window, outcome, turn.rows, turn.cursor, t', cache')
    ensures Unprocessed(t'.point) <= Unprocessed(t0.point)
    ensures outcome.Panicked? ==> window == 0 && Unprocessed(t'.point) == {}
    ensures outcome.Drained? ==> window > 0 && |Unprocessed(t'.point)| <= window
    ensures var all := if outcome.TxsClashed? then log + [turn] else log;
            HashesIdentify(t0.point) && AllFull(fetch, window, all) ==>
              && (forall j, k :: j in Unprocessed(t0.point) - Unprocessed(t'.point) && k in Unprocessed(t'.point) ==> j.slot <= k.slot)
              && (outcome.Drained? ==>
                    && var u := |Unprocessed(t0.point)|;
                    && |Unprocessed(t'.point)| == (if u < window then u else window)
                    && |log| == CeilDiv(if u < window then 0 else u - window, BLOCK_BATCH_SIZE))
    ensures forall chain, lost, future ::
              Smooth(Setup(t0, cache0, chain, lost, future), fetch, window) ==>
                && outcome == (if window > 0 then Drained else Panicked) && AllFull(fetch, window, log)
                && var end := Advanced(Setup(t0, cache0, chain, lost, future), Todo(future, window));
                && t' == end.t && cache' == end.cache
  {
    TurnShrinks(turn, fetch, window, outcome, t', cache');
    if HashesIdentify(t0.point) && AllFull(fetch, window, log) {
      TurnCounts(turn, fetch, window, outcome, t', cache', Unprocessed(t0.point), |log|);
    }
    DrainIsOneBatch(t0, cache0, fetch, window, log, turn, outcome, t', cache');
    DrainEnds(t0.point, t'.point, Unprocessed(t0.point), fetch, window, |log|, log, turn, outcome);
  }

  /** With no more blocks than the window holds a turn finds nothing to do. */
  lemma IdleTurn(s: Setup, fetch: Node, window: nat, outcome: Outcome,
                 rows: seq<PointRef>, cursor: Cursor, t': Tables, cache': PointRef)
    requires Smooth(s, fetch, window) && Turn(s.t, s.cache, fetch, window, outcome, rows, cursor, t', cache')
    requires |s.future| <= window
    ensures outcome == (if window > 0 then Drained else Panicked) && t' == s.t && cache' == s.cache
  {
    NothingToDo(s, fetch, window, rows);
  }

  /** The turn commits the next batch of the setup. */
  ghost predicate CommitsNext(s: Setup, window: nat, outcome: Outcome, t': Tables, cache': PointRef) {
    && outcome == Committed && BatchLength(s.future, window) <= |s.future|
    && t' == Advanced(s, BatchLength(s.future, window)).t
    && cache' == Advanced(s, BatchLength(s.future, window)).cache
  }

  lemma RightTurn(s: Setup, fetch: Node, window: nat, outcome: Outcome,
                  rows: seq<PointRef>, cursor: Cursor, t': Tables, cache': PointRef)
    requires Ready(s, fetch, window) && Turn(s.t, s.cache, fetch, window, outcome, rows, cursor, t', cache')
    requires |s.future| > window && |rows| - window == BatchLength(s.future, window) && EdgesRight(s.future, window, rows)
    ensures CommitsNext(s, window, outcome, t', cache') && window < |rows| && Full(fetch, window, rows)
  {
    var n := BatchLength(s.future, window);
    TurnReads(s, fetch, window, rows);
    TurnStarts(s.t, s.chain, s.lost);
    BatchEndsRegular(s.future, window);
    TurnPasses(s, n);
    TurnWorks(s, fetch, window, outcome, rows, cursor, t', cache', s.future[..n]);
  }

  /** A turn whose batch can start, is served, accepted and free of clashes commits it. */
  lemma TurnWorks(s: Setup, fetch: Node, window: nat, outcome: Outcome,
                  rows: seq<PointRef>, cursor: Cursor, t': Tables, cache': PointRef, blocks: seq<Block>)
    requires Turn(s.t, s.cache, fetch, window, outcome, rows, cursor, t', cache')
    requires window < |rows| && Requested(fetch, rows, window) == Blocks(blocks) && !CannotStart(s.t.point, s.cache)
    requires forall c :: StartsAt(s.t.point, s.cache, c) ==> c == CursorAfter(s.chain)
    requires var batch := Pass(CursorAfter(s.chain), blocks); batch.Accepted? && FreshTxs(s.t.tx, batch.txs)
    ensures var batch := Pass(CursorAfter(s.chain), blocks);
            && outcome == Committed
            && t' == Tables(SetHeights(s.t.point, batch.points), s.t.archive, InsertTxs(s.t.tx, batch.txs))
            && cache' == (if batch.points == [] then NO_POINT else batch.points[|batch.points| - 1])
  {
  }

  /** The blocks served between two positions of the batch leave out its edge. */
  lemma EdgeIsMissing(future: seq<Block>, n: nat, i: nat, j: nat) returns (k: PointKey)
    requires i < n <= |future| && j < n && (i > 0 || j < n - 1)
    requires forall a, b :: 0 <= a < b < |future| ==> future[a].Key() != future[b].Key()
    ensures k in KeysOf(future[..n]) && (i <= j ==> k !in KeysOf(future[i..j + 1]))
  {
    var e := if i > 0 then 0 else n - 1;
    k := future[e].Key();
    assert future[..n][e].Key() in KeysOf(future[..n]);
    if i <= j {
      var piece := future[i..j + 1];
      forall a | 0 <= a < |piece| ensures piece[a].Key() != k {
        assert piece[a] == future[i + a];
      }
    }
  }

  /** Asked for by other edges, the node leaves out a row of the batch, or sends nothing. */
  lemma LeavesOut(fetch: Node, future: seq<Block>, n: nat, i: nat, j: nat) returns (k: PointKey)
    requires Serves(fetch, future) && i < n <= |future| && j < n && (i > 0 || j < n - 1)
    requires forall a, b :: 0 <= a < b < |future| ==> future[a].Key() != future[b].Key()
    ensures k in KeysOf(future[..n])
    ensures var served := fetch(future[i].Key(), future[j].Key());
            served.Blocks? ==> k !in KeysOf(served.blocks) && KeysOf(served.blocks) <= KeysOf(future)
  {
    assert fetch(future[i].Key(), future[j].Key()) == Range(future, i, j);
    k := EdgeIsMissing(future, n, i, j);
    if i <= j { PieceKeys(future, i, j); }
  }

  lemma WrongRequest(point: map<PointKey, Row>, future: seq<Block>, fetch: Node, window: nat, rows: seq<PointRef>) returns (k: PointKey)
    requires Unprocessed(point) == KeysOf(future) && Ordered(future) && CutsRegular(future, window) && Serves(fetch, future)
    requires forall a, b :: 0 <= a < b < |future| ==> future[a].Key() != future[b].Key()
    requires OldestFirst(point, BLOCK_BATCH_SIZE + window, rows) && |future| > window
    requires |rows| - window == BatchLength(future, window) && !EdgesRight(future, window, rows)
    ensures k in KeysOf(future[..BatchLength(future, window)])
    ensures Requested(fetch, rows, window).Blocks? ==>
              var blocks := Requested(fetch, rows, window).blocks; k !in KeysOf(blocks) && KeysOf(blocks) <= KeysOf(future)
  {
    var i, j := WrongEdges(point, future, window, rows);
    k := LeavesOut(fetch, future, BatchLength(future, window), i, j);
  }

  lemma WrongEdges(point: map<PointKey, Row>, future: seq<Block>, window: nat, rows: seq<PointRef>) returns (i: nat, j: nat)
    requires Unprocessed(point) == KeysOf(future) && Ordered(future) && CutsRegular(future, window)
    requires forall a, b :: 0 <= a < b < |future| ==> future[a].Key() != future[b].Key()
    requires OldestFirst(point, BLOCK_BATCH_SIZE + window, rows) && |future| > window
    requires |rows| - window == BatchLength(future, window) && !EdgesRight(future, window, rows)
    ensures i < BatchLength(future, window) <= |future| && j < BatchLength(future, window) && (i > 0 || j < BatchLength(future, window) - 1)
    ensures rows[0].Key() == future[i].Key() && rows[BatchLength(future, window) - 1].Key() == future[j].Key()
  {
    var n := BatchLength(future, window);
    RowsArePrefix(point, future, window, rows);
    i := RowIsBlock(future, n, rows, 0);
    j := RowIsBlock(future, n, rows, n - 1);
  }

  lemma PieceKeys(future: seq<Block>, i: nat, j: nat)
    requires i <= j < |future|
    ensures KeysOf(future[i..j + 1]) <= KeysOf(future)
  {
    var piece := future[i..j + 1];
    forall a | 0 <= a < |piece| ensures piece[a].Key() in KeysOf(future) {
      assert piece[a] == future[i + a];
    }
  }

  lemma WrongTurn(s: Setup, fetch: Node, window: nat, outcome: Outcome,
                  rows: seq<PointRef>, cursor: Cursor, t': Tables, cache': PointRef)
    requires Ready(s, fetch, window) && Turn(s.t, s.cache, fetch, window, outcome, rows, cursor, t', cache')
    requires |s.future| > window && |rows| - window == BatchLength(s.future, window) && !EdgesRight(s.future, window, rows)
    ensures !CommitsNext(s, window, outcome, t', cache')
  {
    if outcome == Committed {
      var n := BatchLength(s.future, window);
      var k := WrongRequest(s.t.point, s.future, fetch, window, rows);
      MissingStays(s.t.point, s.future, n, k, Requested(fetch, rows, window).blocks, cursor);
      NextIsProcessed(s, fetch, window, k);
    }
  }

  lemma NextIsProcessed(s: Setup, fetch: Node, window: nat, k: PointKey)
    requires Ready(s, fetch, window) && |s.future| > window && k in KeysOf(s.future[..BatchLength(s.future, window)])
    ensures BatchLength(s.future, window) <= |s.future|
    ensures k !in Unprocessed(Advanced(s, BatchLength(s.future, window)).t.point)
  {
    ReadyAfter(s, fetch, window);
    NotInRest(s.future, BatchLength(s.future, window), k);
  }

  lemma NotInRest(future: seq<Block>, n: nat, k: PointKey)
    requires n <= |future| && k in KeysOf(future[..n])
    requires forall a, b :: 0 <= a < b < |future| ==> future[a].Key() != future[b].Key()
    ensures k !in KeysOf(future[n..])
  {
    var a :| 0 <= a < n && future[..n][a].Key() == k;
    forall b | 0 <= b < |future| - n ensures future[n..][b].Key() != k {
      assert future[n..][b] == future[n + b];
    }
  }

  /** A row the served blocks leave out stays unprocessed. */
  lemma MissingStays(point: map<PointKey, Row>, future: seq<Block>, n: nat, k: PointKey, blocks: seq<Block>, cursor: Cursor)
    requires HashesIdentify(point) && Unprocessed(point) == KeysOf(future) && n <= |future| && k in KeysOf(future[..n])
    requires KeysOf(blocks) <= KeysOf(future) && k !in KeysOf(blocks) && Pass(cursor, blocks).Accepted?
    ensures k in Unprocessed(SetHeights(point, Pass(cursor, blocks).points))
  {
    PrefixKeysOf(future, n, k);
    PassMeans(cursor, blocks);
    ShrinksAt(point, blocks, cursor.height, k);
    SetHeightsFrame(point, RefsFrom(cursor.height, blocks));
  }

  /**
   A turn on a ready setup commits the next batch exactly when the first and the last row it takes are
   the first and the last block of that batch: these two are all the node is told.
   */
  lemma TurnCommitsIff(s: Setup, fetch: Node, window: nat, outcome: Outcome,
                       rows: seq<PointRef>, cursor: Cursor, t': Tables, cache': PointRef)
    requires Ready(s, fetch, window) && Turn(s.t, s.cache, fetch, window, outcome, rows, cursor, t', cache')
    requires |s.future| > window
    ensures |rows| - window == BatchLength(s.future, window)
    ensures CommitsNext(s, window, outcome, t', cache') <==> EdgesRight(s.future, window, rows)
  {
    RowsArePrefix(s.t.point, s.future, window, rows);
    if EdgesRight(s.future, window, rows) {
      RightTurn(s, fetch, window, outcome, rows, cursor, t', cache');
    } else {
      WrongTurn(s, fetch, window, outcome, rows, cursor, t', cache');
    }
  }

  /** A turn that takes rows and can start comes to an end. */
  lemma TurnExists(t: Tables, cache: PointRef, fetch: Node, window: nat, rows: seq<PointRef>, cursor: Cursor)
    returns (outcome: Outcome, t': Tables, cache': PointRef)
    requires Takes(t, window, rows) && StartsAt(t.point, cache, cursor)
    ensures Turn(t, cache, fetch, window, outcome, rows, cursor, t', cache')
  {
    t', cache' := t, cache;
    if Requested(fetch, rows, window).FetchError? {
      return FetchFailed, t', cache';
    }
    var batch := Pass(cursor, Requested(fetch, rows, window).blocks);
    if batch.Broken? {
      return ChainBroken, t', cache';
    }
    outcome := if FreshTxs(t.tx, batch.txs) then Committed else TxsClashed;
    t' := Tables(SetHeights(t.point, batch.points), t.archive, if outcome.Committed? then InsertTxs(t.tx, batch.txs) else t.tx);
    cache' := if outcome.TxsClashed? then cache else if batch.points == [] then NO_POINT else batch.points[|batch.points| - 1];
  }

  /** Every turn the database may answer commits the next batch exactly when no two blocks share a slot at its edges. */
  lemma AllTurnsCommitIff(s: Setup, fetch: Node, window: nat)
    requires Ready(s, fetch, window) && |s.future| > window
    ensures (forall outcome, rows, cursor, t', cache' ::
               Turn(s.t, s.cache, fetch, window, outcome, rows, cursor, t', cache') ==> CommitsNext(s, window, outcome, t', cache')) <==>
            ClearBatch(s.future, window)
  {
    if ClearBatch(s.future, window) {
      forall outcome, rows, cursor, t', cache' | Turn(s.t, s.cache, fetch, window, outcome, rows, cursor, t', cache')
        ensures CommitsNext(s, window, outcome, t', cache')
      {
        ClearIsRight(s.t.point, s.future, window, rows);
        TurnCommitsIff(s, fetch, window, outcome, rows, cursor, t', cache');
      }
    } else {
      var outcome, rows, cursor, t', cache' := WrongTurnExists(s, fetch, window);
    }
  }

  lemma WrongTurnExists(s: Setup, fetch: Node, window: nat)
    returns (outcome: Outcome, rows: seq<PointRef>, cursor: Cursor, t': Tables, cache': PointRef)
    requires Ready(s, fetch, window) && |s.future| > window && !ClearBatch(s.future, window)
    ensures Turn(s.t, s.cache, fetch, window, outcome, rows, cursor, t', cache') && !CommitsNext(s, window, outcome, t', cache')
  {
    rows := WrongRead(s.t.point, s.future, window);
    cursor := CursorAfter(s.chain);
    TurnStarts(s.t, s.chain, s.lost);
    outcome, t', cache' := TurnExists(s.t, s.cache, fetch, window, rows, cursor);
    TurnCommitsIff(s, fetch, window, outcome, rows, cursor, t', cache');
  }

  /** Without a tie at its edges the next batch is committed. */
  lemma ReadyTurn(s: Setup, fetch: Node, window: nat, outcome: Outcome,
                  rows: seq<PointRef>, cursor: Cursor, t': Tables, cache': PointRef)
    requires Smooth(s, fetch, window) && Turn(s.t, s.cache, fetch, window, outcome, rows, cursor, t', cache')
    requires |s.future| > window
    ensures CommitsNext(s, window, outcome, t', cache') && window < |rows| && Full(fetch, window, rows)
  {
    assert Ready(s, fetch, window);
    ClearFirst(s.future, window);
    ClearIsRight(s.t.point, s.future, window, rows);
    RightTurn(s, fetch, window, outcome, rows, cursor, t', cache');
  }

  /** The turn commits, and leaves these tables and this cache. */
  ghost predicate Commits(turn: Logged, fetch: Node, window: nat, t: Tables, cache: PointRef) {
    match turn
    case Logged(t0, cache0, rows, cursor) => Turn(t0, cache0, fetch, window, Committed, rows, cursor, t, cache)
  }

  /** The committed turns of a log lead from (t0, cache0) to (t, cache). */
  ghost predicate Turns(t0: Tables, cache0: PointRef, fetch: Node, window: nat,
                        log: seq<Logged>, t: Tables, cache: PointRef)
    decreases |log|
  {
    if log == [] then t == t0 && cache == cache0
    else
      var last := log[|log| - 1];
      && Turns(t0, cache0, fetch, window, log[..|log| - 1], last.t, last.cache)
      && Commits(last, fetch, window, t, cache)
  }

  /** Tables and cache are those of one big batch, of all blocks that this many batches hold. */
  ghost predicate Along(s: Setup, fetch: Node, window: nat, batches: nat, t: Tables, cache: PointRef) {
    match s
    case Setup(_, _, _, _, future) =>
      && Done(future, window, batches) <= |future|
      && var now := Advanced(s, Done(future, window, batches));
      && Smooth(now, fetch, window) && t == now.t && cache == now.cache
  }

  /** After the committed turns of a log, tables and cache are those of one big batch. */
  lemma {:induction false} TurnsGoAlong(s: Setup, fetch: Node, window: nat, log: seq<Logged>, t: Tables, cache: PointRef)
    requires Smooth(s, fetch, window) && Turns(s.t, s.cache, fetch, window, log, t, cache)
    ensures Along(s, fetch, window, |log|, t, cache)
    decreases |log|
  {
    if log == [] {
      NoneGone(s, fetch, window);
    } else {
      var last := log[|log| - 1];
      TurnsGoAlong(s, fetch, window, log[..|log| - 1], last.t, last.cache);
      GoOn(s, fetch, window, |log| - 1, last, t, cache);
    }
  }

  /** Each of them got exactly the blocks of its rows. */
  lemma {:induction false} TurnsAreFull(s: Setup, fetch: Node, window: nat, log: seq<Logged>, t: Tables, cache: PointRef)
    requires Smooth(s, fetch, window) && Turns(s.t, s.cache, fetch, window, log, t, cache)
    ensures AllFull(fetch, window, log)
    decreases |log|
  {
    if log != [] {
      var last := log[|log| - 1];
      TurnsAreFull(s, fetch, window, log[..|log| - 1], last.t, last.cache);
      TurnsGoAlong(s, fetch, window, log[..|log| - 1], last.t, last.cache);
      GoOn(s, fetch, window, |log| - 1, last, t, cache);
    }
  }

  lemma NoneGone(s: Setup, fetch: Node, window: nat)
    requires Smooth(s, fetch, window)
    ensures Along(s, fetch, window, 0, s.t, s.cache)
  {
    SmoothRegular(s, fetch, window);
    NotAdvanced(s);
  }

  /** One committed turn more. */
  lemma GoOn(s: Setup, fetch: Node, window: nat, n: nat, turn: Logged, t: Tables, cache: PointRef)
    requires Smooth(s, fetch, window) && Along(s, fetch, window, n, turn.t, turn.cache) && Commits(turn, fetch, window, t, cache)
    ensures Along(s, fetch, window, n + 1, t, cache) && window < |turn.rows| && Full(fetch, window, turn.rows)
  {
    var before := Advanced(s, Done(s.future, window, n));
    CommittedTurn(before, fetch, window, turn.rows, turn.cursor, t, cache);
    SmoothRegular(s, fetch, window);
    SmoothRegular(before, fetch, window);
    var now := NextSetup(s, before, window, n);
    SmoothAfter(before, fetch, window);
    StillAlong(s, now, fetch, window, n + 1);
  }

  /** A committed turn found more blocks than the window holds, and committed the next batch. */
  lemma CommittedTurn(s: Setup, fetch: Node, window: nat, rows: seq<PointRef>, cursor: Cursor, t': Tables, cache': PointRef)
    requires Smooth(s, fetch, window) && Turn(s.t, s.cache, fetch, window, Committed, rows, cursor, t', cache')
    ensures |s.future| > window && CommitsNext(s, window, Committed, t', cache') && window < |rows| && Full(fetch, window, rows)
  {
    if |s.future| <= window {
      IdleTurn(s, fetch, window, Committed, rows, cursor, t', cache');
      assert false;
    }
    ReadyTurn(s, fetch, window, Committed, rows, cursor, t', cache');
  }

  lemma StillAlong(s: Setup, now: Setup, fetch: Node, window: nat, n: nat)
    requires Done(s.future, window, n) <= |s.future| && now == Advanced(s, Done(s.future, window, n)) && Smooth(now, fetch, window)
    ensures Along(s, fetch, window, n, now.t, now.cache)
  {
  }

  lemma NextSetup(s: Setup, before: Setup, window: nat, n: nat) returns (now: Setup)
    requires Done(s.future, window, n) <= |s.future| && before == Advanced(s, Done(s.future, window, n))
    requires EndsRegular(s.chain) && EndsRegular(before.chain)
    ensures BatchLength(before.future, window) <= |before.future| && now == Advanced(before, BatchLength(before.future, window))
    ensures Done(s.future, window, n + 1) <= |s.future| && now == Advanced(s, Done(s.future, window, n + 1))
  {
    var d := Done(s.future, window, n);
    NextDone(s.future, window, n);
    assert before.chain == s.chain + s.future[..d] && before.future == s.future[d..];
    AdvancedTwice(s, d, BatchLength(before.future, window));
    now := Advanced(s, d + BatchLength(before.future, window));
  }

  /** The drain as a whole, for every chain the node may be serving. */
  lemma DrainIsOneBatch(t0: Tables, cache0: PointRef, fetch: Node, window: nat, log: seq<Logged>,
                        turn: Logged, outcome: Outcome, t': Tables, cache': PointRef)
    requires Turns(t0, cache0, fetch, window, log, turn.t, turn.cache) && outcome != Committed
    requires Turn(turn.t, turn.cache, fetch, window, outcome, turn.rows, turn.cursor, t', cache')
    ensures forall chain, lost, future ::
              Smooth(Setup(t0, cache0, chain, lost, future), fetch, window) ==>
                && outcome == (if window > 0 then Drained else Panicked) && AllFull(fetch, window, log)
                && var end := Advanced(Setup(t0, cache0, chain, lost, future), Todo(future, window));
                && t' == end.t && cache' == end.cache
  {
    forall chain, lost, future | Smooth(Setup(t0, cache0, chain, lost, future), fetch, window)
      ensures outcome == (if window > 0 then Drained else Panicked) && AllFull(fetch, window, log)
      ensures var end := Advanced(Setup(t0, cache0, chain, lost, future), Todo(future, window));
              t' == end.t && cache' == end.cache
    {
      var s := Setup(t0, cache0, chain, lost, future);
      TurnsGoAlong(s, fetch, window, log, turn.t, turn.cache);
      TurnsAreFull(s, fetch, window, log, turn.t, turn.cache);
      DrainStops(s, fetch, window, |log|, turn, outcome, t', cache');
    }
  }

  /** A turn that commits nothing finds all blocks behind the window done. */
  lemma DrainStops(s: Setup, fetch: Node, window: nat, n: nat, turn: Logged, outcome: Outcome, t': Tables, cache': PointRef)
    requires Along(s, fetch, window, n, turn.t, turn.cache) && outcome != Committed
    requires Turn(turn.t, turn.cache, fetch, window, outcome, turn.rows, turn.cursor, t', cache')
    ensures outcome == (if window > 0 then Drained else Panicked)
    ensures var end := Advanced(s, Todo(s.future, window)); t' == end.t && cache' == end.cache
  {
    var now := Advanced(s, Done(s.future, window, n));
    if |now.future| > window {
      ReadyTurn(now, fetch, window, outcome, turn.rows, turn.cursor, t', cache');
      assert false;
    }
    IdleTurn(now, fetch, window, outcome, turn.rows, turn.cursor, t', cache');
  }

  lemma AnswerExists(point: map<PointKey, Row>) returns (top: PointRef)
    ensures HighestIs(point, top)
  {
    if k :| HighestRow(point, k) {
      top := ToRef(point, k);
    } else {
      top := NO_POINT;
    }
  }

  /** Once the pass is broken it stays broken. */
  lemma {:induction false} BrokenStays(c: Cursor, blocks: seq<Block>, n: nat)
    requires n <= |blocks| && Pass(c, blocks[..n]) == Broken
    ensures Pass(c, blocks) == Broken
    decreases |blocks|
  {
    if n == |blocks| {
      assert blocks[..n] == blocks;
    } else {
      assert blocks[..|blocks| - 1][..n] == blocks[..n];
      BrokenStays(c, blocks[..|blocks| - 1], n);
    }
  }

  // ------------------------------------------------------ counting batches

  function CeilDiv(n: nat, d: nat): nat
    requires d > 0
  {
    (n + d - 1) / d
  }

  /** After some batches: which rows are left, and how many batches that took. */
  ghost predicate Progress(start: set<PointKey>, left: set<PointKey>, window: nat, batches: nat) {
    var done := |start| - |left|;
    && left <= start && 0 <= done <= (if |start| < window then 0 else |start| - window)
    && done <= BLOCK_BATCH_SIZE * batches && (batches > 0 ==> BLOCK_BATCH_SIZE * (batches - 1) < done)
    && (window < |left| ==> done == BLOCK_BATCH_SIZE * batches)
    && (forall j, k :: j in start - left && k in left ==> j.slot <= k.slot)
  }

  ghost predicate OnTrack(point: map<PointKey, Row>, start: set<PointKey>, window: nat, batches: nat) {
    HashesIdentify(point) && Progress(start, Unprocessed(point), window, batches)
  }

  /** A committed batch removes exactly the read points from the unprocessed rows. */
  lemma BatchShrinks(point: map<PointKey, Row>, window: nat, rows: seq<PointRef>, cursor: Cursor, blocks: seq<Block>)
    requires HashesIdentify(point) && OldestFirst(point, BLOCK_BATCH_SIZE + window, rows) && window < |rows|
    requires KeysOf(blocks) == Keys(rows[..|rows| - window]) && Pass(cursor, blocks).Accepted?
    ensures var after := SetHeights(point, Pass(cursor, blocks).points);
            && HashesIdentify(after)
            && Unprocessed(after) == Unprocessed(point) - Keys(rows[..|rows| - window])
  {
    PassMeans(cursor, blocks);
    var taken := Keys(rows[..|rows| - window]);
    SetHeightsFrame(point, RefsFrom(cursor.height, blocks));
    forall k | k in KeysOf(blocks) ensures k in Unprocessed(point) { TakenIsUnprocessed(point, window, rows, k); }
    forall k | k in point
      ensures k in Unprocessed(SetHeights(point, RefsFrom(cursor.height, blocks))) <==> k in Unprocessed(point) && k !in taken
    {
      ShrinksAt(point, blocks, cursor.height, k);
    }
  }

  lemma ShrinksAt(point: map<PointKey, Row>, blocks: seq<Block>, h0: nat, k: PointKey)
    requires HashesIdentify(point) && k in point && KeysOf(blocks) <= Unprocessed(point)
    ensures k in Unprocessed(SetHeights(point, RefsFrom(h0, blocks))) <==> k in Unprocessed(point) && k !in KeysOf(blocks)
  {
    forall i | 0 <= i < |blocks| ensures blocks[i].Key() in Unprocessed(point) {
      assert blocks[i].Key() in KeysOf(blocks);
    }
    SetHeightsFrame(point, RefsFrom(h0, blocks));
    if k in KeysOf(blocks) {
      var i :| 0 <= i < |blocks| && blocks[i].Key() == k;
      NamedIsProcessed(point, RefsFrom(h0, blocks), i, k);
    } else {
      KeptOrNamed(point, blocks, h0, k);
    }
  }

  lemma {:induction false} NamedIsProcessed(point: map<PointKey, Row>, refs: seq<PointRef>, i: nat, k: PointKey)
    requires i < |refs| && k in point && refs[i].hash == k.hash
    ensures k in SetHeights(point, refs) && 0 <= SetHeights(point, refs)[k].height
  {
    SetHeightsFrame(point, refs);
    if i < |refs| - 1 {
      NamedIsProcessed(point, refs[..|refs| - 1], i, k);
    }
  }

  /** Nothing left to read: the remaining rows and the batches it took. */
  lemma DrainCount(start: set<PointKey>, left: set<PointKey>, window: nat, batches: nat)
    requires Progress(start, left, window, batches) && |left| <= window
    ensures |left| == (if |start| < window then |start| else window)
    ensures batches == CeilDiv(if |start| < window then 0 else |start| - window, BLOCK_BATCH_SIZE)
  {
  }

  /** One committed batch is one more batch of progress. */
  lemma TurnProgress(start: set<PointKey>, point: map<PointKey, Row>, after: map<PointKey, Row>, window: nat, batches: nat,
                     rows: seq<PointRef>, cursor: Cursor, blocks: seq<Block>)
    requires OnTrack(point, start, window, batches)
    requires OldestFirst(point, BLOCK_BATCH_SIZE + window, rows) && window < |rows|
    requires KeysOf(blocks) == Keys(rows[..|rows| - window]) && Pass(cursor, blocks).Accepted?
    requires after == SetHeights(point, Pass(cursor, blocks).points)
    ensures OnTrack(after, start, window, batches + 1)
    ensures |Unprocessed(after)| < |Unprocessed(point)|
  {
    BatchShrinks(point, window, rows, cursor, blocks);
    ProgressStep(start, point, after, window, batches, rows);
  }

  lemma ProgressStep(start: set<PointKey>, point: map<PointKey, Row>, after: map<PointKey, Row>, window: nat, batches: nat, rows: seq<PointRef>)
    requires Progress(start, Unprocessed(point), window, batches)
    requires OldestFirst(point, BLOCK_BATCH_SIZE + window, rows) && window < |rows|
    requires Unprocessed(after) == Unprocessed(point) - Keys(rows[..|rows| - window])
    ensures Progress(start, Unprocessed(after), window, batches + 1)
    ensures |Unprocessed(after)| < |Unprocessed(point)|
  {
    var taken := rows[..|rows| - window];
    KeysCount(taken);
    assert Keys(taken) <= Unprocessed(point);
    forall j, k | j in start - Unprocessed(after) && k in Unprocessed(after) ensures j.slot <= k.slot {
      if j in Keys(taken) {
        OlderThanRest(point, BLOCK_BATCH_SIZE + window, window, rows, j, k);
      }
    }
  }

}
