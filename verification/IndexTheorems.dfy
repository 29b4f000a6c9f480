/**
 What the run invariant says about the tables a reader sees: order of heights, where
 transactions sit, agreement of the cache with its query, and what one batch does.
 */
module IndexTheorems {
  import opened Tables
  import opened Chain
  import opened ChainIndex
  import opened Run

  /** After every run: heights of regular points are unique and ordered as slots, unprocessed points come later. */
  lemma RunOrdersHeights(es: seq<Event>, j: PointKey, k: PointKey)
    requires AllowedRun(START, es)
    ensures var point := After(START, es).t.point;
            j in point && k in point && 0 <= point[j].height ==>
              && (point[k].height == UNPROCESSED ==> j.slot < k.slot)
              && (0 <= point[k].height && point[j].kind != BOUNDARY && point[k].kind != BOUNDARY ==>
                    && (point[j].height == point[k].height <==> j == k)
                    && (j.slot < k.slot <==> point[j].height < point[k].height))
  {
    RunKeepsInv(START, es);
    var s := After(START, es);
    if j in s.t.point && k in s.t.point && 0 <= s.t.point[j].height {
      var i :| 0 <= i < |s.chain| && s.chain[i].Key() == j;
      if k in Unprocessed(s.t.point) {
        assert s.chain[i].slot < k.slot;
      } else if s.t.point[j].kind != BOUNDARY && s.t.point[k].kind != BOUNDARY {
        SlotOrderIsHeightOrder(s.t.point, s.chain, j, k);
      }
    }
  }

  ghost predicate Taken(point: map<PointKey, Row>, h: nat) {
    exists k :: RegularAt(point, k, h)
  }

  /** After every run the heights of regular points are exactly an interval that starts at 0 or 1. */
  lemma RunHeightsContiguous(es: seq<Event>) returns (low: nat, limit: nat)
    requires AllowedRun(START, es)
    ensures low <= 1
    ensures forall h: nat :: Taken(After(START, es).t.point, h) <==> low <= h < limit
  {
    RunKeepsInv(START, es);
    var s := After(START, es);
    low, limit := if s.chain != [] && s.chain[0].Boundary() then 1 else 0, Height(s.chain, |s.chain|);
    forall h: nat ensures Taken(s.t.point, h) <==> low <= h < limit {
      if low <= h < limit {
        var i := HeightsContiguous(s.chain, h);
        assert RegularAt(s.t.point, s.chain[i].Key(), h);
      }
      if k :| RegularAt(s.t.point, k, h) {
        RegularInInterval(s.t.point, s.chain, k);
      }
    }
  }

  lemma RegularInInterval(point: map<PointKey, Row>, chain: seq<Block>, k: PointKey)
    requires PointsMatch(point, chain) && k in point && 0 <= point[k].height && point[k].kind != BOUNDARY
    ensures chain != []
    ensures (if chain[0].Boundary() then 1 else 0) <= point[k].height < Height(chain, |chain|)
  {
    var i :| 0 <= i < |chain| && chain[i].Key() == k;
    HeightsRise(0, chain, i, |chain|);
  }

  /** After every run each tx row sits at the height of exactly one regular point, whose block holds the tx. */
  lemma RunTxsAreAnchored(es: seq<Event>, x: string) returns (i: nat)
    requires AllowedRun(START, es) && x in After(START, es).t.tx
    ensures var s := After(START, es);
            && i < |s.chain| && x in s.chain[i].txs
            && (forall k :: RegularAt(s.t.point, k, s.t.tx[x]) <==> k == s.chain[i].Key())
  {
    RunKeepsInv(START, es);
    var s := After(START, es);
    i :| Holds(s.chain, s.lost, i, x);
    forall k ensures RegularAt(s.t.point, k, s.t.tx[x]) <==> k == s.chain[i].Key() {
      HeightFindsBlock(s.t.point, s.chain, i, k);
    }
  }

  /**
   After every run, between batches, the query has one possible answer, and the cached point is it
   exactly when a regular row is at the maximal height or no point is cached.
   */
  lemma RunCacheAgrees(es: seq<Event>, top: PointRef)
    requires AllowedRun(START, es) && !After(START, es).phase.Indexing?
    ensures var s := After(START, es);
            && (HighestIs(s.t.point, s.cache) <==> (exists k :: HighestRow(s.t.point, k)) || s.cache == NO_POINT)
            && (HighestIs(s.t.point, s.cache) && HighestIs(s.t.point, top) ==> top == s.cache)
  {
    RunKeepsInv(START, es);
    var s := After(START, es);
    if k :| HighestRow(s.t.point, k) {
      HighestIsTop(s.t.point, s.chain, k);
      HighestAnswer(s.t.point, s.chain, s.cache);
      HighestAnswer(s.t.point, s.chain, top);
    }
  }

  /** After every run the accepted chain is linked block by block. */
  lemma RunLinksBlocks(es: seq<Event>, k: nat)
    requires AllowedRun(START, es) && k < |After(START, es).chain|
    ensures LinkSound(After(START, es).chain, k)
  {
    RunKeepsInv(START, es);
  }

  /**
   A batch seen as one turn of the processor is the three steps read, fetched and stored: the tables
   get the pass's heights and transactions, which never clash, and its last point is cached.
   */
  lemma BatchIsThreeSteps(s: State, rows: seq<PointRef>, window: nat, cursor: Cursor, blocks: seq<Block>)
    requires Inv(s) && Pass(cursor, blocks).Accepted?
    requires Allowed(s, Read(rows, window, cursor)) && Allowed(Apply(s, Read(rows, window, cursor)), Fetched(blocks))
    ensures var batch := Pass(cursor, blocks);
            var mid := Apply(Apply(s, Read(rows, window, cursor)), Fetched(blocks));
            && Allowed(mid, StoreTxs) && FreshTxs(s.t.tx, batch.txs)
            && Apply(mid, StoreTxs).t == Tables(SetHeights(s.t.point, batch.points), s.t.archive, InsertTxs(s.t.tx, batch.txs))
            && Apply(mid, StoreTxs).cache == (if batch.points == [] then NO_POINT else batch.points[|batch.points| - 1])
            && Apply(mid, StoreTxs).phase == Idle && Apply(mid, StoreTxs).chain == s.chain + blocks
  {
    ReadKeepsInv(s, rows, window, cursor);
    TwoCommits(Apply(s, Read(rows, window, cursor)), blocks);
  }

  lemma TwoCommits(s: State, blocks: seq<Block>)
    requires Inv(s) && Allowed(s, Fetched(blocks)) && Pass(s.phase.cursor, blocks).Accepted?
    ensures var batch := Pass(s.phase.cursor, blocks);
            var mid := Apply(s, Fetched(blocks));
            && Allowed(mid, StoreTxs) && FreshTxs(s.t.tx, batch.txs)
            && Apply(mid, StoreTxs) ==
               State(Tables(SetHeights(s.t.point, batch.points), s.t.archive, InsertTxs(s.t.tx, batch.txs)),
                     if batch.points == [] then NO_POINT else batch.points[|batch.points| - 1], Idle,
                     s.chain + blocks, s.lost + HashesOf(blocks) - HashesOf(blocks))
  {
    var mid := Apply(s, Fetched(blocks));
    FetchedKeepsInv(s, blocks);
    StoreTxsKeepsInv(mid);
    assert mid.chain[mid.phase.from..] == blocks;
  }
}
