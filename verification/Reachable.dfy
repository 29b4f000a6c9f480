/**
 The state machine is not stuck: every batch that goes on from the indexed chain can be
 brought in and indexed. Concrete runs are put together from such batches.
 */
module Reachable {
  import opened Tables
  import opened Chain
  import opened ChainIndex
  import opened Run
  import opened IndexTheorems
  import opened BatchTheorems

  /** The points of blocks as they arrive. */
  function PointsOf(blocks: seq<Block>): seq<PointRef> {
    seq(|blocks|, i requires 0 <= i < |blocks| => blocks[i].Ref(0))
  }

  /** The steps that bring in and index one batch. */
  function Steps(chain: seq<Block>, blocks: seq<Block>): seq<Event> {
    [Arrive(PointsOf(blocks)), Read(PointsOf(blocks), 0, CursorAfter(chain))] + [Fetched(blocks), StoreTxs]
  }

  /** Between batches, with no row waiting and the cache in step with the tables. */
  ghost predicate Settles(s: State) {
    Inv(s) && s.phase.Idle? && Unprocessed(s.t.point) == {} && CacheHolds(s.t.point, s.cache)
  }

  /** Blocks that may come next. */
  ghost predicate Next(chain: seq<Block>, blocks: seq<Block>) {
    && 0 < |blocks| <= BLOCK_BATCH_SIZE && EndsRegular(blocks)
    && WellFormed(chain + blocks) && NamesPredecessors(chain, blocks)
  }

  lemma PointKeys(blocks: seq<Block>)
    ensures Keys(PointsOf(blocks)) == KeysOf(blocks)
  {
    var ps := PointsOf(blocks);
    forall i | 0 <= i < |blocks| ensures blocks[i].Key() in Keys(ps) && ps[i].Key() in KeysOf(blocks) {
      assert ps[i].Key() == blocks[i].Key();
    }
  }

  lemma SettledKeys(s: State)
    requires Settles(s)
    ensures s.t.point.Keys == KeysOf(s.chain)
  {
    ProcessedKeys(s.t.point, s.chain);
    forall k | k in s.t.point ensures k in KeysOf(s.chain) { assert k !in Unprocessed(s.t.point); }
  }

  /** The new blocks lie above the chain and have hashes of their own. */
  lemma NextIsAbove(chain: seq<Block>, blocks: seq<Block>, i: nat, j: nat)
    requires WellFormed(chain + blocks) && EndsRegular(chain) && i < |chain| && j < |blocks|
    ensures chain[i].slot < blocks[j].slot && chain[i].hash != blocks[j].hash
  {
    var all := chain + blocks;
    assert all[i] == chain[i] && all[|chain| + j] == blocks[j] && all[|chain| - 1] == chain[|chain| - 1];
    RegularBelow(all, i, |chain| - 1, |chain| + j);
  }

  lemma NextWellFormed(chain: seq<Block>, blocks: seq<Block>)
    requires WellFormed(chain + blocks)
    ensures Ordered(blocks) && Named(blocks)
    ensures forall i, j :: 0 <= i < j < |blocks| ==> blocks[i].Key() != blocks[j].Key()
  {
    var all := chain + blocks;
    forall i, j | 0 <= i < j < |blocks|
      ensures blocks[i].slot <= blocks[j].slot && blocks[i].hash != blocks[j].hash
      ensures blocks[i].slot == blocks[j].slot ==> blocks[i].Boundary() && !blocks[j].Boundary()
    {
      assert all[|chain| + i] == blocks[i] && all[|chain| + j] == blocks[j];
    }
    forall i | 0 <= i < |blocks| ensures blocks[i].hash != "" { assert all[|chain| + i] == blocks[i]; }
  }

  lemma HashNamesKey(all: seq<Block>, j: PointKey, k: PointKey)
    requires Named(all) && j in KeysOf(all) && k in KeysOf(all) && j.hash == k.hash
    ensures j == k
  {
  }

  /** The points of the next blocks may arrive. */
  lemma PointsArrive(s: State, blocks: seq<Block>)
    requires Settles(s) && EndsRegular(s.chain) && Next(s.chain, blocks)
    ensures Allowed(s, Arrive(PointsOf(blocks)))
  {
    var ps, point := PointsOf(blocks), s.t.point;
    SettledKeys(s);
    NextWellFormed(s.chain, blocks);
    forall i | 0 <= i < |ps|
      ensures ps[i].hash != "" && ps[i].Key() !in point
      ensures forall k :: k in point ==> k.slot < ps[i].slot
    {
      NewKey(s, blocks, i);
      assert ps[i].Key() == blocks[i].Key();
    }
    ArrivedKeys(s, blocks);
    ArrivedHashes(s, blocks);
  }

  lemma ArrivedKeys(s: State, blocks: seq<Block>)
    requires s.t.point.Keys == KeysOf(s.chain)
    ensures WithPoints(s.t.point, PointsOf(blocks)).Keys == KeysOf(s.chain + blocks)
  {
    AddPointsKeepsHeights(s.t.point, PointsOf(blocks));
    PointKeys(blocks);
    KeysOfAppend(s.chain, blocks);
  }

  lemma ArrivedHashes(s: State, blocks: seq<Block>)
    requires Named(s.chain + blocks) && WithPoints(s.t.point, PointsOf(blocks)).Keys == KeysOf(s.chain + blocks)
    ensures HashesIdentify(WithPoints(s.t.point, PointsOf(blocks)))
  {
    var after := WithPoints(s.t.point, PointsOf(blocks));
    forall j, k | j in after && k in after && j.hash == k.hash ensures j == k {
      HashNamesKey(s.chain + blocks, j, k);
    }
  }

  /** The arrived points are then the rows that wait. */
  lemma PointsWait(s: State, blocks: seq<Block>)
    requires Settles(s) && EndsRegular(s.chain) && Next(s.chain, blocks)
    ensures var point := WithPoints(s.t.point, PointsOf(blocks));
            point.Keys == KeysOf(s.chain + blocks) && Unprocessed(point) == KeysOf(blocks) && Awaits(point, blocks)
  {
    var after := WithPoints(s.t.point, PointsOf(blocks));
    SettledKeys(s);
    ArrivedKeys(s, blocks);
    forall i | 0 <= i < |blocks| ensures blocks[i].Key() in Unprocessed(after) && after[blocks[i].Key()].kind == blocks[i].kind {
      RowWaits(s, blocks, i);
    }
    OnlyNewWait(s.t.point, blocks);
  }

  lemma OnlyNewWait(point: map<PointKey, Row>, blocks: seq<Block>)
    requires Unprocessed(point) == {} && Awaits(WithPoints(point, PointsOf(blocks)), blocks)
    ensures Unprocessed(WithPoints(point, PointsOf(blocks))) == KeysOf(blocks)
  {
    var after := WithPoints(point, PointsOf(blocks));
    AddPointsKeepsHeights(point, PointsOf(blocks));
    PointKeys(blocks);
    forall k | k in Unprocessed(after) ensures k in KeysOf(blocks) {
      assert k !in Unprocessed(point);
    }
  }

  lemma RowWaits(s: State, blocks: seq<Block>, i: nat)
    requires s.t.point.Keys == KeysOf(s.chain) && EndsRegular(s.chain) && Next(s.chain, blocks) && i < |blocks|
    ensures var after := WithPoints(s.t.point, PointsOf(blocks));
            blocks[i].Key() in Unprocessed(after) && after[blocks[i].Key()].kind == blocks[i].kind
  {
    var ps := PointsOf(blocks);
    NewKey(s, blocks, i);
    NextWellFormed(s.chain, blocks);
    forall j | i < j < |ps| ensures ps[j].Key() != ps[i].Key() {
      assert blocks[i].Key() != blocks[j].Key();
    }
    AddPointsAt(s.t.point, ps, i);
    AddPointsKeepsHeights(s.t.point, ps);
    assert ps[i].Key() == blocks[i].Key();
  }

  lemma NewKey(s: State, blocks: seq<Block>, i: nat)
    requires s.t.point.Keys == KeysOf(s.chain) && EndsRegular(s.chain) && Next(s.chain, blocks) && i < |blocks|
    ensures blocks[i].Key() !in s.t.point && forall k :: k in s.t.point ==> k.slot < blocks[i].slot
  {
    forall k | k in s.t.point ensures k.slot < blocks[i].slot {
      var a :| 0 <= a < |s.chain| && s.chain[a].Key() == k;
      NextIsAbove(s.chain, blocks, a, i);
    }
  }

  /** The waiting rows are all read at once. */
  lemma PointsAreRead(point: map<PointKey, Row>, blocks: seq<Block>)
    requires Unprocessed(point) == KeysOf(blocks) && Awaits(point, blocks) && 0 < |blocks| <= BLOCK_BATCH_SIZE
    requires Ordered(blocks) && forall i, j :: 0 <= i < j < |blocks| ==> blocks[i].Key() != blocks[j].Key()
    ensures OldestFirst(point, BLOCK_BATCH_SIZE, PointsOf(blocks)) && Awaiting(point, PointsOf(blocks))
    ensures Returns(PointsOf(blocks), blocks)
  {
    var ps := PointsOf(blocks);
    PointKeys(blocks);
    forall i | 0 <= i < |ps|
      ensures ps[i].Key() in Unprocessed(point) && ps[i].kind == point[ps[i].Key()].kind
    {
      assert blocks[i].Key() in Unprocessed(point) && ps[i].Key() == blocks[i].Key();
    }
    forall i, j | 0 <= i < j < |ps| ensures ps[i].Key() != ps[j].Key() && ps[i].slot <= ps[j].slot {
      assert blocks[i].Key() != blocks[j].Key();
    }
    KeysCount(ps);
    assert ps[0].Key() == blocks[0].Key();
    forall i, j | 0 <= i < |blocks| && 0 <= j < |ps| && blocks[i].Key() == ps[j].Key() ensures blocks[i].kind == ps[j].kind {
      assert ps[j].Key() == blocks[j].Key();
    }
  }

  /** The state while the batch is being fetched. */
  ghost function WhileFetching(s: State, blocks: seq<Block>): State {
    s.(t := s.t.(point := WithPoints(s.t.point, PointsOf(blocks))), phase := Fetching(PointsOf(blocks), CursorAfter(s.chain)))
  }

  lemma BatchIsRead(s: State, blocks: seq<Block>)
    requires Settles(s) && Next(s.chain, blocks)
    ensures Allowed(s, Arrive(PointsOf(blocks)))
    ensures Allowed(Apply(s, Arrive(PointsOf(blocks))), Read(PointsOf(blocks), 0, CursorAfter(s.chain)))
    ensures Apply(Apply(s, Arrive(PointsOf(blocks))), Read(PointsOf(blocks), 0, CursorAfter(s.chain))) == WhileFetching(s, blocks)
    ensures Inv(WhileFetching(s, blocks))
  {
    var ps := PointsOf(blocks);
    CacheHoldsIff(s.t.point, s.chain, s.cache);
    PointsArrive(s, blocks);
    ArriveKeepsInv(s, ps);
    ReadIsAllowed(s, blocks);
    ReadKeepsInv(Apply(s, Arrive(ps)), ps, 0, CursorAfter(s.chain));
    ReadState(Apply(s, Arrive(ps)), ps, CursorAfter(s.chain));
  }

  lemma ReadState(s: State, ps: seq<PointRef>, cursor: Cursor)
    requires Allowed(s, Read(ps, 0, cursor))
    ensures Apply(s, Read(ps, 0, cursor)) == s.(phase := Fetching(ps, cursor))
  {
    assert ps[..|ps|] == ps;
  }

  lemma ReadIsAllowed(s: State, blocks: seq<Block>)
    requires Settles(s) && EndsRegular(s.chain) && Next(s.chain, blocks) && s.cache == TopOf(s.chain)
    requires Allowed(s, Arrive(PointsOf(blocks))) && Inv(Apply(s, Arrive(PointsOf(blocks))))
    ensures Allowed(Apply(s, Arrive(PointsOf(blocks))), Read(PointsOf(blocks), 0, CursorAfter(s.chain)))
  {
    PointsWait(s, blocks);
    NextWellFormed(s.chain, blocks);
    StartIsReady(Apply(s, Arrive(PointsOf(blocks))));
    RowsAreReady(Apply(s, Arrive(PointsOf(blocks))), blocks, CursorAfter(s.chain));
  }

  lemma RowsAreReady(s: State, blocks: seq<Block>, cursor: Cursor)
    requires MayStart(s, cursor) && 0 < |blocks| <= BLOCK_BATCH_SIZE
    requires Unprocessed(s.t.point) == KeysOf(blocks) && Awaits(s.t.point, blocks) && Ordered(blocks)
    requires forall i, j :: 0 <= i < j < |blocks| ==> blocks[i].Key() != blocks[j].Key()
    ensures Allowed(s, Read(PointsOf(blocks), 0, cursor))
  {
    PointsAreRead(s.t.point, blocks);
    AllRowsTaken(s, PointsOf(blocks), cursor);
  }

  lemma AllRowsTaken(s: State, rows: seq<PointRef>, cursor: Cursor)
    requires MayStart(s, cursor) && rows != []
    requires OldestFirst(s.t.point, BLOCK_BATCH_SIZE, rows) && Awaiting(s.t.point, rows)
    ensures Allowed(s, Read(rows, 0, cursor))
  {
    assert rows[..|rows|] == rows;
  }

  lemma StartIsReady(s: State)
    requires Inv(s) && s.phase.Idle? && EndsRegular(s.chain) && s.cache == TopOf(s.chain)
    ensures MayStart(s, CursorAfter(s.chain))
  {
    CacheHoldsIff(s.t.point, s.chain, s.cache);
    StartsAfterTop(s.t.point, s.chain, CursorAfter(s.chain));
  }

  lemma BatchIsFetched(s: State, blocks: seq<Block>)
    requires Settles(s) && Next(s.chain, blocks)
    ensures Allowed(WhileFetching(s, blocks), Fetched(blocks))
    ensures WhileFetching(s, blocks).t.point.Keys == KeysOf(s.chain + blocks)
  {
    CacheHoldsIff(s.t.point, s.chain, s.cache);
    PointsWait(s, blocks);
    NextWellFormed(s.chain, blocks);
    PointsAreRead(WithPoints(s.t.point, PointsOf(blocks)), blocks);
  }

  /**
   Every batch whose blocks name their predecessors can be brought in and indexed: the steps are
   allowed, they add exactly these blocks to the chain, and leave no row waiting.
   */
  lemma BatchCanRun(s: State, blocks: seq<Block>)
    requires Settles(s) && Next(s.chain, blocks)
    ensures AllowedRun(s, Steps(s.chain, blocks))
    ensures var end := After(s, Steps(s.chain, blocks));
            && Settles(end) && end.chain == s.chain + blocks && end.t.archive == s.t.archive
            && end.lost == s.lost + HashesOf(blocks) - HashesOf(blocks)
  {
    BatchIsRead(s, blocks);
    BatchIsFetched(s, blocks);
    var mid := WhileFetching(s, blocks);
    NamedIsAccepted(s.chain, blocks);
    TwoCommits(mid, blocks);
    FetchedKeepsInv(mid, blocks);
    StoreTxsKeepsInv(Apply(mid, Fetched(blocks)));
    var end := Apply(Apply(mid, Fetched(blocks)), StoreTxs);
    SetHeightsFrame(mid.t.point, Pass(mid.phase.cursor, blocks).points);
    NothingWaits(end);
    FourSteps(s, blocks);
  }

  lemma NothingWaits(s: State)
    requires Inv(s) && s.phase.Idle? && s.t.point.Keys == KeysOf(s.chain) && s.chain != [] && EndsRegular(s.chain)
    ensures Settles(s)
  {
    ProcessedKeys(s.t.point, s.chain);
    CacheHoldsIff(s.t.point, s.chain, s.cache);
  }

  /** The run of four steps, unfolded. */
  lemma FourSteps(s: State, blocks: seq<Block>)
    requires Allowed(s, Arrive(PointsOf(blocks)))
    requires var s1 := Apply(s, Arrive(PointsOf(blocks)));
             Allowed(s1, Read(PointsOf(blocks), 0, CursorAfter(s.chain))) &&
             Apply(s1, Read(PointsOf(blocks), 0, CursorAfter(s.chain))) == WhileFetching(s, blocks)
    requires var mid := WhileFetching(s, blocks);
             Allowed(mid, Fetched(blocks)) && Allowed(Apply(mid, Fetched(blocks)), StoreTxs)
    ensures AllowedRun(s, Steps(s.chain, blocks))
    ensures After(s, Steps(s.chain, blocks)) == Apply(Apply(WhileFetching(s, blocks), Fetched(blocks)), StoreTxs)
  {
    TwoSteps(s, Arrive(PointsOf(blocks)), Read(PointsOf(blocks), 0, CursorAfter(s.chain)));
    TwoSteps(WhileFetching(s, blocks), Fetched(blocks), StoreTxs);
    RunsCompose(s, [Arrive(PointsOf(blocks)), Read(PointsOf(blocks), 0, CursorAfter(s.chain))], [Fetched(blocks), StoreTxs]);
  }

  lemma TwoSteps(s: State, e: Event, f: Event)
    requires Allowed(s, e) && Allowed(Apply(s, e), f)
    ensures AllowedRun(s, [e, f]) && After(s, [e, f]) == Apply(Apply(s, e), f)
  {
    OneStep(Apply(s, e), [], f);
    assert [f] + [] == [f] && [e] + [f] == [e, f];
    OneStep(s, [f], e);
  }

  /** One step in front of a run. */
  lemma OneStep(s: State, es: seq<Event>, e: Event)
    requires Allowed(s, e) && AllowedRun(Apply(s, e), es)
    ensures AllowedRun(s, [e] + es) && After(s, [e] + es) == After(Apply(s, e), es)
  {
    assert ([e] + es)[1..] == es;
  }

  /** Runs compose. */
  lemma {:induction false} RunsCompose(s: State, es: seq<Event>, more: seq<Event>)
    requires AllowedRun(s, es) && AllowedRun(After(s, es), more)
    ensures AllowedRun(s, es + more) && After(s, es + more) == After(After(s, es), more)
    decreases |es|
  {
    if es == [] {
      assert es + more == more;
    } else {
      assert (es + more)[1..] == es[1..] + more;
      RunsCompose(Apply(s, es[0]), es[1..], more);
    }
  }

  lemma StartSettles()
    ensures Settles(START)
  {
    StartInv();
    CacheHoldsIff(EMPTY.point, [], NO_POINT);
  }

  /** The state is reached by a run from the empty database. */
  ghost predicate Reached(s: State) {
    exists es :: AllowedRun(START, es) && After(START, es) == s
  }

  lemma StepReaches(s: State, e: Event)
    requires Reached(s) && Allowed(s, e)
    ensures Reached(Apply(s, e))
  {
    var es :| AllowedRun(START, es) && After(START, es) == s;
    OneStep(s, [], e);
    assert [e] + [] == [e];
    RunsCompose(START, es, [e]);
  }

  /** From a reached state the next blocks lead to a reached state on the longer chain. */
  lemma BatchReaches(s: State, blocks: seq<Block>) returns (end: State)
    requires Reached(s) && Settles(s) && Next(s.chain, blocks)
    ensures Reached(end) && Settles(end) && end.chain == s.chain + blocks
    ensures end.t.archive == s.t.archive && end.lost == s.lost + HashesOf(blocks) - HashesOf(blocks)
  {
    var es :| AllowedRun(START, es) && After(START, es) == s;
    BatchCanRun(s, blocks);
    RunsCompose(START, es, Steps(s.chain, blocks));
    end := After(s, Steps(s.chain, blocks));
  }
}
