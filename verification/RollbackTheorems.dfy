/**
 What a rollback undoes, and the exact conditions under which it does not: archive rows
 left by earlier rollbacks, no regular block left on top, the rollback slot itself deleted,
 a slot above the processed points.
 */
module RollbackTheorems {
  import opened Tables
  import opened Chain
  import opened ChainIndex
  import opened Run
  import opened BatchTheorems

  function Processed(point: map<PointKey, Row>): map<PointKey, Row> {
    map k | k in point && point[k].height != UNPROCESSED :: point[k]
  }

  lemma BatchIsAbove(t: Tables, chain: seq<Block>, blocks: seq<Block>)
    requires PointsMatch(t.point, chain) && Covers(t.point, blocks) && Ordered(blocks) && blocks != []
    requires Ordered(chain + blocks)
    ensures Survivors(chain + blocks, blocks[0].slot) == |chain|
  {
    var all, slot := chain + blocks, blocks[0].slot;
    SurvivorsSplit(all, slot);
    assert all[|chain|] == blocks[0] && blocks[0].Key() in Unprocessed(t.point);
    if chain != [] {
      assert all[|chain| - 1] == chain[|chain| - 1];
      assert chain[|chain| - 1].slot < slot;
    }
  }

  /**
   Rolling back to the first slot of the latest batch restores the processed points, the tx table and
   the highest point held before it, and leaves no unprocessed row, if no archived row lies at or
   after that slot.
   */
  lemma RollbackUndoesBatch(t: Tables, chain: seq<Block>, lost: set<string>, blocks: seq<Block>, hp: PointRef)
    requires AtRest(t, chain, lost) && chain != []
    requires Continues(t, chain, blocks) && Pass(CursorAfter(chain), blocks).Accepted? && blocks != []
    requires forall k :: k in t.archive ==> k.slot < blocks[0].slot
    requires HighestIs(Committed(t, chain, blocks).point, hp) && blocks[0].slot < hp.slot
    ensures var after := Committed(t, chain, blocks);
            var undone := RolledBack(after, blocks[0].slot);
            && !ArchiveClash(after, blocks[0].slot)
            && undone.point == Processed(t.point)
            && undone.tx == t.tx
            && (forall top :: HighestIs(undone.point, top) <==> top == TopOf(chain))
  {
    var after, slot := Committed(t, chain, blocks), blocks[0].slot;
    CommittedIndexes(t, chain, lost, blocks);
    assert Indexes(after, chain + blocks, lost - HashesOf(blocks));
    BatchIsAbove(t, chain, blocks);
    HighestIsTop(after.point, chain + blocks, hp.Key());
    RollbackTruncates(after, chain + blocks, slot);
    assert (chain + blocks)[..|chain|] == chain;
    UndonePoints(t, chain, RolledBack(after, slot).point);
    NoClash(after, slot);
    UndoneTxs(t, chain, lost, blocks);
    forall top ensures HighestIs(RolledBack(after, slot).point, top) <==> top == TopOf(chain) {
      HighestAnswer(RolledBack(after, slot).point, chain, top);
    }
  }

  lemma NoClash(t: Tables, slot: nat)
    requires forall k :: k in t.archive ==> k.slot < slot
    ensures !ArchiveClash(t, slot)
  {
  }

  lemma UndonePoints(t: Tables, chain: seq<Block>, point: map<PointKey, Row>)
    requires PointsMatch(t.point, chain) && PointsMatch(point, chain) && point.Keys == KeysOf(chain)
    ensures point == Processed(t.point)
  {
    ProcessedKeys(t.point, chain);
    forall k | k in KeysOf(chain) ensures k in t.point && point[k] == t.point[k] {
      var i :| 0 <= i < |chain| && chain[i].Key() == k;
      assert RowAt(point, chain, i) && RowAt(t.point, chain, i);
    }
  }

  /** A batch was committed on an indexed chain and no archived row lies at or after its first slot. */
  ghost predicate JustCommitted(t: Tables, chain: seq<Block>, lost: set<string>, blocks: seq<Block>) {
    && TxsMatch(t.tx, chain, lost) && blocks != []
    && FreshTxs(t.tx, TxsFrom(Height(chain, |chain|), blocks))
    && Indexes(Committed(t, chain, blocks), chain + blocks, lost - HashesOf(blocks))
    && Survivors(chain + blocks, blocks[0].slot) == |chain|
    && !ArchiveClash(Committed(t, chain, blocks), blocks[0].slot)
    && (forall k :: k in t.archive ==> k.slot < blocks[0].slot)
  }

  lemma UndoneTxs(t: Tables, chain: seq<Block>, lost: set<string>, blocks: seq<Block>)
    requires JustCommitted(t, chain, lost, blocks)
    ensures RolledBack(Committed(t, chain, blocks), blocks[0].slot).tx == t.tx
  {
    OldTxsStay(t, chain, lost, blocks);
    KeptTxsAreOld(t, chain, lost, blocks);
  }

  lemma OldTxsStay(t: Tables, chain: seq<Block>, lost: set<string>, blocks: seq<Block>)
    requires JustCommitted(t, chain, lost, blocks)
    ensures var undone := RolledBack(Committed(t, chain, blocks), blocks[0].slot).tx;
            forall x :: x in t.tx ==> x in undone && undone[x] == t.tx[x]
  {
    forall x | x in t.tx
      ensures x in RolledBack(Committed(t, chain, blocks), blocks[0].slot).tx &&
              RolledBack(Committed(t, chain, blocks), blocks[0].slot).tx[x] == t.tx[x]
    {
      OldTxStays(t, chain, lost, blocks, x);
    }
  }

  lemma KeptTxsAreOld(t: Tables, chain: seq<Block>, lost: set<string>, blocks: seq<Block>)
    requires JustCommitted(t, chain, lost, blocks)
    ensures forall x :: x in RolledBack(Committed(t, chain, blocks), blocks[0].slot).tx ==> x in t.tx
  {
    forall x | x in RolledBack(Committed(t, chain, blocks), blocks[0].slot).tx ensures x in t.tx {
      KeptTxIsOld(t, chain, lost, blocks, x);
    }
  }

  lemma KeptTxIsOld(t: Tables, chain: seq<Block>, lost: set<string>, blocks: seq<Block>, x: string)
    requires JustCommitted(t, chain, lost, blocks)
    requires x in RolledBack(Committed(t, chain, blocks), blocks[0].slot).tx
    ensures x in t.tx
  {
    var after, slot := Committed(t, chain, blocks), blocks[0].slot;
    var i := KeptTxSource(after, chain + blocks, lost - HashesOf(blocks), slot, x);
    RollbackDropsTx(after, slot, x);
    NotFromBatch(t.tx, chain, blocks, i, x);
  }

  /** A transaction of the old chain is not one of the batch's. */
  lemma NotFromBatch(tx: map<string, nat>, chain: seq<Block>, blocks: seq<Block>, i: nat, x: string)
    requires TxsOnce(chain + blocks) && i < |chain| && x in (chain + blocks)[i].txs
    requires x in InsertTxs(tx, TxsFrom(Height(chain, |chain|), blocks))
    ensures x in tx
  {
    var refs := TxsFrom(Height(chain, |chain|), blocks);
    InsertTxsKeys(tx, refs);
    forall p | 0 <= p < |refs| ensures refs[p].hash != x {
      TxsFromMeans(Height(chain, |chain|), blocks, refs[p]);
      var j :| 0 <= j < |blocks| && refs[p].hash in blocks[j].txs;
      assert (chain + blocks)[|chain| + j] == blocks[j];
    }
  }

  lemma OldTxStays(t: Tables, chain: seq<Block>, lost: set<string>, blocks: seq<Block>, x: string)
    requires JustCommitted(t, chain, lost, blocks) && x in t.tx
    ensures var undone := RolledBack(Committed(t, chain, blocks), blocks[0].slot).tx;
            x in undone && undone[x] == t.tx[x]
  {
    var all := chain + blocks;
    InsertTxsLaw(t.tx, TxsFrom(Height(chain, |chain|), blocks));
    var i :| Holds(chain, lost, i, x);
    assert all[i] == chain[i] && all[..|chain|] == chain;
    HeightAtPrefix(0, all, |chain|, i);
    SurvivorKeepsTxs(Committed(t, chain, blocks), all, lost - HashesOf(blocks), blocks[0].slot, i, x);
  }

  // ------------------------------------------------------ where it falls short

  /**
   The cached point after a rollback is what the query answers exactly when the surviving chain ends
   in a regular block. Otherwise the old, deleted point stays cached and no error is reported.
   */
  lemma RollbackCacheAgrees(t: Tables, chain: seq<Block>, lost: set<string>, slot: nat, after: PointRef)
    requires AtRest(t, chain, lost) && chain != [] && slot < TopOf(chain).slot && !ArchiveClash(t, slot)
    requires HighestIs(RolledBack(t, slot).point, after)
    ensures var cache := if after == NO_POINT then TopOf(chain) else after;
            var kept := chain[..Survivors(chain, slot)];
            HighestIs(RolledBack(t, slot).point, cache) <==> kept != [] && EndsRegular(kept)
  {
    RollbackTruncates(t, chain, slot);
    var kept, point := chain[..Survivors(chain, slot)], RolledBack(t, slot).point;
    assert Ordered(kept);
    if kept != [] && EndsRegular(kept) {
      HighestAnswer(point, kept, after);
      assert TopOf(kept) != NO_POINT by { assert kept[|kept| - 1].hash == chain[|kept| - 1].hash; }
    } else {
      forall k ensures !HighestRow(point, k) { HighestIsTop(point, kept, k); }
      assert TopOf(chain).hash != "";
    }
  }

  /**
   The rollback slot itself is deleted. So after rolling back to a block, a batch that goes on from that
   block, as the chain does, is accepted exactly when it begins with a boundary block, which is not checked.
   */
  lemma NextBlockIsOrphaned(chain: seq<Block>, m: nat, blocks: seq<Block>)
    requires Ordered(chain) && Named(chain) && 0 < m < |chain| && EndsRegular(chain[..m])
    requires blocks != [] && blocks[0].prevHash == chain[m].hash
    requires forall k :: 0 < k < |blocks| ==> blocks[k].prevHash == blocks[k - 1].hash
    ensures Survivors(chain, chain[m].slot) == m
    ensures Pass(CursorAfter(chain[..m]), blocks).Accepted? <==> blocks[0].Boundary()
  {
    var kept := chain[..m];
    var c := CursorAfter(kept);
    SurvivorsSplit(chain, chain[m].slot);
    assert chain[m - 1].slot < chain[m].slot by { assert kept[m - 1] == chain[m - 1]; }
    PassMeans(c, blocks);
    HeightContinues(kept, [], m);
    assert kept[..m] == kept && blocks[..0] == [];
    assert LinkedAt(c, blocks, 0) <==> blocks[0].Boundary();
    forall k | 0 < k < |blocks| ensures LinkedAt(c, blocks, k) {
      assert blocks[..k][|blocks[..k]| - 1] == blocks[k - 1];
    }
  }

  // ------------------------------------------------------ points archived twice

  /** The rows a step archives. */
  ghost function Removed(s: State, e: Event): set<PointKey> {
    if e.RollBack? && RollsBack(s, e.slot, e.before) then Doomed(s.t.point, e.slot) else {}
  }

  /** The rows the rollbacks of a run have archived. */
  ghost function RolledOff(s: State, es: seq<Event>): set<PointKey>
    requires AllowedRun(s, es)
    decreases |es|
  {
    if es == [] then {} else Removed(s, es[0]) + RolledOff(Apply(s, es[0]), es[1..])
  }

  /** Along every run the archive grows by exactly the rows rolled back. */
  lemma {:induction false} ArchiveIsHistory(s: State, es: seq<Event>)
    requires AllowedRun(s, es)
    ensures After(s, es).t.archive.Keys == s.t.archive.Keys + RolledOff(s, es)
    decreases |es|
  {
    if es != [] {
      assert Apply(s, es[0]).t.archive.Keys == s.t.archive.Keys + Removed(s, es[0]);
      ArchiveIsHistory(Apply(s, es[0]), es[1..]);
    }
  }

  /**
   After every run, a rollback below the highest point fails, changing nothing, exactly when a stored
   point at or after its slot was rolled back before: a point that returns can never be rolled back again.
   */
  lemma ArchivedPointBlocksRollback(start: State, es: seq<Event>, slot: nat, before: PointRef, after: PointRef)
    requires Inv(start) && start.t.archive == map[] && AllowedRun(start, es)
    requires Allowed(After(start, es), RollBack(slot, before, after)) && slot < before.slot
    ensures var s := After(start, es);
            Apply(s, RollBack(slot, before, after)) == s <==>
            exists k :: k in s.t.point && slot <= k.slot && k in RolledOff(start, es)
  {
    var s := After(start, es);
    ArchiveIsHistory(start, es);
    RunKeepsInv(start, es);
    FailsIffReturned(s, RolledOff(start, es), slot, before, after);
  }

  lemma FailsIffReturned(s: State, archived: set<PointKey>, slot: nat, before: PointRef, after: PointRef)
    requires Inv(s) && s.t.archive.Keys == archived && Allowed(s, RollBack(slot, before, after)) && slot < before.slot
    ensures Apply(s, RollBack(slot, before, after)) == s <==>
            exists k :: k in s.t.point && slot <= k.slot && k in archived
  {
    RollbackReaches(s, slot, before);
    FailsIffClash(s, slot, before, after);
    ClashMeans(s.t, slot, archived);
  }

  lemma ClashMeans(t: Tables, slot: nat, archived: set<PointKey>)
    requires t.archive.Keys == archived
    ensures ArchiveClash(t, slot) <==> exists k :: k in t.point && slot <= k.slot && k in archived
  {
    if k :| k in t.point && slot <= k.slot && k in archived {
      assert k in Doomed(t.point, slot) && k in t.archive;
    }
  }

  lemma FailsIffClash(s: State, slot: nat, before: PointRef, after: PointRef)
    requires Allowed(s, RollBack(slot, before, after)) && slot < before.slot && Survivors(s.chain, slot) < |s.chain|
    ensures Apply(s, RollBack(slot, before, after)) == s <==> ArchiveClash(s.t, slot)
  {
    if !ArchiveClash(s.t, slot) {
      assert |Apply(s, RollBack(slot, before, after)).chain| < |s.chain|;
    }
  }

  // ------------------------------------------------------ rollbacks above the processed points

  /**
   A rollback clears the rows at or after its slot exactly when it takes place or there were none. One
   above the highest processed point leaves exactly the unprocessed points there, the abandoned ones too.
   */
  lemma RollbackClears(s: State, slot: nat, before: PointRef, after: PointRef)
    requires Inv(s) && Allowed(s, RollBack(slot, before, after))
    ensures Doomed(Apply(s, RollBack(slot, before, after)).t.point, slot) == {} <==>
            RollsBack(s, slot, before) || Doomed(s.t.point, slot) == {}
    ensures before != NO_POINT && before.slot < slot ==>
              Doomed(Apply(s, RollBack(slot, before, after)).t.point, slot) ==
              (set k | k in Unprocessed(s.t.point) && slot <= k.slot)
  {
    RollbackKeeps(s.t, slot);
    if before != NO_POINT && before.slot < slot {
      AbandonedStay(s, slot, before);
    }
  }

  lemma AbandonedStay(s: State, slot: nat, before: PointRef)
    requires Inv(s) && HighestIs(s.t.point, before) && before != NO_POINT && before.slot < slot
    ensures Doomed(s.t.point, slot) == (set k | k in Unprocessed(s.t.point) && slot <= k.slot)
  {
    HighestIsTop(s.t.point, s.chain, before.Key());
    forall k | k in Doomed(s.t.point, slot) ensures k in Unprocessed(s.t.point) {
      AboveTopIsUnprocessed(s.t.point, s.chain, k);
    }
  }

  lemma AboveTopIsUnprocessed(point: map<PointKey, Row>, chain: seq<Block>, k: PointKey)
    requires Ordered(chain) && RowsClosed(point, chain) && chain != [] && k in point && chain[|chain| - 1].slot < k.slot
    ensures k in Unprocessed(point)
  {
    forall i | 0 <= i < |chain| ensures chain[i].Key() != k {
      if i < |chain| - 1 { assert chain[i].slot <= chain[|chain| - 1].slot; }
    }
  }

  /**
   An abandoned point that a fetch skips stops the processor, restarted or not: after a batch it can go
   on exactly when every skipped unprocessed row lies at or above the batch's last slot.
   */
  lemma SkippedRowStopsProcessor(point: map<PointKey, Row>, chain: seq<Block>, blocks: seq<Block>, top: PointRef)
    requires Ordered(chain + blocks) && Named(chain + blocks) && EndsRegular(chain)
    requires PointsMatch(point, chain) && Awaits(point, blocks) && blocks != [] && EndsRegular(blocks)
    requires HighestIs(SetHeights(point, RefsFrom(Height(chain, |chain|), blocks)), top)
    ensures top == TopOf(chain + blocks)
    ensures (exists c :: StartsAt(SetHeights(point, RefsFrom(Height(chain, |chain|), blocks)), top, c)) <==>
            forall k :: k in Unprocessed(point) && k !in KeysOf(blocks) ==> blocks[|blocks| - 1].slot <= k.slot
  {
    var h0 := Height(chain, |chain|);
    var after := SetHeights(point, RefsFrom(h0, blocks));
    RowsExtend(point, chain, blocks, h0);
    ClosedExtends(point, chain, blocks, h0);
    HighestAnswer(after, chain + blocks, top);
    SkippedRows(point, chain, blocks);
    SetHeightsFrame(point, RefsFrom(h0, blocks));
    LastRow(after, chain, blocks);
    StartsBehind(after, top, blocks[|blocks| - 1].Key());
  }

  /** With the cached point's row known, a batch starts exactly when nothing unprocessed lies behind it. */
  lemma StartsBehind(point: map<PointKey, Row>, top: PointRef, last: PointKey)
    requires HashesIdentify(point) && last in point && last.hash == top.hash != ""
    ensures (exists c :: StartsAt(point, top, c)) <==> forall k :: k in Unprocessed(point) ==> last.slot <= k.slot
  {
    StartsIff(point, top);
  }

  lemma LastRow(point: map<PointKey, Row>, chain: seq<Block>, blocks: seq<Block>)
    requires RowsStored(point, chain + blocks) && blocks != [] && HashesIdentify(point) && Named(chain + blocks)
    ensures var last := blocks[|blocks| - 1].Key();
            && last in point && last.hash == TopOf(chain + blocks).hash != ""
            && forall k :: k in point && k.hash == last.hash ==> k == last
  {
    var all := chain + blocks;
    assert all[|all| - 1] == blocks[|blocks| - 1];
    assert RowAt(point, all, |all| - 1);
  }

  /** After a batch the unprocessed rows are those it skipped. */
  lemma SkippedRows(point: map<PointKey, Row>, chain: seq<Block>, blocks: seq<Block>)
    requires HashesIdentify(point) && Awaits(point, blocks)
    requires RowsStored(SetHeights(point, RefsFrom(Height(chain, |chain|), blocks)), chain + blocks)
    ensures Unprocessed(SetHeights(point, RefsFrom(Height(chain, |chain|), blocks))) == Unprocessed(point) - KeysOf(blocks)
  {
    var h0 := Height(chain, |chain|);
    var after := SetHeights(point, RefsFrom(h0, blocks));
    SetHeightsFrame(point, RefsFrom(h0, blocks));
    KeysOfAppend(chain, blocks);
    ProcessedKeys(after, chain + blocks);
    forall k | k in point ensures k in Unprocessed(after) <==> k in Unprocessed(point) && k !in KeysOf(blocks) {
      KeptOrNamed(point, blocks, h0, k);
    }
  }

  // ------------------------------------------------------ rollbacks that leave no regular block on top

  /** The cached point has no row and the query finds none: no batch can start. */
  ghost predicate Stuck(s: State) {
    && s.phase.Idle? && s.cache.hash != "" && (forall k :: k in s.t.point ==> k.hash != s.cache.hash)
    && (forall k :: !HighestRow(s.t.point, k))
  }

  /** A rollback leaves the processor stuck exactly when the query finds no point afterwards. */
  lemma RollbackSticks(s: State, slot: nat, before: PointRef, after: PointRef)
    requires Inv(s) && Allowed(s, RollBack(slot, before, after)) && RollsBack(s, slot, before)
    ensures Stuck(Apply(s, RollBack(slot, before, after))) <==> after == NO_POINT
  {
    CachedPointGoes(s, slot, before, after);
    NoneLeft(s, slot, before, after);
    RolledState(s, slot, before, after);
    SticksIff(Apply(s, RollBack(slot, before, after)), s.cache, after);
  }

  lemma CachedPointGoes(s: State, slot: nat, before: PointRef, after: PointRef)
    requires Inv(s) && Allowed(s, RollBack(slot, before, after)) && slot < before.slot
    ensures s.cache.hash != "" && forall k :: k in RolledBack(s.t, slot).point ==> k.hash != s.cache.hash
  {
    RollbackReaches(s, slot, before);
    CachedRowGoes(s.t, s.chain, slot);
  }

  lemma NoneLeft(s: State, slot: nat, before: PointRef, after: PointRef)
    requires Inv(s) && Allowed(s, RollBack(slot, before, after)) && slot < before.slot
    ensures after == NO_POINT <==> forall k :: !HighestRow(RolledBack(s.t, slot).point, k)
  {
    RollbackReaches(s, slot, before);
    PrefixAnswer(s.t, s.chain, slot, after);
  }

  lemma SticksIff(s: State, cache: PointRef, after: PointRef)
    requires s.phase.Idle? && s.cache == if after == NO_POINT then cache else after
    requires cache.hash != "" && forall k :: k in s.t.point ==> k.hash != cache.hash
    requires after == NO_POINT <==> forall k :: !HighestRow(s.t.point, k)
    ensures Stuck(s) <==> after == NO_POINT
  {
  }

  lemma PrefixAnswer(t: Tables, chain: seq<Block>, slot: nat, after: PointRef)
    requires Ordered(chain) && Named(chain) && PointsMatch(t.point, chain)
    requires chain != [] && slot < chain[|chain| - 1].slot && HighestIs(RolledBack(t, slot).point, after)
    ensures after == NO_POINT <==> forall k :: !HighestRow(RolledBack(t, slot).point, k)
  {
    RollbackTruncates(t, chain, slot);
    PrefixOrdered(chain, Survivors(chain, slot));
    AnswerMeans(RolledBack(t, slot).point, chain[..Survivors(chain, slot)], after);
  }

  lemma PrefixOrdered(chain: seq<Block>, m: nat)
    requires Ordered(chain) && Named(chain) && m <= |chain|
    ensures Ordered(chain[..m]) && Named(chain[..m])
  {
  }

  lemma CachedRowGoes(t: Tables, chain: seq<Block>, slot: nat)
    requires PointsMatch(t.point, chain) && Named(chain) && chain != [] && slot < TopOf(chain).slot
    ensures TopOf(chain).hash != "" && forall k :: k in RolledBack(t, slot).point ==> k.hash != TopOf(chain).hash
  {
    var last := chain[|chain| - 1].Key();
    assert last in t.point;
    RollbackKeeps(t, slot);
  }

  lemma AnswerMeans(point: map<PointKey, Row>, chain: seq<Block>, top: PointRef)
    requires Ordered(chain) && Named(chain) && PointsMatch(point, chain) && HighestIs(point, top)
    ensures top == NO_POINT <==> forall k :: !HighestRow(point, k)
  {
    if k :| HighestRow(point, k) {
      HighestIsTop(point, chain, k);
      HighestAnswer(point, chain, top);
      assert TopOf(chain).hash != "";
    }
  }

  lemma StuckCannotStart(s: State)
    requires Stuck(s)
    ensures forall c :: !StartsAt(s.t.point, s.cache, c)
  {
  }

  /** Neither a restart nor the return of the cached point. */
  ghost predicate KeepsStuck(s: State, e: Event) {
    !e.Restart? && (e.Arrive? ==> forall i :: 0 <= i < |e.points| ==> e.points[i].hash != s.cache.hash)
  }

  lemma StuckStep(s: State, e: Event)
    requires Stuck(s) && Allowed(s, e) && KeepsStuck(s, e)
    ensures Stuck(Apply(s, e)) && Apply(s, e).cache == s.cache
  {
    match e
    case Arrive(ps) => StuckArrivals(s, ps);
    case Read(rows, window, cursor) => StuckCannotStart(s);
    case RollBack(slot, before, after) =>
    case _ =>
  }

  lemma StuckArrivals(s: State, ps: seq<PointRef>)
    requires Stuck(s) && Allowed(s, Arrive(ps)) && KeepsStuck(s, Arrive(ps))
    ensures Stuck(Apply(s, Arrive(ps)))
  {
    var point := WithPoints(s.t.point, ps);
    AddPointsKeepsHeights(s.t.point, ps);
    AddPointsKeepsRows(s.t.point, ps);
    forall k | HighestRow(point, k) ensures HighestRow(s.t.point, k) {
      forall j | j in s.t.point ensures s.t.point[j].height <= s.t.point[k].height { assert j in point; }
    }
    forall k | k in point ensures k.hash != s.cache.hash {
      if k !in s.t.point { var i :| 0 <= i < |ps| && ps[i].Key() == k; }
    }
  }

  /** A stuck processor starts no batch, whatever arrives and rolls back, until a restart or the cached point's return. */
  lemma {:induction false} StuckUntilRestart(s: State, es: seq<Event>)
    requires Stuck(s) && AllowedRun(s, es) && forall i :: 0 <= i < |es| ==> KeepsStuck(s, es[i])
    ensures Stuck(After(s, es)) && forall c :: !StartsAt(After(s, es).t.point, After(s, es).cache, c)
    decreases |es|
  {
    if es == [] {
      StuckCannotStart(s);
    } else {
      StuckStep(s, es[0]);
      StuckUntilRestart(Apply(s, es[0]), es[1..]);
    }
  }
}
