/**
 The chain index as a state machine: points arrive, a batch is read, fetched, committed
 in two transactions, rollbacks and restarts happen. Arrivals may land anywhere; a
 rollback waits for the batch in progress (the processing mutex); a restart may hit
 any moment, also between the two commits of a batch.
 */
module Run {
  import opened Tables
  import opened Chain
  import opened ChainIndex

  const BLOCK_BATCH_SIZE := 10000

  datatype Phase =
    | Idle
    /** The batch was read and its blocks are being fetched. */
    | Fetching(points: seq<PointRef>, cursor: Cursor)
    /** Heights are committed, transactions are not; chain[from..] is the batch. */
    | Indexing(txs: seq<TxRef>, top: PointRef, from: nat)

  /** `chain` and `lost` are history: the accepted surviving blocks, and those without tx rows. */
  datatype State = State(t: Tables, cache: PointRef, phase: Phase, chain: seq<Block>, lost: set<string>)

  const START := State(EMPTY, NO_POINT, Idle, [], {})

  /** Parameters are what the environment chooses: arrivals, query answers, fetched blocks. */
  datatype Event =
    | Arrive(points: seq<PointRef>)
    | Read(rows: seq<PointRef>, window: nat, cursor: Cursor)
    | GiveUp
    | Fetched(blocks: seq<Block>)
    | StoreTxs
    | RollBack(slot: nat, before: PointRef, after: PointRef)
    | Restart(top: PointRef)

  function Awaited(p: Phase): set<PointKey> {
    if p.Fetching? then Keys(p.points) else {}
  }

  /** The fetch returned exactly the blocks of the awaited points. */
  ghost predicate Returns(ps: seq<PointRef>, blocks: seq<Block>) {
    && KeysOf(blocks) == Keys(ps)
    && (forall i, j :: 0 <= i < j < |blocks| ==> blocks[i].Key() != blocks[j].Key())
    && (forall i, j :: 0 <= i < |blocks| && 0 <= j < |ps| && blocks[i].Key() == ps[j].Key() ==> blocks[i].kind == ps[j].kind)
  }

  /** The awaited points are unprocessed rows and every other unprocessed row lies strictly above them. */
  ghost predicate Awaiting(point: map<PointKey, Row>, ps: seq<PointRef>) {
    && ps != []
    && (forall j :: 0 <= j < |ps| ==> ps[j].Key() in Unprocessed(point) && ps[j].kind == point[ps[j].Key()].kind)
    && (forall k, j :: k in Unprocessed(point) && k !in Keys(ps) && 0 <= j < |ps| ==> ps[j].slot < k.slot)
  }

  ghost predicate RollsBack(s: State, slot: nat, before: PointRef) {
    slot < before.slot && !ArchiveClash(s.t, slot)
  }

  /**
   The cached point is what the query answers, and with no point cached nothing is processed. It fails
   only after a rollback that left no regular block on top; see RightIffCacheHolds for what a batch does then.
   */
  ghost predicate CacheHolds(point: map<PointKey, Row>, cache: PointRef) {
    HighestIs(point, cache) && (cache == NO_POINT ==> forall k :: k in point ==> point[k].height == UNPROCESSED)
  }

  /** Between batches, the next one may start at this cursor. */
  ghost predicate MayStart(s: State, cursor: Cursor) {
    match s.phase
    case Idle => StartsAt(s.t.point, s.cache, cursor) && CacheHolds(s.t.point, s.cache)
    case _ => false
  }

  /** What the environment may do next. */
  ghost predicate Allowed(s: State, e: Event) {
    match e
    case Arrive(ps) => Arrivals(s.t.point, Awaited(s.phase), ps)
    case Read(rows, window, cursor) =>
      && MayStart(s, cursor) && window < |rows|
      && OldestFirst(s.t.point, BLOCK_BATCH_SIZE + window, rows)
      && Awaiting(s.t.point, rows[..|rows| - window])
    case GiveUp => s.phase.Fetching?
    case Fetched(blocks) =>
      && s.phase.Fetching? && Returns(s.phase.points, blocks)
      && Ordered(blocks) && EndsRegular(blocks) && TxsOnce(s.chain + blocks)
    case StoreTxs => s.phase.Indexing?
    case RollBack(slot, before, after) =>
      && s.phase.Idle?
      && HighestIs(s.t.point, before) && HighestIs(RolledBack(s.t, slot).point, after)
    case Restart(top) => HighestIs(s.t.point, top)
  }

  ghost function Apply(s: State, e: Event): State
    requires Allowed(s, e)
  {
    match e
    case Arrive(ps) => s.(t := s.t.(point := WithPoints(s.t.point, ps)))
    case Read(rows, window, cursor) => s.(phase := Fetching(rows[..|rows| - window], cursor))
    case GiveUp => s.(phase := Idle)
    case Fetched(blocks) =>
      (match Pass(s.phase.cursor, blocks)
       case Broken => s.(phase := Idle)
       case Accepted(_, points, txs) =>
         State(s.t.(point := SetHeights(s.t.point, points)), s.cache,
               Indexing(txs, if points == [] then NO_POINT else points[|points| - 1], |s.chain|),
               s.chain + blocks, s.lost + HashesOf(blocks)))
    case StoreTxs =>
      if FreshTxs(s.t.tx, s.phase.txs) && s.phase.from <= |s.chain|
      then State(s.t.(tx := InsertTxs(s.t.tx, s.phase.txs)), s.phase.top, Idle, s.chain,
                 s.lost - HashesOf(s.chain[s.phase.from..]))
      else s.(phase := Idle)
    case RollBack(slot, before, after) =>
      if RollsBack(s, slot, before)
      then State(RolledBack(s.t, slot), if after == NO_POINT then s.cache else after, Idle,
                 s.chain[..Survivors(s.chain, slot)], LostAfter(s.t, s.chain, s.lost, slot))
      else s
    case Restart(top) => s.(cache := top, phase := Idle)
  }

  // ------------------------------------------------------ the invariant

  /**
   With a regular block on top the cache is that block. Otherwise nothing is cached, or a deleted point
   that was at least as high as the next block would be.
   */
  predicate CacheInv(chain: seq<Block>, cache: PointRef) {
    if chain != [] && EndsRegular(chain) then cache == TopOf(chain)
    else cache == NO_POINT || (cache.hash != "" && Height(chain, |chain|) <= cache.height)
  }

  ghost predicate PhaseInv(s: State) {
    match s.phase
    case Idle => CacheInv(s.chain, s.cache)
    case Fetching(ps, cursor) =>
      && EndsRegular(s.chain) && s.cache == TopOf(s.chain)
      && cursor == CursorAfter(s.chain) && Awaiting(s.t.point, ps)
    case Indexing(txs, top, from) =>
      && from <= |s.chain| && EndsRegular(s.chain) && EndsRegular(s.chain[..from]) && HashesOf(s.chain[from..]) <= s.lost
      && txs == TxsFrom(Height(s.chain[..from], from), s.chain[from..]) && top == TopOf(s.chain)
  }

  /**
   The tables are those one pass over the surviving chain writes, the chain is linked, and while it
   ends in a regular block the cache is its top.
   */
  ghost predicate Inv(s: State) {
    match s
    case State(t, _, _, chain, lost) => Indexes(t, chain, lost) && Linked(chain) && PhaseInv(s)
  }

  lemma ArriveKeepsInv(s: State, ps: seq<PointRef>)
    requires Inv(s) && Allowed(s, Arrive(ps))
    ensures Inv(Apply(s, Arrive(ps)))
  {
    ArrivalsKeepIndex(s.t.point, s.chain, Awaited(s.phase), ps);
    if s.phase.Fetching? {
      AwaitingSurvives(s.t.point, s.phase.points, ps);
    }
  }

  lemma AwaitingSurvives(point: map<PointKey, Row>, awaited: seq<PointRef>, ps: seq<PointRef>)
    requires Awaiting(point, awaited) && Arrivals(point, Keys(awaited), ps)
    ensures Awaiting(WithPoints(point, ps), awaited)
  {
    var after := WithPoints(point, ps);
    AddPointsKeepsHeights(point, ps);
    AddPointsKeepsRows(point, ps);
    forall k, j | k in Unprocessed(after) && k !in Keys(awaited) && 0 <= j < |awaited| ensures awaited[j].slot < k.slot {
      var a := awaited[j].Key();
      assert a in Unprocessed(point) && a in Keys(awaited);
      if k in point {
        assert k in Unprocessed(point);
      } else {
        var i :| 0 <= i < |ps| && ps[i].Key() == k;
        assert Settled(point, Keys(awaited), a);
      }
    }
  }

  /** The fetched blocks cover the awaited rows, and end a non-empty batch. */
  lemma ReturnedCover(point: map<PointKey, Row>, ps: seq<PointRef>, blocks: seq<Block>)
    requires Awaiting(point, ps) && Returns(ps, blocks)
    ensures Covers(point, blocks) && blocks != []
  {
    assert ps[0].Key() in Keys(ps);
    forall i | 0 <= i < |blocks|
      ensures blocks[i].Key() in Unprocessed(point) && point[blocks[i].Key()].kind == blocks[i].kind
      ensures forall k :: k in Unprocessed(point) && k !in KeysOf(blocks) ==> blocks[i].slot < k.slot
    {
      assert blocks[i].Key() in KeysOf(blocks);
      var j :| 0 <= j < |ps| && ps[j].Key() == blocks[i].Key();
      assert ps[j].slot == blocks[i].slot;
    }
  }

  /** Committing an accepted batch's heights: the tables index the longer chain, its new blocks still lost. */
  lemma BatchExtends(t: Tables, chain: seq<Block>, lost: set<string>, blocks: seq<Block>)
    requires Indexes(t, chain, lost) && Linked(chain) && EndsRegular(chain)
    requires Covers(t.point, blocks) && Ordered(blocks) && TxsOnce(chain + blocks)
    requires forall i, j :: 0 <= i < j < |blocks| ==> blocks[i].Key() != blocks[j].Key()
    requires Pass(CursorAfter(chain), blocks).Accepted?
    ensures Indexes(t.(point := SetHeights(t.point, RefsFrom(Height(chain, |chain|), blocks))),
                    chain + blocks, lost + HashesOf(blocks))
    ensures Linked(chain + blocks)
  {
    CoveredExtends(t.point, chain, blocks);
    HeightsExtend(t.point, chain, blocks, Height(chain, |chain|));
    TxsWait(t.tx, chain, blocks, lost);
    LinksExtend(chain, blocks);
  }

  /** What an accepted batch hands to the commits. */
  lemma BatchResult(chain: seq<Block>, blocks: seq<Block>)
    requires Pass(CursorAfter(chain), blocks).Accepted?
    ensures Pass(CursorAfter(chain), blocks).points == RefsFrom(Height(chain, |chain|), blocks)
    ensures Pass(CursorAfter(chain), blocks).txs == TxsFrom(Height(chain, |chain|), blocks)
  {
    PassMeans(CursorAfter(chain), blocks);
  }

  lemma BatchTop(chain: seq<Block>, blocks: seq<Block>)
    requires EndsRegular(chain) && blocks != []
    ensures RefsFrom(Height(chain, |chain|), blocks)[|blocks| - 1] == TopOf(chain + blocks)
  {
    HeightContinues(chain, blocks, |chain + blocks| - 1);
  }

  lemma FetchedState(s: State, blocks: seq<Block>)
    requires Inv(s) && Allowed(s, Fetched(blocks)) && blocks != []
    requires Pass(CursorAfter(s.chain), blocks).Accepted?
    ensures Apply(s, Fetched(blocks)) ==
            State(s.t.(point := SetHeights(s.t.point, RefsFrom(Height(s.chain, |s.chain|), blocks))), s.cache,
                  Indexing(TxsFrom(Height(s.chain, |s.chain|), blocks), TopOf(s.chain + blocks), |s.chain|),
                  s.chain + blocks, s.lost + HashesOf(blocks))
  {
    BatchResult(s.chain, blocks);
    BatchTop(s.chain, blocks);
  }

  lemma AwaitingTxs(t: Tables, cache: PointRef, chain: seq<Block>, lost: set<string>, blocks: seq<Block>)
    requires EndsRegular(chain) && EndsRegular(chain + blocks)
    ensures PhaseInv(State(t, cache, Indexing(TxsFrom(Height(chain, |chain|), blocks), TopOf(chain + blocks), |chain|),
                           chain + blocks, lost + HashesOf(blocks)))
  {
    assert (chain + blocks)[..|chain|] == chain && (chain + blocks)[|chain|..] == blocks;
  }

  lemma AcceptedKeepsInv(s: State, blocks: seq<Block>)
    requires Inv(s) && Allowed(s, Fetched(blocks)) && Pass(CursorAfter(s.chain), blocks).Accepted?
    ensures Inv(Apply(s, Fetched(blocks)))
  {
    ReturnedCover(s.t.point, s.phase.points, blocks);
    FetchedState(s, blocks);
    assert EndsRegular(s.chain + blocks);
    AwaitingTxs(s.t.(point := SetHeights(s.t.point, RefsFrom(Height(s.chain, |s.chain|), blocks))),
                s.cache, s.chain, s.lost, blocks);
    BatchExtends(s.t, s.chain, s.lost, blocks);
  }

  lemma FetchedKeepsInv(s: State, blocks: seq<Block>)
    requires Inv(s) && Allowed(s, Fetched(blocks))
    ensures Inv(Apply(s, Fetched(blocks)))
  {
    if Pass(CursorAfter(s.chain), blocks).Accepted? {
      AcceptedKeepsInv(s, blocks);
    }
  }

  lemma StoreTxsKeepsInv(s: State)
    requires Inv(s) && Allowed(s, StoreTxs)
    ensures Inv(Apply(s, StoreTxs))
    ensures FreshTxs(s.t.tx, s.phase.txs)
  {
    var from := s.phase.from;
    var base, batch := s.chain[..from], s.chain[from..];
    assert base + batch == s.chain;
    TxsArrive(s.t.tx, base, batch, s.lost, Height(base, from));
  }

  lemma PrefixWellFormed(chain: seq<Block>, m: nat)
    requires m <= |chain| && WellFormed(chain) && Linked(chain)
    ensures WellFormed(chain[..m]) && Linked(chain[..m])
  {
    var kept := chain[..m];
    forall k | 0 <= k < m ensures LinkSound(kept, k) {
      assert LinkSound(chain, k) && kept[..k] == chain[..k];
      HeightAtPrefix(0, chain, m, k);
    }
  }

  /** A rollback takes place only on a chain with a regular block on top, of which it leaves a proper prefix. */
  lemma RollbackReaches(s: State, slot: nat, before: PointRef)
    requires Indexes(s.t, s.chain, s.lost) && HighestIs(s.t.point, before) && slot < before.slot
    ensures s.chain != [] && EndsRegular(s.chain) && before == TopOf(s.chain)
    ensures Survivors(s.chain, slot) < |s.chain|
  {
    HighestIsTop(s.t.point, s.chain, before.Key());
    HighestAnswer(s.t.point, s.chain, before);
    RollbackTruncates(s.t, s.chain, slot);
  }

  lemma RolledState(s: State, slot: nat, before: PointRef, after: PointRef)
    requires Allowed(s, RollBack(slot, before, after)) && RollsBack(s, slot, before)
    ensures Apply(s, RollBack(slot, before, after)) ==
            State(RolledBack(s.t, slot), if after == NO_POINT then s.cache else after, Idle,
                  s.chain[..Survivors(s.chain, slot)], LostAfter(s.t, s.chain, s.lost, slot))
  {
  }

  /** The cache after a rollback, whatever it leaves on top. */
  lemma RollbackCacheInv(t: Tables, chain: seq<Block>, m: nat, after: PointRef)
    requires Ordered(chain) && Named(chain) && chain != [] && m < |chain|
    requires PointsMatch(t.point, chain[..m]) && HighestIs(t.point, after)
    ensures CacheInv(chain[..m], if after == NO_POINT then TopOf(chain) else after)
  {
    var kept, n := chain[..m], |chain| - 1;
    assert TopOf(chain).hash != "" && Ordered(kept);
    if kept != [] && EndsRegular(kept) {
      HighestAnswer(t.point, kept, after);
      assert kept[m - 1] == chain[m - 1];
    } else {
      forall k ensures !HighestRow(t.point, k) { HighestIsTop(t.point, kept, k); }
      HeightAtPrefix(0, chain, m, m);
      HeightsRise(0, chain, m, n);
    }
  }

  /** A rollback keeps the invariant, whatever it leaves on top. */
  lemma RollBackKeepsInv(s: State, slot: nat, before: PointRef, after: PointRef)
    requires Inv(s) && Allowed(s, RollBack(slot, before, after))
    ensures Inv(Apply(s, RollBack(slot, before, after)))
  {
    if RollsBack(s, slot, before) {
      RollbackReaches(s, slot, before);
      RollbackTruncates(s.t, s.chain, slot);
      RollbackTxs(s.t, s.chain, s.lost, slot);
      PrefixWellFormed(s.chain, Survivors(s.chain, slot));
      RollbackCacheInv(RolledBack(s.t, slot), s.chain, Survivors(s.chain, slot), after);
    }
  }

  lemma RestartKeepsInv(s: State, top: PointRef)
    requires Inv(s) && Allowed(s, Restart(top))
    ensures Inv(Apply(s, Restart(top)))
  {
    if EndsRegular(s.chain) {
      HighestAnswer(s.t.point, s.chain, top);
    } else {
      forall k ensures !HighestRow(s.t.point, k) { HighestIsTop(s.t.point, s.chain, k); }
    }
  }

  /** The cache holds exactly when it is the top of a chain that is empty or ends in a regular block. */
  lemma CacheHoldsIff(point: map<PointKey, Row>, chain: seq<Block>, cache: PointRef)
    requires Ordered(chain) && Named(chain) && PointsMatch(point, chain)
    ensures CacheHolds(point, cache) <==> EndsRegular(chain) && cache == TopOf(chain)
  {
    if EndsRegular(chain) {
      HighestAnswer(point, chain, cache);
      assert chain != [] ==> TopOf(chain).hash != "";
    } else {
      forall k ensures !HighestRow(point, k) { HighestIsTop(point, chain, k); }
      assert chain[0].Key() in point;
    }
  }

  /**
   A batch goes on with the numbering of the chain exactly when the cache holds: one started from a
   deleted point that came back is numbered too high, one after a restart on a boundary block from 0.
   */
  lemma RightIffCacheHolds(s: State, c: Cursor)
    requires Inv(s) && s.phase.Idle? && StartsAt(s.t.point, s.cache, c)
    ensures c.height == Height(s.chain, |s.chain|) <==> CacheHolds(s.t.point, s.cache)
    ensures !CacheHolds(s.t.point, s.cache) && s.cache != NO_POINT ==> Height(s.chain, |s.chain|) < c.height
    ensures !CacheHolds(s.t.point, s.cache) && s.cache == NO_POINT ==> c.height == 0
  {
    CacheHoldsIff(s.t.point, s.chain, s.cache);
    if s.chain != [] {
      HeightAtNext(0, s.chain, |s.chain| - 1);
    }
  }

  /** A batch that may start does so behind the chain. */
  lemma StartsBehindChain(s: State, cursor: Cursor)
    requires Inv(s) && MayStart(s, cursor)
    ensures EndsRegular(s.chain) && s.cache == TopOf(s.chain) && cursor == CursorAfter(s.chain)
  {
    CacheHoldsIff(s.t.point, s.chain, s.cache);
    StartsAfterTop(s.t.point, s.chain, cursor);
  }

  lemma ReadKeepsInv(s: State, rows: seq<PointRef>, window: nat, cursor: Cursor)
    requires Inv(s) && Allowed(s, Read(rows, window, cursor))
    ensures Inv(Apply(s, Read(rows, window, cursor)))
  {
    StartsBehindChain(s, cursor);
  }

  /** Every step keeps the invariant. */
  lemma StepKeepsInv(s: State, e: Event)
    requires Inv(s) && Allowed(s, e)
    ensures Inv(Apply(s, e))
  {
    match e
    case Arrive(ps) => ArriveKeepsInv(s, ps);
    case Read(rows, window, cursor) => ReadKeepsInv(s, rows, window, cursor);
    case GiveUp =>
    case Fetched(blocks) => FetchedKeepsInv(s, blocks);
    case StoreTxs => StoreTxsKeepsInv(s);
    case RollBack(slot, before, after) => RollBackKeepsInv(s, slot, before, after);
    case Restart(top) => RestartKeepsInv(s, top);
  }

  // ------------------------------------------------------ runs

  ghost predicate AllowedRun(s: State, es: seq<Event>)
    decreases |es|
  {
    es == [] || (Allowed(s, es[0]) && AllowedRun(Apply(s, es[0]), es[1..]))
  }

  ghost function After(s: State, es: seq<Event>): State
    requires AllowedRun(s, es)
    decreases |es|
  {
    if es == [] then s else After(Apply(s, es[0]), es[1..])
  }

  /** The invariant holds after every interleaving of arrivals, batches, rollbacks and restarts. */
  lemma {:induction false} RunKeepsInv(s: State, es: seq<Event>)
    requires Inv(s) && AllowedRun(s, es)
    ensures Inv(After(s, es))
    decreases |es|
  {
    if es != [] {
      StepKeepsInv(s, es[0]);
      RunKeepsInv(Apply(s, es[0]), es[1..]);
    }
  }

  /** The last step of a run. */
  lemma {:induction false} RunSnoc(s: State, es: seq<Event>)
    requires AllowedRun(s, es) && es != []
    ensures var n := |es| - 1;
            && AllowedRun(s, es[..n]) && Allowed(After(s, es[..n]), es[n])
            && After(s, es) == Apply(After(s, es[..n]), es[n])
    decreases |es|
  {
    var n := |es| - 1;
    if n > 0 {
      RunSnoc(Apply(s, es[0]), es[1..]);
      assert es[..n][1..] == es[1..][..n - 1] && es[..n][0] == es[0];
    } else {
      assert es[..n] == [] && es[1..] == [];
    }
  }

  /** The steps so far of a run are a run. */
  lemma {:induction false} RunPrefix(s: State, es: seq<Event>, k: nat)
    requires AllowedRun(s, es) && k <= |es|
    ensures AllowedRun(s, es[..k])
    decreases |es|
  {
    if k < |es| {
      RunSnoc(s, es);
      RunPrefix(s, es[..|es| - 1], k);
      assert es[..|es| - 1][..k] == es[..k];
    } else {
      assert es[..k] == es;
    }
  }

  lemma StartInv()
    ensures Inv(START)
  {
  }
}
