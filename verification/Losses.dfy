/**
 Which transactions are missing from the index: exactly which steps lose those of a block,
 that they are never found again while the block stays, and so when a lookup succeeds.
 */
module Losses {
  import opened Tables
  import opened Chain
  import opened ChainIndex
  import opened Run
  import opened BatchTheorems
  import opened Reachable

  /** The blocks of the batch whose second commit is still to come. */
  ghost function Pending(s: State): set<string> {
    if s.phase.Indexing? && s.phase.from <= |s.chain| then HashesOf(s.chain[s.phase.from..]) else {}
  }

  /** The blocks whose transactions are missing and will not be stored. */
  ghost function Gone(s: State): set<string> {
    s.lost - Pending(s)
  }

  ghost predicate StaleHit(s: State, slot: nat, i: int, h: string) {
    && 0 <= i < Survivors(s.chain, slot) && s.chain[i].hash == h && !s.chain[i].Boundary()
    && StaleAt(s.t, slot, Height(s.chain, i))
  }

  /** The step drops a block's transactions: a restart between its two commits, or a rollback over stale archive rows. */
  ghost predicate Loses(s: State, e: Event, h: string) {
    || (e.Restart? && h in Pending(s))
    || (e.RollBack? && RollsBack(s, e.slot, e.before) && exists i :: StaleHit(s, e.slot, i, h))
  }

  /** In every reachable state a block's transactions are stored, at its height, exactly when it is not lost. */
  lemma LookupIff(s: State, i: nat, x: string, k: PointKey)
    requires Inv(s) && i < |s.chain| && x in s.chain[i].txs
    ensures x in s.t.tx <==> s.chain[i].hash !in s.lost
    ensures x in s.t.tx ==> (RegularAt(s.t.point, k, s.t.tx[x]) <==> k == s.chain[i].Key())
  {
    if s.chain[i].hash !in s.lost {
      assert Holds(s.chain, s.lost, i, x);
    }
    if x in s.t.tx {
      var j :| Holds(s.chain, s.lost, j, x);
      assert j == i;
      HeightFindsBlock(s.t.point, s.chain, i, k);
    }
  }

  lemma HashAt(chain: seq<Block>, h: string) returns (i: nat)
    requires h in HashesOf(chain)
    ensures i < |chain| && chain[i].hash == h
  {
    i :| 0 <= i < |chain| && chain[i].hash == h;
  }

  lemma FetchedLoses(s: State, blocks: seq<Block>, h: string)
    requires Inv(s) && Allowed(s, Fetched(blocks)) && h in HashesOf(Apply(s, Fetched(blocks)).chain)
    ensures h in Gone(Apply(s, Fetched(blocks))) <==> h in HashesOf(s.chain) && h in Gone(s)
  {
    if Pass(s.phase.cursor, blocks).Accepted? {
      var all := s.chain + blocks;
      FetchedKeepsInv(s, blocks);
      assert all[|s.chain|..] == blocks;
      var i := HashAt(all, h);
      if i < |s.chain| {
        OldHashNotNew(s.chain, blocks, i);
        assert s.chain[i].hash in HashesOf(s.chain);
      } else {
        assert blocks[i - |s.chain|].hash in HashesOf(blocks);
        NewHashNotOld(s.chain, blocks, h);
      }
    }
  }

  lemma NewHashNotOld(chain: seq<Block>, blocks: seq<Block>, h: string)
    requires Named(chain + blocks) && h in HashesOf(blocks)
    ensures h !in HashesOf(chain)
  {
    forall i | 0 <= i < |chain| ensures chain[i].hash != h { OldHashNotNew(chain, blocks, i); }
  }

  lemma RollBackLoses(s: State, slot: nat, before: PointRef, after: PointRef, h: string)
    requires Inv(s) && Allowed(s, RollBack(slot, before, after)) && RollsBack(s, slot, before)
    requires h in HashesOf(s.chain[..Survivors(s.chain, slot)])
    ensures h in HashesOf(s.chain)
    ensures h in LostAfter(s.t, s.chain, s.lost, slot) <==> h in s.lost || exists i :: StaleHit(s, slot, i, h)
  {
    var i := HashAt(s.chain[..Survivors(s.chain, slot)], h);
    assert s.chain[i].hash in HashesOf(s.chain);
    LostAfterMeans(s.t, s.chain, s.lost, slot, i);
    if MissesAfter(s.t, s.chain, s.lost, slot, i) && h !in s.lost {
      assert StaleHit(s, slot, i, h);
    }
    if j :| StaleHit(s, slot, j, h) {
      assert j == i;
    }
  }

  /** A block that is in the chain after a step has gone exactly when it had before, or the step loses it. */
  lemma StepLoses(s: State, e: Event, h: string)
    requires Inv(s) && Allowed(s, e) && h in HashesOf(Apply(s, e).chain)
    ensures h in Gone(Apply(s, e)) <==> (h in HashesOf(s.chain) && h in Gone(s)) || Loses(s, e, h)
  {
    match e
    case Fetched(blocks) => FetchedLoses(s, blocks, h);
    case StoreTxs => StoreTxsKeepsInv(s);
    case RollBack(slot, before, after) =>
      if RollsBack(s, slot, before) {
        RolledState(s, slot, before, after);
        RollBackLoses(s, slot, before, after, h);
      }
    case _ =>
  }

  // ------------------------------------------------------ over runs

  ghost function StateAt(s: State, es: seq<Event>, k: nat): State
    requires AllowedRun(s, es) && k <= |es|
  {
    RunPrefix(s, es, k);
    After(s, es[..k])
  }

  ghost predicate InChainAt(s: State, es: seq<Event>, j: nat, h: string)
    requires AllowedRun(s, es) && j <= |es|
  {
    h in HashesOf(StateAt(s, es, j).chain)
  }

  /** Step k loses the block, and the block stays in the chain from then on. */
  ghost predicate LostAt(s: State, es: seq<Event>, k: int, h: string)
    requires AllowedRun(s, es)
  {
    0 <= k < |es| && Loses(StateAt(s, es, k), es[k], h) && forall j :: k < j <= |es| ==> InChainAt(s, es, j, h)
  }

  lemma StateAtPrefix(s: State, es: seq<Event>, n: nat, k: nat)
    requires AllowedRun(s, es) && k <= n <= |es|
    ensures AllowedRun(s, es[..n]) && StateAt(s, es[..n], k) == StateAt(s, es, k)
  {
    RunPrefix(s, es, n);
    assert es[..n][..k] == es[..k];
  }

  /** A block gone at the start that stays in the chain has gone at the end. */
  ghost predicate GoneThroughout(s: State, es: seq<Event>, h: string)
    requires AllowedRun(s, es)
  {
    h in Gone(s) && forall j :: 0 <= j <= |es| ==> InChainAt(s, es, j, h)
  }

  /** Some step has lost the block, which has stayed in the chain since. */
  ghost predicate EverLost(s: State, es: seq<Event>, h: string)
    requires AllowedRun(s, es)
  {
    exists k :: LostAt(s, es, k, h)
  }

  lemma EverLostSnoc(s: State, es: seq<Event>, init: seq<Event>, h: string)
    requires AllowedRun(s, es) && es != [] && init == es[..|es| - 1] && AllowedRun(s, init)
    requires h in HashesOf(After(s, es).chain)
    ensures EverLost(s, es, h) <==> EverLost(s, init, h) || Loses(After(s, init), es[|es| - 1], h)
  {
    if Loses(After(s, init), es[|es| - 1], h) { LostByLast(s, es, init, h); }
    if EverLost(s, es, h) { LostBefore(s, es, init, h); }
    if EverLost(s, init, h) {
      var k :| LostAt(s, init, k, h);
      assert es[..|es|] == es;
      LostAtSnoc(s, es, k, h);
    }
  }

  lemma LostByLast(s: State, es: seq<Event>, init: seq<Event>, h: string)
    requires AllowedRun(s, es) && es != [] && init == es[..|es| - 1] && AllowedRun(s, init)
    requires h in HashesOf(After(s, es).chain) && Loses(After(s, init), es[|es| - 1], h)
    ensures EverLost(s, es, h)
  {
    assert es[..|es|] == es;
    assert InChainAt(s, es, |es|, h);
    assert LostAt(s, es, |es| - 1, h);
  }

  lemma LostBefore(s: State, es: seq<Event>, init: seq<Event>, h: string)
    requires AllowedRun(s, es) && es != [] && init == es[..|es| - 1] && AllowedRun(s, init) && EverLost(s, es, h)
    ensures EverLost(s, init, h) || Loses(After(s, init), es[|es| - 1], h)
  {
    var k :| LostAt(s, es, k, h);
    if k < |es| - 1 { LostAtInit(s, es, k, h); }
  }

  lemma GoneSnoc(s: State, es: seq<Event>, init: seq<Event>, h: string)
    requires AllowedRun(s, es) && es != [] && init == es[..|es| - 1] && AllowedRun(s, init)
    requires h in HashesOf(After(s, es).chain)
    ensures GoneThroughout(s, es, h) <==> GoneThroughout(s, init, h)
  {
    var n := |es| - 1;
    assert es[..|es|] == es;
    forall j | 0 <= j <= n ensures InChainAt(s, es, j, h) <==> InChainAt(s, init, j, h) {
      StateAtPrefix(s, es, n, j);
    }
    if GoneThroughout(s, init, h) {
      forall j | 0 <= j <= |es| ensures InChainAt(s, es, j, h) {
        if j <= n { assert InChainAt(s, init, j, h); }
      }
    }
    if GoneThroughout(s, es, h) {
      forall j | 0 <= j <= n ensures InChainAt(s, init, j, h) { assert InChainAt(s, es, j, h); }
    }
  }

  /** Gone throughout or ever lost, the block is in the chain at the end. */
  lemma GoneIsInChain(s: State, es: seq<Event>, h: string)
    requires AllowedRun(s, es) && (GoneThroughout(s, es, h) || EverLost(s, es, h))
    ensures h in HashesOf(After(s, es).chain)
  {
    assert es[..|es|] == es;
    assert InChainAt(s, es, |es|, h);
  }

  lemma LostAtInit(s: State, es: seq<Event>, k: int, h: string)
    requires AllowedRun(s, es) && LostAt(s, es, k, h) && k < |es| - 1
    ensures AllowedRun(s, es[..|es| - 1]) && LostAt(s, es[..|es| - 1], k, h)
  {
    var n := |es| - 1;
    StateAtPrefix(s, es, n, k);
    forall j | k < j <= n ensures InChainAt(s, es[..n], j, h) {
      StateAtPrefix(s, es, n, j);
      assert InChainAt(s, es, j, h);
    }
  }

  lemma LostAtSnoc(s: State, es: seq<Event>, k: int, h: string)
    requires AllowedRun(s, es) && es != [] && AllowedRun(s, es[..|es| - 1]) && LostAt(s, es[..|es| - 1], k, h)
    requires InChainAt(s, es, |es|, h)
    ensures LostAt(s, es, k, h)
  {
    var n := |es| - 1;
    StateAtPrefix(s, es, n, k);
    forall j | k < j <= |es| ensures InChainAt(s, es, j, h) {
      if j <= n {
        StateAtPrefix(s, es, n, j);
        assert InChainAt(s, es[..n], j, h);
      }
    }
  }

  /**
   After every run, a block of the chain has lost its transactions for good exactly when it had at the
   start, or some step lost it, and it has stayed in the chain since.
   */
  lemma {:induction false} LossIff(s: State, es: seq<Event>, h: string)
    requires Inv(s) && AllowedRun(s, es) && h in HashesOf(After(s, es).chain)
    ensures h in Gone(After(s, es)) <==> GoneThroughout(s, es, h) || EverLost(s, es, h)
    decreases |es|
  {
    if es == [] {
      assert es[..0] == es && (InChainAt(s, es, 0, h) <==> h in HashesOf(s.chain));
    } else {
      var n := |es| - 1;
      var init := es[..n];
      RunSnoc(s, es);
      RunKeepsInv(s, init);
      StepLoses(After(s, init), es[n], h);
      EverLostSnoc(s, es, init, h);
      GoneSnoc(s, es, init, h);
      if h in HashesOf(After(s, init).chain) {
        LossIff(s, init, h);
      } else if GoneThroughout(s, init, h) || EverLost(s, init, h) {
        GoneIsInChain(s, init, h);
      }
    }
  }

  /** What is gone stays gone: no run brings back the transactions of a block that stays in the chain. */
  lemma LostStays(s: State, es: seq<Event>, i: nat, x: string)
    requires Inv(s) && AllowedRun(s, es) && i < |s.chain| && s.chain[i].hash in Gone(s) && x in s.chain[i].txs
    requires forall j :: 0 <= j <= |es| ==> i < |StateAt(s, es, j).chain| && StateAt(s, es, j).chain[i] == s.chain[i]
    ensures x !in After(s, es).t.tx
  {
    var h := s.chain[i].hash;
    forall j | 0 <= j <= |es| ensures InChainAt(s, es, j, h) {
      assert StateAt(s, es, j).chain[i] == s.chain[i];
    }
    assert es[..|es|] == es && StateAt(s, es, |es|).chain[i] == s.chain[i];
    LossIff(s, es, h);
    RunKeepsInv(s, es);
    LookupIff(After(s, es), i, x, s.chain[i].Key());
  }

  /**
   Lookup after every run, between batches: a transaction of a block of the chain is found exactly when
   no step since has lost the block, and it then resolves to the block's own point and no other.
   */
  lemma LookupFindsBlock(es: seq<Event>, i: nat, x: string, k: PointKey)
    requires AllowedRun(START, es)
    requires var s := After(START, es); !s.phase.Indexing? && i < |s.chain| && x in s.chain[i].txs
    ensures var s := After(START, es);
            && (x in s.t.tx <==> !EverLost(START, es, s.chain[i].hash))
            && (x in s.t.tx ==> (RegularAt(s.t.point, k, s.t.tx[x]) <==> k == s.chain[i].Key()))
  {
    var s := After(START, es);
    StartInv();
    RunKeepsInv(START, es);
    assert s.chain[i].hash in HashesOf(s.chain);
    LossIff(START, es, s.chain[i].hash);
    LookupIff(s, i, x, k);
  }

  // ------------------------------------------------------ the process dies between the commits

  /** A restart between the two commits: the block keeps its row and height, its transactions are gone. */
  lemma RestartLoses(s: State, top: PointRef, i: nat, x: string)
    requires Inv(s) && s.phase.Indexing? && Allowed(s, Restart(top))
    requires s.phase.from <= i < |s.chain| && x in s.chain[i].txs
    ensures var r := Apply(s, Restart(top));
            && r.chain == s.chain && RowAt(r.t.point, r.chain, i) && s.chain[i].hash in Gone(r) && x !in r.t.tx
  {
    PendingHash(s, i);
    RestartKeepsInv(s, top);
    LookupIff(s, i, x, s.chain[i].Key());
    RowIsThere(s, i);
  }

  lemma PendingHash(s: State, i: nat)
    requires s.phase.Indexing? && s.phase.from <= i < |s.chain|
    ensures s.chain[i].hash in HashesOf(s.chain[s.phase.from..])
  {
    assert s.chain[s.phase.from..][i - s.phase.from] == s.chain[i];
  }

  lemma RowIsThere(s: State, i: nat)
    requires Inv(s) && i < |s.chain|
    ensures RowAt(s.t.point, s.chain, i)
  {
  }

  /** It can happen to every batch: from any settled state the next blocks may end up without transactions. */
  lemma LossIsReached(s: State, blocks: seq<Block>, j: nat, x: string) returns (end: State)
    requires Reached(s) && Settles(s) && Next(s.chain, blocks) && j < |blocks| && x in blocks[j].txs
    ensures Reached(end) && Inv(end) && end.phase.Idle? && end.chain == s.chain + blocks
    ensures RowAt(end.t.point, end.chain, |s.chain| + j) && x !in end.t.tx
  {
    var mid := FetchingReached(s, blocks);
    NamedIsAccepted(s.chain, blocks);
    IndexingReached(mid, blocks);
    var i := |s.chain| + j;
    assert (s.chain + blocks)[i] == blocks[j];
    end := RestartThere(Apply(mid, Fetched(blocks)), i, x);
  }

  lemma FetchingReached(s: State, blocks: seq<Block>) returns (mid: State)
    requires Reached(s) && Settles(s) && Next(s.chain, blocks)
    ensures Reached(mid) && Inv(mid) && Allowed(mid, Fetched(blocks)) && mid.chain == s.chain
  {
    mid := WhileFetching(s, blocks);
    BatchIsRead(s, blocks);
    StepReaches(s, Arrive(PointsOf(blocks)));
    StepReaches(Apply(s, Arrive(PointsOf(blocks))), Read(PointsOf(blocks), 0, CursorAfter(s.chain)));
    BatchIsFetched(s, blocks);
  }

  lemma IndexingReached(s: State, blocks: seq<Block>)
    requires Reached(s) && Inv(s) && Allowed(s, Fetched(blocks)) && Pass(CursorAfter(s.chain), blocks).Accepted?
    ensures var r := Apply(s, Fetched(blocks));
            Reached(r) && Inv(r) && r.phase.Indexing? && r.phase.from == |s.chain| && r.chain == s.chain + blocks
  {
    StepReaches(s, Fetched(blocks));
    FetchedKeepsInv(s, blocks);
  }

  lemma RestartThere(s: State, i: nat, x: string) returns (end: State)
    requires Reached(s) && Inv(s) && s.phase.Indexing? && s.phase.from <= i < |s.chain| && x in s.chain[i].txs
    ensures Reached(end) && Inv(end) && end.phase.Idle? && end.chain == s.chain
    ensures RowAt(end.t.point, end.chain, i) && x !in end.t.tx
  {
    var top := TopOf(s.chain);
    HighestAnswer(s.t.point, s.chain, top);
    assert Allowed(s, Restart(top));
    RestartLoses(s, top, i, x);
    RestartKeepsInv(s, top);
    StepReaches(s, Restart(top));
    end := Apply(s, Restart(top));
  }
}
