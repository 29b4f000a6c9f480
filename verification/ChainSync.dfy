/**
 The chain-sync callbacks of the client: arriving points are buffered and handed to the
 database in bulk, rollbacks go to the processor, transactions are looked up.
 */
module ChainSync {
  import opened Tables
  import opened Chain
  import opened ChainIndex
  import opened Database
  import opened Processor
  import opened Run
  import opened Wrappers

  /** What the client holds: the pending points, whether the tip was seen, and all points handed on so far. */
  datatype Sync = Sync(pending: seq<PointRef>, tipReached: bool, stored: seq<PointRef>)

  datatype Forward = Forward(point: PointRef, tipSlot: nat)

  const FRESH := Sync([], false, [])

  function Receive(s: Sync, f: Forward): Sync {
    var pending := s.pending + [f.point];
    var tip := s.tipReached || f.tipSlot == f.point.slot;
    if |pending| >= BLOCK_BATCH_SIZE || tip then Sync([], tip, s.stored + pending) else Sync(pending, tip, s.stored)
  }

  function ReceiveAll(fs: seq<Forward>): Sync {
    if fs == [] then FRESH else Receive(ReceiveAll(fs[..|fs| - 1]), fs[|fs| - 1])
  }

  function PointsOf(fs: seq<Forward>): seq<PointRef> {
    seq(|fs|, i requires 0 <= i < |fs| => fs[i].point)
  }

  /**
   Over any run of roll-forwards no point is lost, repeated or reordered. Before the tip is seen points are
   handed on by the 10000; once it has been seen, by exactly the points that were the tip, all are.
   */
  lemma {:induction false} PointsConserved(fs: seq<Forward>)
    ensures ReceiveAll(fs).stored + ReceiveAll(fs).pending == PointsOf(fs)
    ensures ReceiveAll(fs).tipReached ==> ReceiveAll(fs).stored == PointsOf(fs)
    ensures !ReceiveAll(fs).tipReached ==> |ReceiveAll(fs).stored| == |fs| - |fs| % 10000
    ensures ReceiveAll(fs).tipReached <==> exists i :: 0 <= i < |fs| && fs[i].tipSlot == fs[i].point.slot
  {
    if fs != [] {
      var n := |fs| - 1;
      PointsConserved(fs[..n]);
      assert PointsOf(fs) == PointsOf(fs[..n]) + [fs[n].point];
      assert forall i :: 0 <= i < n ==> fs[..n][i] == fs[i];
    }
  }

  /** Either nothing was handed on since, or all that was pending. */
  lemma {:induction false} FlushTakesAll(fs: seq<Forward>, gs: seq<Forward>)
    ensures ReceiveAll(fs + gs).stored == ReceiveAll(fs).stored || |fs| < |ReceiveAll(fs + gs).stored|
    decreases |gs|
  {
    if gs == [] {
      assert fs + gs == fs;
    } else {
      var init := gs[..|gs| - 1];
      assert (fs + gs)[..|fs + gs| - 1] == fs + init;
      FlushTakesAll(fs, init);
      PointsConserved(fs + init);
    }
  }

  /** Among the points received before a rollback there is one, from its slot on, that is handed on after it. */
  ghost predicate HandsOnStale(fs: seq<Forward>, gs: seq<Forward>, slot: nat) {
    exists i :: |ReceiveAll(fs).stored| <= i < |ReceiveAll(fs + gs).stored| && i < |fs| && slot <= PointsOf(fs + gs)[i].slot
  }

  /** A point from this slot on is pending. */
  ghost predicate PendsStale(fs: seq<Forward>, slot: nat) {
    exists j :: 0 <= j < |ReceiveAll(fs).pending| && slot <= ReceiveAll(fs).pending[j].slot
  }

  /**
   A rollback leaves the pending points alone. So the next hand-over after it gives the database a point
   that the rollback abandoned exactly when such a point was pending.
   */
  lemma {:induction false} StaleIffPending(fs: seq<Forward>, gs: seq<Forward>, slot: nat)
    requires ReceiveAll(fs + gs).stored != ReceiveAll(fs).stored
    ensures ReceiveAll(fs + gs).stored <= PointsOf(fs + gs)
    ensures HandsOnStale(fs, gs, slot) <==> PendsStale(fs, slot)
  {
    var before, all := ReceiveAll(fs), PointsOf(fs + gs);
    var n := |before.stored|;
    PointsConserved(fs);
    PointsConserved(fs + gs);
    FlushTakesAll(fs, gs);
    forall i | n <= i < |fs| ensures all[i] == before.pending[i - n] {
      assert (before.stored + before.pending)[i] == fs[i].point;
    }
    if PendsStale(fs, slot) {
      var j :| 0 <= j < |before.pending| && slot <= before.pending[j].slot;
      assert all[n + j] == before.pending[j];
    }
  }

  datatype Lookup = NoSuchTx | NoSuchPoint | NoBlock | NotInBlock | Found(block: Block)

  /** What the lookup makes of the block it was led to. */
  function InBlock(hash: string, block: Option<Block>): Lookup {
    if block.None? then NoBlock else if hash in block.value.txs then Found(block.value) else NotInBlock
  }

  /** On tables that index a chain, a stored transaction leads to its own block's point and no other. */
  lemma LookupLeads(t: Tables, chain: seq<Block>, lost: set<string>, i: nat, x: string)
    requires Indexes(t, chain, lost) && Holds(chain, lost, i, x)
    ensures x in t.tx && RegularAt(t.point, chain[i].Key(), t.tx[x])
    ensures forall k :: RegularAt(t.point, k, t.tx[x]) ==> ToRef(t.point, k) == chain[i].Ref(Height(chain, i))
  {
    assert RowAt(t.point, chain, i);
    forall k | RegularAt(t.point, k, t.tx[x]) ensures k == chain[i].Key() {
      HeightFindsBlock(t.point, chain, i, k);
    }
  }

  class Client {
    const db: SqliteDatabase
    const processor: BlockProcessor
    const startSlot: nat
    var points: seq<PointRef>
    var tipReached: bool

    constructor (processor: BlockProcessor, startSlot: nat)
      ensures this.processor == processor && this.db == processor.db && this.startSlot == startSlot
      ensures points == [] && !tipReached
    {
      this.processor, this.db, this.startSlot := processor, processor.db, startSlot;
      points, tipReached := [], false;
    }

    /** Buffers the point; stores the buffer, and wakes the processor, when it is full or the tip is reached. */
    method OnRollForwards(point: PointRef, tipSlot: nat) returns (stored: seq<PointRef>, wake: bool)
      modifies this, db`point
      ensures forall before :: Receive(Sync(old(points), old(tipReached), before), Forward(point, tipSlot)) ==
                               Sync(points, tipReached, before + stored)
      ensures db.View() == old(db.View()).(point := WithPoints(old(db.point), stored))
      ensures wake <==> stored != []
    {
      stored, wake := [], false;
      points := points + [point];
      if !tipReached && tipSlot == point.slot {
        tipReached := true;
      }
      if |points| >= BLOCK_BATCH_SIZE || tipReached {
        stored, wake := points, true;
        db.AddPoints(points);
        points := [];
      }
      assert forall before: seq<PointRef> :: before + [] == before;
    }

    /** A rollback above the start slot goes to the processor; the pending points stay as they are, see StaleIffPending. */
    method OnRollBackwards(slot: nat) returns (ok: bool, ghost before: PointRef, ghost after: PointRef)
      requires db == processor.db
      modifies processor`highestPoint, db
      ensures slot > startSlot ==>
                HighestIs(old(db.point), before) && HighestIs(RolledBack(old(db.View()), slot).point, after)
      ensures ok <==> (startSlot < slot < before.slot ==> !ArchiveClash(old(db.View()), slot))
      ensures var rolls := startSlot < slot < before.slot && ok;
              && db.View() == (if rolls then RolledBack(old(db.View()), slot) else old(db.View()))
              && processor.highestPoint == (if rolls && after != NO_POINT then after else old(processor.highestPoint))
    {
      ok, before, after := true, NO_POINT, NO_POINT;
      if slot > startSlot {
        ok, before, after := processor.HandleRollback(slot);
      }
    }

    /**
     The lookup chain: transaction to height, height to point, point to block, block to transaction. On
     tables that index a chain it ends at the block of the chain that holds the transaction.
     */
    method GetTransaction(hash: string, getBlock: PointRef -> Option<Block>) returns (r: Lookup)
      ensures r.NoSuchTx? <==> hash !in db.tx
      ensures r.NoSuchPoint? <==> hash in db.tx && forall k :: !RegularAt(db.point, k, db.tx[hash])
      ensures r.Found? || r.NotInBlock? ==>
                exists k :: RegularAt(db.point, k, db.tx[hash]) && getBlock(ToRef(db.point, k)).Some? &&
                            (r.Found? <==> hash in getBlock(ToRef(db.point, k)).value.txs) &&
                            (r.Found? ==> r.block == getBlock(ToRef(db.point, k)).value)
      ensures forall chain: seq<Block>, lost: set<string>, i: nat ::
                Indexes(db.View(), chain, lost) && Holds(chain, lost, i, hash) ==>
                  r == InBlock(hash, getBlock(chain[i].Ref(Height(chain, i))))
      ensures r.NoBlock? ==> exists k :: RegularAt(db.point, k, db.tx[hash]) && getBlock(ToRef(db.point, k)).None?
    {
      forall chain: seq<Block>, lost: set<string>, i: nat | Indexes(db.View(), chain, lost) && Holds(chain, lost, i, hash)
        ensures hash in db.tx && RegularAt(db.point, chain[i].Key(), db.tx[hash])
        ensures forall k :: RegularAt(db.point, k, db.tx[hash]) ==> ToRef(db.point, k) == chain[i].Ref(Height(chain, i))
      {
        LookupLeads(db.View(), chain, lost, i, hash);
      }
      var height := db.GetBlockNumForTx(hash);
      if height.None? {
        return NoSuchTx;
      }
      var point := db.GetPointByHeight(height.value);
      if point.None? {
        return NoSuchPoint;
      }
      var block := getBlock(point.value);
      ghost var k := point.value.Key();
      assert RegularAt(db.point, k, db.tx[hash]) && point.value == ToRef(db.point, k);
      if block.None? {
        return NoBlock;
      }
      var found := false;
      for i := 0 to |block.value.txs|
        invariant found <==> hash in block.value.txs[..i]
      {
        if block.value.txs[i] == hash {
          found := true;
        }
      }
      assert block.value.txs[..|block.value.txs|] == block.value.txs;
      r := if found then Found(block.value) else NotInBlock;
    }
  }
}
