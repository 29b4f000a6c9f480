/**
 What the tables hold when they index a chain: `chain` lists the accepted and
 surviving blocks in order, `lost` the hashes of those whose transactions are not
 in the tx table. The tables are exactly what one pass over the whole chain writes.
 */
module ChainIndex {
  import opened Tables
  import opened Chain

  function KeysOf(chain: seq<Block>): set<PointKey> {
    set i | 0 <= i < |chain| :: chain[i].Key()
  }

  /** Slots rise; only a boundary block may share its slot, with the regular block after it. */
  ghost predicate Ordered(chain: seq<Block>) {
    forall i, j :: 0 <= i < j < |chain| ==>
      && chain[i].slot <= chain[j].slot
      && (chain[i].slot == chain[j].slot ==> chain[i].Boundary() && !chain[j].Boundary())
  }

  ghost predicate Named(chain: seq<Block>) {
    && (forall i :: 0 <= i < |chain| ==> chain[i].hash != "")
    && (forall i, j :: 0 <= i < j < |chain| ==> chain[i].hash != chain[j].hash)
  }

  /** Boundary blocks carry no transactions and no transaction occurs twice. */
  ghost predicate TxsOnce(chain: seq<Block>) {
    && (forall i :: 0 <= i < |chain| && chain[i].Boundary() ==> chain[i].txs == [])
    && (forall i, p, q :: 0 <= i < |chain| && 0 <= p < q < |chain[i].txs| ==> chain[i].txs[p] != chain[i].txs[q])
    && (forall i, j, x :: 0 <= i < |chain| && 0 <= j < |chain| && x in chain[i].txs && x in chain[j].txs ==> i == j)
  }

  ghost predicate WellFormed(chain: seq<Block>) {
    Ordered(chain) && Named(chain) && TxsOnce(chain)
  }

  /** Every block of the chain has a row, at its one-batch height. */
  ghost predicate RowsStored(point: map<PointKey, Row>, chain: seq<Block>) {
    forall i {:trigger chain[i].Key()} :: 0 <= i < |chain| ==> RowAt(point, chain, i)
  }

  predicate RowAt(point: map<PointKey, Row>, chain: seq<Block>, i: nat)
    requires i < |chain|
  {
    chain[i].Key() in point && point[chain[i].Key()] == Row(chain[i].kind, Height(chain, i))
  }

  /** No other row is processed. */
  ghost predicate RowsClosed(point: map<PointKey, Row>, chain: seq<Block>) {
    forall k :: k in point ==> point[k].height == UNPROCESSED || k in KeysOf(chain)
  }

  /** Unprocessed rows lie above the chain. */
  ghost predicate RowsAbove(point: map<PointKey, Row>, chain: seq<Block>) {
    forall k, i :: k in Unprocessed(point) && 0 <= i < |chain| ==> chain[i].slot < k.slot
  }

  ghost predicate HashesSound(point: map<PointKey, Row>) {
    HashesIdentify(point) && forall k :: k in point ==> k.hash != ""
  }

  /** The point table: processed rows are the chain's blocks at their one-batch heights, the rest lie above. */
  ghost predicate PointsMatch(point: map<PointKey, Row>, chain: seq<Block>) {
    RowsStored(point, chain) && RowsClosed(point, chain) && RowsAbove(point, chain) && HashesSound(point)
  }

  ghost predicate TxsStored(tx: map<string, nat>, chain: seq<Block>, lost: set<string>) {
    forall i, x :: Holds(chain, lost, i, x) ==> x in tx && tx[x] == Height(chain, i)
  }

  ghost predicate Holds(chain: seq<Block>, lost: set<string>, i: int, x: string) {
    0 <= i < |chain| && chain[i].hash !in lost && x in chain[i].txs
  }

  ghost predicate TxsClosed(tx: map<string, nat>, chain: seq<Block>, lost: set<string>) {
    forall x :: x in tx ==> exists i :: Holds(chain, lost, i, x)
  }

  /** The tx table: one row per transaction of each block not lost, at that block's height, and no other. */
  ghost predicate TxsMatch(tx: map<string, nat>, chain: seq<Block>, lost: set<string>) {
    TxsStored(tx, chain, lost) && TxsClosed(tx, chain, lost)
  }

  ghost predicate Indexes(t: Tables, chain: seq<Block>, lost: set<string>) {
    WellFormed(chain) && PointsMatch(t.point, chain) && TxsMatch(t.tx, chain, lost)
  }

  // ------------------------------------------------------ what it means

  /** Heights of regular blocks are unique, and slot order is height order. */
  lemma SlotOrderIsHeightOrder(point: map<PointKey, Row>, chain: seq<Block>, j: PointKey, k: PointKey)
    requires Ordered(chain) && PointsMatch(point, chain)
    requires j in point && k in point && point[j].height != UNPROCESSED && point[k].height != UNPROCESSED
    requires point[j].kind != BOUNDARY && point[k].kind != BOUNDARY
    ensures point[j].height == point[k].height <==> j == k
    ensures j.slot < k.slot <==> point[j].height < point[k].height
  {
    var a :| 0 <= a < |chain| && chain[a].Key() == j;
    var b :| 0 <= b < |chain| && chain[b].Key() == k;
    if a < b { HeightsRise(0, chain, a, b); }
    if b < a { HeightsRise(0, chain, b, a); }
  }

  /** Regular heights leave no gap between the first one, 0 or 1, and the highest. */
  lemma HeightsLeaveNoGap(point: map<PointKey, Row>, chain: seq<Block>, k: PointKey, h: nat) returns (j: PointKey)
    requires Ordered(chain) && PointsMatch(point, chain)
    requires k in point && point[k].kind != BOUNDARY
    requires (if chain != [] && chain[0].Boundary() then 1 else 0) <= h <= point[k].height
    ensures RegularAt(point, j, h)
  {
    var a :| 0 <= a < |chain| && chain[a].Key() == k;
    HeightsRise(0, chain, a, |chain|);
    var i := HeightsContiguous(chain, h);
    j := chain[i].Key();
  }

  /** The row GetPointByHeight finds at a regular block's height is that block's, and there is no other. */
  lemma HeightFindsBlock(point: map<PointKey, Row>, chain: seq<Block>, i: nat, k: PointKey)
    requires Ordered(chain) && PointsMatch(point, chain)
    requires i < |chain| && !chain[i].Boundary()
    ensures RegularAt(point, k, Height(chain, i)) <==> k == chain[i].Key()
  {
    if RegularAt(point, k, Height(chain, i)) {
      SlotOrderIsHeightOrder(point, chain, k, chain[i].Key());
    }
  }

  /**
   GetHighestPoint finds a row exactly when the chain ends in a regular block; the row is then the
   chain's last block and the only candidate.
   */
  lemma HighestIsTop(point: map<PointKey, Row>, chain: seq<Block>, k: PointKey)
    requires Ordered(chain) && RowsStored(point, chain) && RowsClosed(point, chain)
    ensures HighestRow(point, k) <==> chain != [] && EndsRegular(chain) && k == chain[|chain| - 1].Key()
  {
    if chain != [] {
      var n := |chain| - 1;
      forall j | j in point ensures point[j].height <= Height(chain, n) {
        if point[j].height != UNPROCESSED {
          var a :| 0 <= a < |chain| && chain[a].Key() == j;
          HeightsRise(0, chain, a, n);
        }
      }
      if HighestRow(point, k) {
        var b :| 0 <= b < |chain| && chain[b].Key() == k;
        assert point[chain[n].Key()].height <= point[k].height;
        if b < n { HeightsRise(0, chain, b, n); }
      }
    }
  }

  lemma HighestAnswer(point: map<PointKey, Row>, chain: seq<Block>, top: PointRef)
    requires Ordered(chain) && RowsStored(point, chain) && RowsClosed(point, chain) && EndsRegular(chain)
    ensures HighestIs(point, top) <==> top == TopOf(chain)
  {
    HighestIsTop(point, chain, top.Key());
    if chain != [] {
      var n := |chain| - 1;
      HighestIsTop(point, chain, chain[n].Key());
      assert ToRef(point, chain[n].Key()) == TopOf(chain);
    } else {
      forall k ensures !HighestRow(point, k) { HighestIsTop(point, chain, k); }
    }
  }

  /** No unprocessed row lies behind a processed one, so the boundary query never meets a row. */
  lemma NothingBehindTop(point: map<PointKey, Row>, chain: seq<Block>, r: Behind)
    requires PointsMatch(point, chain) && chain != []
    ensures BehindIs(point, TopOf(chain).hash, r) <==> r == NoRowBehind
  {
    var k := chain[|chain| - 1].Key();
    assert k in point && k.hash == TopOf(chain).hash;
    assert forall j :: j in Unprocessed(point) ==> k.slot <= j.slot;
  }

  // ------------------------------------------------------ where a batch starts

  /** The cursor a batch starts with, given the cached highest point; the stored boundary hash is empty or unreadable. */
  ghost predicate StartsAt(point: map<PointKey, Row>, cache: PointRef, c: Cursor) {
    var h := if cache.hash != "" then cache.height + 1 else cache.height;
    if h == 0 then c == Cursor(0, "", "")
    else BehindIs(point, cache.hash, NoRowBehind) && c == Cursor(h, cache.hash, "")
  }

  function CursorAfter(chain: seq<Block>): Cursor {
    if chain == [] then Cursor(0, "", "") else Cursor(Height(chain, |chain|), TopOf(chain).hash, "")
  }

  /** With the chain's top cached, a batch starts right above it, with an empty boundary hash. */
  lemma StartsAfterTop(point: map<PointKey, Row>, chain: seq<Block>, c: Cursor)
    requires PointsMatch(point, chain) && Named(chain) && EndsRegular(chain)
    ensures StartsAt(point, TopOf(chain), c) <==> c == CursorAfter(chain)
  {
    if chain != [] {
      HeightContinues(chain, [], |chain|);
      NothingBehindTop(point, chain, NoRowBehind);
    }
  }

  /**
   A batch can start exactly when no point is cached, or the cached point has a row and no unprocessed
   row lies behind it: one such row stops the processor.
   */
  lemma StartsIff(point: map<PointKey, Row>, cache: PointRef)
    requires HashesIdentify(point) && (cache.hash == "" ==> cache.height == 0)
    ensures (exists c :: StartsAt(point, cache, c)) <==>
            cache.hash == "" ||
            ((exists k :: k in point && k.hash == cache.hash) && !BehindIs(point, cache.hash, Unreadable))
  {
    var h := if cache.hash != "" then cache.height + 1 else cache.height;
    if h == 0 {
      assert StartsAt(point, cache, Cursor(0, "", ""));
    } else if BehindIs(point, cache.hash, NoRowBehind) {
      assert StartsAt(point, cache, Cursor(h, cache.hash, ""));
    } else if k :| k in point && k.hash == cache.hash {
      var j :| j in Unprocessed(point) && j.slot < k.slot;
    }
  }

  /** A regular block above height 0 names the latest regular block, the latest boundary block, or no block. */
  predicate LinkSound(chain: seq<Block>, k: nat)
    requires k < |chain|
  {
    Height(chain, k) > 0 && !chain[k].Boundary() ==>
      || chain[k].prevHash == LatestRegular(chain[..k], "")
      || chain[k].prevHash == LatestBoundary(chain[..k], "")
      || chain[k].prevHash == ""
  }

  ghost predicate Linked(chain: seq<Block>) {
    forall k {:trigger LinkSound(chain, k)} :: 0 <= k < |chain| ==> LinkSound(chain, k)
  }

  lemma {:induction false} LatestRegularAppend(a: seq<Block>, b: seq<Block>, otherwise: string)
    ensures LatestRegular(a + b, otherwise) == LatestRegular(b, LatestRegular(a, otherwise))
  {
    if b == [] {
      assert a + b == a;
    } else {
      assert (a + b)[..|a + b| - 1] == a + b[..|b| - 1];
      LatestRegularAppend(a, b[..|b| - 1], otherwise);
    }
  }

  lemma {:induction false} LatestBoundaryAppend(a: seq<Block>, b: seq<Block>)
    ensures LatestBoundary(b, "") in {LatestBoundary(a + b, ""), ""}
  {
    if b != [] {
      assert (a + b)[..|a + b| - 1] == a + b[..|b| - 1];
      LatestBoundaryAppend(a, b[..|b| - 1]);
    }
  }

  /** An accepted batch keeps the chain linked. */
  lemma LinksExtend(chain: seq<Block>, blocks: seq<Block>)
    requires Linked(chain) && EndsRegular(chain) && Pass(CursorAfter(chain), blocks).Accepted?
    ensures Linked(chain + blocks)
  {
    var all := chain + blocks;
    forall k | 0 <= k < |all| ensures LinkSound(all, k) {
      if k < |chain| {
        assert LinkSound(chain, k) && all[..k] == chain[..k] && all[..|chain|] == chain;
        HeightAtPrefix(0, all, |chain|, k);
      } else {
        NewLinkSound(chain, blocks, k);
      }
    }
  }

  lemma NewLinkSound(chain: seq<Block>, blocks: seq<Block>, k: nat)
    requires EndsRegular(chain) && Pass(CursorAfter(chain), blocks).Accepted?
    requires |chain| <= k < |chain| + |blocks|
    ensures LinkSound(chain + blocks, k)
  {
    var j := k - |chain|;
    PassMeans(CursorAfter(chain), blocks);
    assert LinkedAt(CursorAfter(chain), blocks, j);
    HeightContinues(chain, blocks, k);
    assert (chain + blocks)[..k] == chain + blocks[..j];
    LatestRegularAppend(chain, blocks[..j], "");
    LatestBoundaryAppend(chain, blocks[..j]);
  }

  // ------------------------------------------------------ growing the chain

  /** The blocks are those of unprocessed rows, of the stored kind. */
  ghost predicate Awaits(point: map<PointKey, Row>, blocks: seq<Block>) {
    forall i :: 0 <= i < |blocks| ==>
      blocks[i].Key() in Unprocessed(point) && point[blocks[i].Key()].kind == blocks[i].kind
  }

  /** Moreover every other unprocessed row lies above them. */
  ghost predicate Covers(point: map<PointKey, Row>, blocks: seq<Block>) {
    && Awaits(point, blocks)
    && (forall k, i :: k in Unprocessed(point) && k !in KeysOf(blocks) && 0 <= i < |blocks| ==> blocks[i].slot < k.slot)
  }

  lemma CoveredExtends(point: map<PointKey, Row>, chain: seq<Block>, blocks: seq<Block>)
    requires Ordered(chain) && Named(chain) && PointsMatch(point, chain)
    requires Ordered(blocks) && Covers(point, blocks)
    requires forall i, j :: 0 <= i < j < |blocks| ==> blocks[i].Key() != blocks[j].Key()
    ensures Ordered(chain + blocks) && Named(chain + blocks)
  {
    forall i | 0 <= i < |blocks| ensures blocks[i].hash != "" && blocks[i].Key() in point {
      assert blocks[i].Key() in Unprocessed(point);
    }
    forall i, j | 0 <= i < j < |blocks| ensures blocks[i].hash != blocks[j].hash {
      assert blocks[i].Key() != blocks[j].Key();
    }
    forall i, j | 0 <= i < |chain| && 0 <= j < |blocks|
      ensures chain[i].slot < blocks[j].slot && chain[i].hash != blocks[j].hash
    {
      assert blocks[j].Key() in Unprocessed(point);
      assert chain[i].Key() in point;
    }
  }

  lemma KeysOfAppend(chain: seq<Block>, blocks: seq<Block>)
    ensures KeysOf(chain + blocks) == KeysOf(chain) + KeysOf(blocks)
  {
    var all := chain + blocks;
    forall i | 0 <= i < |chain| ensures chain[i].Key() in KeysOf(all) { assert all[i] == chain[i]; }
    forall i | 0 <= i < |blocks| ensures blocks[i].Key() in KeysOf(all) { assert all[|chain| + i] == blocks[i]; }
  }

  /** Writing the heights of a covered batch: the tables then index the longer chain. */
  lemma HeightsExtend(point: map<PointKey, Row>, chain: seq<Block>, blocks: seq<Block>, h0: nat)
    requires PointsMatch(point, chain) && Named(chain + blocks) && EndsRegular(chain)
    requires Covers(point, blocks) && h0 == Height(chain, |chain|)
    ensures PointsMatch(SetHeights(point, RefsFrom(h0, blocks)), chain + blocks)
  {
    SetHeightsFrame(point, RefsFrom(h0, blocks));
    RowsExtend(point, chain, blocks, h0);
    ClosedExtends(point, chain, blocks, h0);
    AboveExtends(point, chain, blocks, h0);
  }

  lemma RowsExtend(point: map<PointKey, Row>, chain: seq<Block>, blocks: seq<Block>, h0: nat)
    requires RowsStored(point, chain) && HashesIdentify(point) && Named(chain + blocks) && EndsRegular(chain)
    requires Awaits(point, blocks) && h0 == Height(chain, |chain|)
    ensures RowsStored(SetHeights(point, RefsFrom(h0, blocks)), chain + blocks)
  {
    var all := chain + blocks;
    var after := SetHeights(point, RefsFrom(h0, blocks));
    forall i | 0 <= i < |all| ensures RowAt(after, all, i) {
      if i < |chain| {
        OldRowKept(point, chain, blocks, h0, i);
      } else {
        NewRowSet(point, chain, blocks, h0, i);
      }
    }
  }

  lemma ClosedExtends(point: map<PointKey, Row>, chain: seq<Block>, blocks: seq<Block>, h0: nat)
    requires RowsClosed(point, chain) && HashesIdentify(point) && Awaits(point, blocks)
    ensures RowsClosed(SetHeights(point, RefsFrom(h0, blocks)), chain + blocks)
  {
    KeysOfAppend(chain, blocks);
    SetHeightsFrame(point, RefsFrom(h0, blocks));
    forall k | k in point
      ensures SetHeights(point, RefsFrom(h0, blocks))[k].height == UNPROCESSED || k in KeysOf(chain + blocks)
    {
      KeptOrNamed(point, blocks, h0, k);
    }
  }

  lemma AboveExtends(point: map<PointKey, Row>, chain: seq<Block>, blocks: seq<Block>, h0: nat)
    requires RowsAbove(point, chain) && HashesIdentify(point) && Covers(point, blocks)
    requires RowsStored(SetHeights(point, RefsFrom(h0, blocks)), chain + blocks)
    ensures RowsAbove(SetHeights(point, RefsFrom(h0, blocks)), chain + blocks)
  {
    var all := chain + blocks;
    var after := SetHeights(point, RefsFrom(h0, blocks));
    SetHeightsFrame(point, RefsFrom(h0, blocks));
    forall k, i | k in Unprocessed(after) && 0 <= i < |all| ensures all[i].slot < k.slot {
      forall j | 0 <= j < |blocks| ensures blocks[j].Key() != k {
        assert all[|chain| + j] == blocks[j];
      }
      assert k !in KeysOf(blocks);
      KeptOrNamed(point, blocks, h0, k);
      assert k in Unprocessed(point);
    }
  }

  /** A row not in the batch keeps its height. */
  lemma KeptOrNamed(point: map<PointKey, Row>, blocks: seq<Block>, h0: nat, k: PointKey)
    requires HashesIdentify(point) && k in point
    requires forall i :: 0 <= i < |blocks| ==> blocks[i].Key() in Unprocessed(point)
    ensures k in SetHeights(point, RefsFrom(h0, blocks))
    ensures k in KeysOf(blocks) || SetHeights(point, RefsFrom(h0, blocks))[k] == point[k]
  {
    var refs := RefsFrom(h0, blocks);
    SetHeightsFrame(point, refs);
    if k !in KeysOf(blocks) {
      forall i | 0 <= i < |refs| ensures refs[i].hash != k.hash {
        assert blocks[i].Key() in Unprocessed(point) && refs[i].hash == blocks[i].Key().hash;
        assert blocks[i].Key() in KeysOf(blocks);
      }
    }
  }

  lemma OldRowKept(point: map<PointKey, Row>, chain: seq<Block>, blocks: seq<Block>, h0: nat, i: nat)
    requires RowsStored(point, chain) && HashesIdentify(point) && Awaits(point, blocks) && i < |chain|
    ensures RowAt(SetHeights(point, RefsFrom(h0, blocks)), chain + blocks, i)
  {
    var k := chain[i].Key();
    KeptOrNamed(point, blocks, h0, k);
    forall j | 0 <= j < |blocks| ensures blocks[j].Key() != k {
      assert blocks[j].Key() in Unprocessed(point);
    }
    assert k !in KeysOf(blocks);
    assert (chain + blocks)[..|chain|] == chain;
    HeightAtPrefix(0, chain + blocks, |chain|, i);
  }

  lemma NamedBlocks(chain: seq<Block>, blocks: seq<Block>)
    requires Named(chain + blocks)
    ensures forall a, b :: 0 <= a < b < |blocks| ==> blocks[a].hash != blocks[b].hash
  {
    forall a, b | 0 <= a < b < |blocks| ensures blocks[a].hash != blocks[b].hash {
      assert blocks[a] == (chain + blocks)[|chain| + a];
      assert blocks[b] == (chain + blocks)[|chain| + b];
    }
  }

  lemma NewRowSet(point: map<PointKey, Row>, chain: seq<Block>, blocks: seq<Block>, h0: nat, i: nat)
    requires Awaits(point, blocks) && Named(chain + blocks) && EndsRegular(chain)
    requires h0 == Height(chain, |chain|) && |chain| <= i < |chain| + |blocks|
    ensures RowAt(SetHeights(point, RefsFrom(h0, blocks)), chain + blocks, i)
  {
    var j := i - |chain|;
    var k := blocks[j].Key();
    assert k in Unprocessed(point) && (chain + blocks)[i] == blocks[j];
    NamedBlocks(chain, blocks);
    SetHeightsAt(point, RefsFrom(h0, blocks), j, k);
    HeightContinues(chain, blocks, i);
  }

  function HashesOf(blocks: seq<Block>): set<string> {
    set i | 0 <= i < |blocks| :: blocks[i].hash
  }

  lemma OldHashNotNew(chain: seq<Block>, blocks: seq<Block>, i: nat)
    requires Named(chain + blocks) && i < |chain|
    ensures chain[i].hash !in HashesOf(blocks)
  {
    forall j | 0 <= j < |blocks| ensures blocks[j].hash != chain[i].hash {
      assert (chain + blocks)[|chain| + j] == blocks[j] && (chain + blocks)[i] == chain[i];
    }
  }

  /** A longer chain whose new blocks are all lost: the old tx table still matches. */
  lemma TxsWait(tx: map<string, nat>, chain: seq<Block>, blocks: seq<Block>, lost: set<string>)
    requires TxsMatch(tx, chain, lost) && Named(chain + blocks)
    ensures TxsMatch(tx, chain + blocks, lost + HashesOf(blocks))
  {
    var all := chain + blocks;
    var lost' := lost + HashesOf(blocks);
    assert all[..|chain|] == chain;
    forall i | |chain| <= i < |all| ensures all[i].hash in lost' { assert all[i] == blocks[i - |chain|]; }
    forall i, x | Holds(all, lost', i, x) ensures x in tx && tx[x] == Height(all, i) {
      assert Holds(chain, lost, i, x);
      HeightAtPrefix(0, all, |chain|, i);
    }
    forall x | x in tx ensures exists i :: Holds(all, lost', i, x) {
      var i :| Holds(chain, lost, i, x);
      OldHashNotNew(chain, blocks, i);
      assert Holds(all, lost', i, x);
    }
  }

  /** The rows written for a batch: one per transaction, at its block's height. */
  lemma {:induction false} TxsFromMeans(h0: nat, blocks: seq<Block>, r: TxRef)
    ensures r in TxsFrom(h0, blocks) <==>
            exists i :: 0 <= i < |blocks| && r.hash in blocks[i].txs && r.blockHeight == HeightAt(h0, blocks, i)
  {
    if blocks != [] {
      var n := |blocks| - 1;
      TxsFromMeans(h0, blocks[..n], r);
      assert r in BlockTxs(blocks[n], HeightAt(h0, blocks, n)) <==>
             r.hash in blocks[n].txs && r.blockHeight == HeightAt(h0, blocks, n) by {
        BlockTxsMeans(blocks[n], HeightAt(h0, blocks, n), r);
      }
      forall i | 0 <= i < n ensures HeightAt(h0, blocks[..n], i) == HeightAt(h0, blocks, i) {
        HeightAtPrefix(h0, blocks, n, i);
      }
      if i :| 0 <= i < n && r.hash in blocks[i].txs && r.blockHeight == HeightAt(h0, blocks, i) {
        assert blocks[..n][i] == blocks[i];
      }
    }
  }

  lemma BlockTxsMeans(b: Block, h: nat, r: TxRef)
    ensures r in BlockTxs(b, h) <==> r.hash in b.txs && r.blockHeight == h
  {
    if r.hash in b.txs && r.blockHeight == h {
      var i :| 0 <= i < |b.txs| && b.txs[i] == r.hash;
      assert BlockTxs(b, h)[i] == r;
    }
  }

  /** No two rows written for a batch clash. */
  lemma {:induction false} TxsFromFresh(tx: map<string, nat>, h0: nat, blocks: seq<Block>)
    requires TxsOnce(blocks)
    requires forall i, x :: 0 <= i < |blocks| && x in blocks[i].txs ==> x !in tx
    ensures FreshTxs(tx, TxsFrom(h0, blocks))
  {
    if blocks != [] {
      var n := |blocks| - 1;
      var init := TxsFrom(h0, blocks[..n]);
      var last := BlockTxs(blocks[n], HeightAt(h0, blocks, n));
      assert forall i :: 0 <= i < n ==> blocks[..n][i] == blocks[i];
      TxsFromFresh(tx, h0, blocks[..n]);
      FreshTxsMeans(tx, init);
      FreshTxsMeans(tx, init + last);
      forall a, b | 0 <= a < |init| && 0 <= b < |last| ensures init[a].hash != last[b].hash {
        TxsFromMeans(h0, blocks[..n], init[a]);
        assert init[a] in init;
      }
    }
  }

  /** Inserting a batch's rows: they are new, and the batch's blocks are no longer lost. */
  lemma TxsArrive(tx: map<string, nat>, chain: seq<Block>, blocks: seq<Block>, lost: set<string>, h0: nat)
    requires TxsMatch(tx, chain + blocks, lost) && WellFormed(chain + blocks)
    requires HashesOf(blocks) <= lost && EndsRegular(chain) && h0 == Height(chain, |chain|)
    ensures FreshTxs(tx, TxsFrom(h0, blocks))
    ensures TxsMatch(InsertTxs(tx, TxsFrom(h0, blocks)), chain + blocks, lost - HashesOf(blocks))
  {
    var all := chain + blocks;
    forall i | 0 <= i < |blocks| ensures blocks[i] == all[|chain| + i] && all[|chain| + i].hash in lost {}
    forall i, x | 0 <= i < |blocks| && x in blocks[i].txs ensures x !in tx {
      forall j | 0 <= j < |all| && x in all[j].txs ensures all[j].hash in lost {
        assert j == |chain| + i;
      }
    }
    TxsFromFresh(tx, h0, blocks);
    TxsStoredAfter(tx, chain, blocks, lost, h0);
    TxsClosedAfter(tx, chain, blocks, lost, h0);
  }

  lemma TxsStoredAfter(tx: map<string, nat>, chain: seq<Block>, blocks: seq<Block>, lost: set<string>, h0: nat)
    requires TxsStored(tx, chain + blocks, lost) && Named(chain + blocks)
    requires EndsRegular(chain) && h0 == Height(chain, |chain|) && FreshTxs(tx, TxsFrom(h0, blocks))
    ensures TxsStored(InsertTxs(tx, TxsFrom(h0, blocks)), chain + blocks, lost - HashesOf(blocks))
  {
    var all, refs := chain + blocks, TxsFrom(h0, blocks);
    var lost', tx' := lost - HashesOf(blocks), InsertTxs(tx, refs);
    InsertTxsLaw(tx, refs);
    forall i, x | Holds(all, lost', i, x) ensures x in tx' && tx'[x] == Height(all, i) {
      if i < |chain| {
        OldHashNotNew(chain, blocks, i);
        assert Holds(all, lost, i, x);
      } else {
        HeightContinues(chain, blocks, i);
        TxsFromMeans(h0, blocks, TxRef(x, Height(all, i)));
      }
    }
  }

  lemma TxsClosedAfter(tx: map<string, nat>, chain: seq<Block>, blocks: seq<Block>, lost: set<string>, h0: nat)
    requires TxsClosed(tx, chain + blocks, lost)
    ensures TxsClosed(InsertTxs(tx, TxsFrom(h0, blocks)), chain + blocks, lost - HashesOf(blocks))
  {
    var all, refs := chain + blocks, TxsFrom(h0, blocks);
    var lost' := lost - HashesOf(blocks);
    InsertTxsKeys(tx, refs);
    forall x | x in InsertTxs(tx, refs) ensures exists i :: Holds(all, lost', i, x) {
      if x in tx {
        var i :| Holds(all, lost, i, x);
        assert Holds(all, lost', i, x);
      } else {
        var p :| 0 <= p < |refs| && refs[p].hash == x;
        TxsFromMeans(h0, blocks, refs[p]);
        var i :| 0 <= i < |blocks| && x in blocks[i].txs;
        assert all[|chain| + i] == blocks[i] && blocks[i].hash in HashesOf(blocks);
        assert Holds(all, lost', |chain| + i, x);
      }
    }
  }

  // ------------------------------------------------------ arrivals

  predicate Settled(point: map<PointKey, Row>, awaited: set<PointKey>, k: PointKey) {
    k in point && (point[k].height != UNPROCESSED || k in awaited)
  }

  /** Arriving points are stored rows seen again, or lie above every processed and every awaited slot. */
  ghost predicate Arrivals(point: map<PointKey, Row>, awaited: set<PointKey>, ps: seq<PointRef>) {
    && (forall i :: 0 <= i < |ps| ==> ps[i].hash != "")
    && (forall i :: 0 <= i < |ps| && ps[i].Key() in point ==> ps[i].kind == point[ps[i].Key()].kind)
    && (forall i, k :: 0 <= i < |ps| && ps[i].Key() !in point && Settled(point, awaited, k) ==> k.slot < ps[i].slot)
    && HashesIdentify(WithPoints(point, ps))
  }

  lemma {:induction false} AddPointsKeepsRows(point: map<PointKey, Row>, ps: seq<PointRef>)
    requires forall i :: 0 <= i < |ps| && ps[i].Key() in point ==> ps[i].kind == point[ps[i].Key()].kind
    ensures forall k :: k in point ==> k in WithPoints(point, ps) && WithPoints(point, ps)[k] == point[k]
  {
    if ps != [] {
      AddPointsKeepsRows(point, ps[..|ps| - 1]);
    }
  }

  lemma ArrivalsKeepIndex(point: map<PointKey, Row>, chain: seq<Block>, awaited: set<PointKey>, ps: seq<PointRef>)
    requires PointsMatch(point, chain) && Arrivals(point, awaited, ps)
    ensures PointsMatch(WithPoints(point, ps), chain)
    ensures forall k :: k in Unprocessed(WithPoints(point, ps)) && k !in point ==>
              forall a :: a in awaited && a in point ==> a.slot < k.slot
  {
    AddPointsKeepsHeights(point, ps);
    AddPointsKeepsRows(point, ps);
    var after := WithPoints(point, ps);
    forall k | k in after && k !in point
      ensures k.hash != ""
      ensures forall j :: Settled(point, awaited, j) ==> j.slot < k.slot
    {
      var i :| 0 <= i < |ps| && ps[i].Key() == k;
    }
    forall i | 0 <= i < |chain| ensures RowAt(after, chain, i) {
      assert chain[i].Key() in point;
    }
    forall k, i | k in Unprocessed(after) && 0 <= i < |chain| ensures chain[i].slot < k.slot {
      assert Settled(point, awaited, chain[i].Key());
      if k in point { assert k in Unprocessed(point); }
    }
  }

  // ------------------------------------------------------ rolling back

  /** How many blocks of the chain lie below the slot. */
  function Survivors(chain: seq<Block>, slot: nat): (n: nat)
    ensures n <= |chain|
  {
    if chain == [] then 0
    else if chain[|chain| - 1].slot < slot then |chain|
    else Survivors(chain[..|chain| - 1], slot)
  }

  lemma {:induction false} SurvivorsSplit(chain: seq<Block>, slot: nat)
    requires Ordered(chain)
    ensures forall i :: 0 <= i < |chain| ==> (chain[i].slot < slot <==> i < Survivors(chain, slot))
  {
    if chain != [] && chain[|chain| - 1].slot >= slot {
      var n := |chain| - 1;
      SurvivorsSplit(chain[..n], slot);
      assert forall i :: 0 <= i < n ==> chain[..n][i] == chain[i];
    }
  }

  /** A rollback that reaches below the top leaves the surviving prefix and no unprocessed row. */
  lemma RollbackTruncates(t: Tables, chain: seq<Block>, slot: nat)
    requires Ordered(chain) && PointsMatch(t.point, chain)
    requires chain != [] && slot < chain[|chain| - 1].slot
    ensures Survivors(chain, slot) < |chain|
    ensures PointsMatch(RolledBack(t, slot).point, chain[..Survivors(chain, slot)])
    ensures RolledBack(t, slot).point.Keys == KeysOf(chain[..Survivors(chain, slot)])
    ensures Unprocessed(RolledBack(t, slot).point) == {}
  {
    SurvivorsSplit(chain, slot);
    RollbackKeeps(t, slot);
    SurvivorsKeepRows(t, chain, slot);
    forall k | k in RolledBack(t, slot).point ensures k in KeysOf(chain[..Survivors(chain, slot)]) {
      OnlySurvivorsStay(t, chain, slot, k);
    }
    ProcessedKeys(RolledBack(t, slot).point, chain[..Survivors(chain, slot)]);
  }

  lemma ProcessedKeys(point: map<PointKey, Row>, chain: seq<Block>)
    requires RowsStored(point, chain)
    ensures forall k :: k in KeysOf(chain) ==> k in point && point[k].height != UNPROCESSED
  {
  }

  lemma SurvivorsKeepRows(t: Tables, chain: seq<Block>, slot: nat)
    requires Ordered(chain) && RowsStored(t.point, chain)
    ensures RowsStored(RolledBack(t, slot).point, chain[..Survivors(chain, slot)])
  {
    forall i | 0 <= i < Survivors(chain, slot)
      ensures RowAt(RolledBack(t, slot).point, chain[..Survivors(chain, slot)], i)
    {
      SurvivorKeepsRow(t, chain, slot, i);
    }
  }

  lemma SurvivorKeepsRow(t: Tables, chain: seq<Block>, slot: nat, i: nat)
    requires Ordered(chain) && RowsStored(t.point, chain) && i < Survivors(chain, slot)
    ensures RowAt(RolledBack(t, slot).point, chain[..Survivors(chain, slot)], i)
  {
    SurvivorsSplit(chain, slot);
    RollbackKeeps(t, slot);
    HeightAtPrefix(0, chain, Survivors(chain, slot), i);
    assert RowAt(t.point, chain, i);
  }

  lemma OnlySurvivorsStay(t: Tables, chain: seq<Block>, slot: nat, k: PointKey)
    requires Ordered(chain) && RowsClosed(t.point, chain) && RowsAbove(t.point, chain)
    requires chain != [] && slot < chain[|chain| - 1].slot
    requires k in RolledBack(t, slot).point
    ensures k in KeysOf(chain[..Survivors(chain, slot)])
  {
    SurvivorsSplit(chain, slot);
    RollbackKeeps(t, slot);
    assert k !in Unprocessed(t.point);
    var i :| 0 <= i < |chain| && chain[i].Key() == k;
    assert chain[..Survivors(chain, slot)][i] == chain[i];
  }

  /** An archive row from an earlier rollback that this rollback's tx delete also consults. */
  ghost predicate StaleAt(t: Tables, slot: nat, h: nat) {
    exists k :: k in t.archive && slot <= k.slot && t.archive[k] == h
  }

  /** The heights of surviving regular blocks are deleted exactly when a stale archive row names them. */
  lemma DeletedMeansStale(t: Tables, chain: seq<Block>, slot: nat, i: nat)
    requires Ordered(chain) && PointsMatch(t.point, chain) && !ArchiveClash(t, slot)
    requires i < Survivors(chain, slot) && !chain[i].Boundary()
    ensures Height(chain, i) in DeletedHeights(Archived(t, slot), slot) <==> StaleAt(t, slot, Height(chain, i))
  {
    RollbackArchives(t, slot);
    var archive := Archived(t, slot);
    if Height(chain, i) in DeletedHeights(archive, slot) {
      var k :| k in archive && slot <= k.slot && 0 <= archive[k] && archive[k] == Height(chain, i);
      if k !in t.archive {
        assert k in Doomed(t.point, slot) && t.point[k].height == Height(chain, i);
        RemovedIsHigher(t.point, chain, slot, i, k);
        assert false;
      }
    }
    if StaleAt(t, slot, Height(chain, i)) {
      var k :| k in t.archive && slot <= k.slot && t.archive[k] == Height(chain, i);
      DeletedHeight(archive, slot, k);
    }
  }

  /** A removed processed row is higher than every surviving regular block. */
  lemma RemovedIsHigher(point: map<PointKey, Row>, chain: seq<Block>, slot: nat, i: nat, k: PointKey)
    requires Ordered(chain) && PointsMatch(point, chain)
    requires i < Survivors(chain, slot) && !chain[i].Boundary()
    requires k in Doomed(point, slot) && point[k].height != UNPROCESSED
    ensures Height(chain, i) < point[k].height
  {
    SurvivorsSplit(chain, slot);
    var j :| 0 <= j < |chain| && chain[j].Key() == k;
    HeightsRise(0, chain, i, j);
  }

  /** The heights of the blocks a rollback removes are all deleted. */
  lemma RemovedAreDeleted(t: Tables, chain: seq<Block>, slot: nat, i: nat)
    requires Ordered(chain) && PointsMatch(t.point, chain) && !ArchiveClash(t, slot)
    requires Survivors(chain, slot) <= i < |chain|
    ensures Height(chain, i) in DeletedHeights(Archived(t, slot), slot)
  {
    SurvivorsSplit(chain, slot);
    RollbackArchives(t, slot);
    DeletedHeight(Archived(t, slot), slot, chain[i].Key());
  }

  /** The survivors whose transactions are missing after a rollback. */
  ghost function LostAfter(t: Tables, chain: seq<Block>, lost: set<string>, slot: nat): set<string>
  {
    set i | 0 <= i < Survivors(chain, slot) && MissesAfter(t, chain, lost, slot, i) :: chain[i].hash
  }

  ghost predicate MissesAfter(t: Tables, chain: seq<Block>, lost: set<string>, slot: nat, i: nat)
    requires i < |chain|
  {
    chain[i].hash in lost || (!chain[i].Boundary() && StaleAt(t, slot, Height(chain, i)))
  }

  lemma LostAfterMeans(t: Tables, chain: seq<Block>, lost: set<string>, slot: nat, i: nat)
    requires Named(chain) && i < Survivors(chain, slot)
    ensures chain[i].hash in LostAfter(t, chain, lost, slot) <==> MissesAfter(t, chain, lost, slot, i)
  {
    if chain[i].hash in LostAfter(t, chain, lost, slot) {
      var j :| 0 <= j < Survivors(chain, slot) && MissesAfter(t, chain, lost, slot, j) && chain[j].hash == chain[i].hash;
      assert j == i;
    }
  }

  /** The tx table after a rollback indexes the surviving chain, less the blocks stale archive rows hit. */
  lemma RollbackTxs(t: Tables, chain: seq<Block>, lost: set<string>, slot: nat)
    requires Indexes(t, chain, lost) && !ArchiveClash(t, slot)
    ensures TxsMatch(RolledBack(t, slot).tx, chain[..Survivors(chain, slot)], LostAfter(t, chain, lost, slot))
  {
    var kept, tx', lost' := chain[..Survivors(chain, slot)], RolledBack(t, slot).tx, LostAfter(t, chain, lost, slot);
    forall i, x | Holds(kept, lost', i, x) ensures x in tx' && tx'[x] == Height(kept, i) {
      IndexedTxStays(t, chain, lost, slot, i, x);
    }
    forall x | x in tx' ensures exists i :: Holds(kept, lost', i, x) {
      var i := KeptTxSource(t, chain, lost, slot, x);
    }
  }

  lemma IndexedTxStays(t: Tables, chain: seq<Block>, lost: set<string>, slot: nat, i: nat, x: string)
    requires Indexes(t, chain, lost) && !ArchiveClash(t, slot)
    requires Holds(chain[..Survivors(chain, slot)], LostAfter(t, chain, lost, slot), i, x)
    ensures x in RolledBack(t, slot).tx
    ensures RolledBack(t, slot).tx[x] == Height(chain[..Survivors(chain, slot)], i)
  {
    LostAfterMeans(t, chain, lost, slot, i);
    HeightAtPrefix(0, chain, Survivors(chain, slot), i);
    SurvivorKeepsTxs(t, chain, lost, slot, i, x);
  }

  lemma KeptTxSource(t: Tables, chain: seq<Block>, lost: set<string>, slot: nat, x: string) returns (i: nat)
    requires Indexes(t, chain, lost) && !ArchiveClash(t, slot)
    requires x in RolledBack(t, slot).tx
    ensures Holds(chain[..Survivors(chain, slot)], LostAfter(t, chain, lost, slot), i, x)
  {
    RollbackDropsTx(t, slot, x);
    i :| Holds(chain, lost, i, x);
    KeptTxSurvives(t, chain, lost, slot, i, x);
  }

  lemma KeptTxSurvives(t: Tables, chain: seq<Block>, lost: set<string>, slot: nat, i: nat, x: string)
    requires Indexes(t, chain, lost) && !ArchiveClash(t, slot)
    requires Holds(chain, lost, i, x) && x in RolledBack(t, slot).tx
    ensures i < Survivors(chain, slot) && chain[i].hash !in LostAfter(t, chain, lost, slot)
  {
    RollbackDropsTx(t, slot, x);
    if i >= Survivors(chain, slot) {
      RemovedAreDeleted(t, chain, slot, i);
      assert false;
    }
    LostAfterMeans(t, chain, lost, slot, i);
    SurvivorKeepsTxs(t, chain, lost, slot, i, x);
  }

  /**
   A surviving block's transactions stay indexed across a rollback exactly when no row archived by
   an earlier rollback, at or after the slot, carries its height.
   */
  lemma SurvivorKeepsTxs(t: Tables, chain: seq<Block>, lost: set<string>, slot: nat, i: nat, x: string)
    requires Indexes(t, chain, lost) && !ArchiveClash(t, slot)
    requires i < Survivors(chain, slot) && chain[i].hash !in lost && x in chain[i].txs
    ensures x in RolledBack(t, slot).tx <==> !StaleAt(t, slot, Height(chain, i))
    ensures x in RolledBack(t, slot).tx ==> RolledBack(t, slot).tx[x] == Height(chain, i)
  {
    RollbackDropsTx(t, slot, x);
    DeletedMeansStale(t, chain, slot, i);
  }
}
