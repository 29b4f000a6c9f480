/**
 Laws of whole batches: how a chain is cut into batches does not show in the tables, and the
 exact conditions under which it does.
 */
module BatchTheorems {
  import opened Tables
  import opened Chain
  import opened ChainIndex
  import opened Run

  datatype Outcome = Stopped | Done(t: Tables, cache: PointRef)

  /** One batch from read to second commit, for a processor that caches `cache`. */
  ghost function Process(t: Tables, cache: PointRef, blocks: seq<Block>): Outcome {
    if c: Cursor :| StartsAt(t.point, cache, c) then
      match Pass(c, blocks)
      case Broken => Stopped
      case Accepted(_, points, txs) =>
        if FreshTxs(t.tx, txs)
        then Done(Tables(SetHeights(t.point, points), t.archive, InsertTxs(t.tx, txs)),
                  if points == [] then NO_POINT else points[|points| - 1])
        else Stopped
    else Stopped
  }

  /** A batch, and whether the processor is restarted after it. */
  datatype Cut = Cut(blocks: seq<Block>, restart: bool)

  ghost function Reload(t: Tables, cache: PointRef): PointRef {
    if top: PointRef :| HighestIs(t.point, top) then top else cache
  }

  ghost function ProcessCuts(t: Tables, cache: PointRef, cuts: seq<Cut>): Outcome
    decreases |cuts|
  {
    if cuts == [] then Done(t, cache) else
      match Process(t, cache, cuts[0].blocks)
      case Stopped => Stopped
      case Done(t', cache') => ProcessCuts(t', if cuts[0].restart then Reload(t', cache') else cache', cuts[1..])
  }

  function Joined(cuts: seq<Cut>): seq<Block> {
    if cuts == [] then [] else cuts[0].blocks + Joined(cuts[1..])
  }

  /** Every block names the one before it; the first names `prev` unless the chain is just starting. */
  ghost predicate NamesPredecessors(chain: seq<Block>, blocks: seq<Block>) {
    && (chain != [] && blocks != [] ==> blocks[0].prevHash == chain[|chain| - 1].hash)
    && (forall k :: 0 < k < |blocks| ==> blocks[k].prevHash == blocks[k - 1].hash)
  }

  /** A batch of fetched blocks that continues the indexed chain. */
  ghost predicate Continues(t: Tables, chain: seq<Block>, blocks: seq<Block>) {
    && Covers(t.point, blocks) && Ordered(blocks) && TxsOnce(chain + blocks)
    && (forall i, j :: 0 <= i < j < |blocks| ==> blocks[i].Key() != blocks[j].Key())
  }

  ghost predicate Follows(t: Tables, chain: seq<Block>, blocks: seq<Block>) {
    Continues(t, chain, blocks) && NamesPredecessors(chain, blocks)
  }

  ghost predicate AtRest(t: Tables, chain: seq<Block>, lost: set<string>) {
    Indexes(t, chain, lost) && Linked(chain) && EndsRegular(chain)
  }

  /** A chain whose blocks name their predecessors is never rejected. */
  lemma NamedIsAccepted(chain: seq<Block>, blocks: seq<Block>)
    requires NamesPredecessors(chain, blocks)
    ensures Pass(CursorAfter(chain), blocks).Accepted?
  {
    var c := CursorAfter(chain);
    PassMeans(c, blocks);
    forall k | 0 <= k < |blocks| ensures LinkedAt(c, blocks, k) {
      if k > 0 {
        assert blocks[..k][|blocks[..k]| - 1] == blocks[k - 1];
      }
    }
  }

  /** The tables after one batch. */
  function Committed(t: Tables, chain: seq<Block>, blocks: seq<Block>): Tables {
    var h0 := Height(chain, |chain|);
    Tables(SetHeights(t.point, RefsFrom(h0, blocks)), t.archive, InsertTxs(t.tx, TxsFrom(h0, blocks)))
  }

  /** Both commits of an accepted batch: the tables index the longer chain. */
  lemma CommittedIndexes(t: Tables, chain: seq<Block>, lost: set<string>, blocks: seq<Block>)
    requires AtRest(t, chain, lost) && Continues(t, chain, blocks) && Pass(CursorAfter(chain), blocks).Accepted?
    ensures FreshTxs(t.tx, TxsFrom(Height(chain, |chain|), blocks))
    ensures Indexes(Committed(t, chain, blocks), chain + blocks, lost - HashesOf(blocks))
    ensures Linked(chain + blocks)
  {
    BatchExtends(t, chain, lost, blocks);
    TxsArrive(t.tx, chain, blocks, lost + HashesOf(blocks), Height(chain, |chain|));
    assert lost + HashesOf(blocks) - HashesOf(blocks) == lost - HashesOf(blocks);
  }

  /** Processing one following batch succeeds, with the closed form of heights and transactions. */
  lemma ProcessSucceeds(t: Tables, chain: seq<Block>, lost: set<string>, blocks: seq<Block>)
    requires AtRest(t, chain, lost) && Follows(t, chain, blocks) && blocks != []
    ensures Process(t, TopOf(chain), blocks) == Done(Committed(t, chain, blocks), TopOf(chain + blocks))
  {
    NamedIsAccepted(chain, blocks);
    CommittedIndexes(t, chain, lost, blocks);
    BatchResult(chain, blocks);
    BatchTop(chain, blocks);
    StartsAfterTop(t.point, chain, CursorAfter(chain));
    forall c: Cursor | StartsAt(t.point, TopOf(chain), c) ensures c == CursorAfter(chain) {
      StartsAfterTop(t.point, chain, c);
    }
  }

  // ------------------------------------------------------ cutting a chain into batches

  lemma {:induction false} SetHeightsAppend(point: map<PointKey, Row>, a: seq<PointRef>, b: seq<PointRef>)
    ensures SetHeights(point, a + b) == SetHeights(SetHeights(point, a), b)
  {
    if b == [] {
      assert a + b == a;
    } else {
      assert (a + b)[..|a + b| - 1] == a + b[..|b| - 1];
      SetHeightsAppend(point, a, b[..|b| - 1]);
    }
  }

  lemma {:induction false} InsertTxsAppend(tx: map<string, nat>, a: seq<TxRef>, b: seq<TxRef>)
    ensures InsertTxs(tx, a + b) == InsertTxs(InsertTxs(tx, a), b)
  {
    if b == [] {
      assert a + b == a;
    } else {
      assert (a + b)[..|a + b| - 1] == a + b[..|b| - 1];
      InsertTxsAppend(tx, a, b[..|b| - 1]);
    }
  }

  /** Committing two batches in turn writes what committing their concatenation writes. */
  lemma CommittedSplits(t: Tables, chain: seq<Block>, a: seq<Block>, b: seq<Block>)
    requires EndsRegular(chain) && EndsRegular(chain + a)
    ensures Committed(t, chain, a + b) == Committed(Committed(t, chain, a), chain + a, b)
  {
    var h0, h1 := Height(chain, |chain|), Height(chain + a, |chain + a|);
    HeightContinues(chain, a, |chain + a|);
    assert h1 == HeightAt(h0, a, |a|);
    RefsFromAppend(h0, a, b);
    TxsFromAppend(h0, a, b);
    SetHeightsAppend(t.point, RefsFrom(h0, a), RefsFrom(h1, b));
    InsertTxsAppend(t.tx, TxsFrom(h0, a), TxsFrom(h1, b));
  }

  /** Both halves of a following batch follow, the second after the first is committed. */
  lemma FollowsFirst(t: Tables, chain: seq<Block>, a: seq<Block>, b: seq<Block>)
    requires Follows(t, chain, a + b) && EndsRegular(a) && a != []
    ensures Follows(t, chain, a)
  {
    CoversFirst(t.point, a, b);
    PrefixFollows(a, b);
    assert (a + b)[0] == a[0];
    TxsOncePrefix(chain + (a + b), |chain + a|);
    assert (chain + (a + b))[..|chain + a|] == chain + a;
    forall k | 0 < k < |a| ensures a[k].prevHash == a[k - 1].hash {
      assert (a + b)[k] == a[k] && (a + b)[k - 1] == a[k - 1];
    }
  }

  lemma PrefixFollows(a: seq<Block>, b: seq<Block>)
    requires Ordered(a + b) && forall i, j :: 0 <= i < j < |a + b| ==> (a + b)[i].Key() != (a + b)[j].Key()
    ensures Ordered(a) && Ordered(b)
    ensures forall i, j :: 0 <= i < j < |a| ==> a[i].Key() != a[j].Key()
    ensures forall i, j :: 0 <= i < j < |b| ==> b[i].Key() != b[j].Key()
    ensures KeysOf(a) !! KeysOf(b)
  {
    var all := a + b;
    assert forall i :: 0 <= i < |a| ==> all[i] == a[i];
    forall i, j | 0 <= i < j < |b| ensures b[i].Key() != b[j].Key() && b[i].slot <= b[j].slot
      ensures b[i].slot == b[j].slot ==> b[i].Boundary() && !b[j].Boundary()
    {
      assert all[|a| + i] == b[i] && all[|a| + j] == b[j];
    }
    forall i, j | 0 <= i < |a| && 0 <= j < |b| ensures a[i].Key() != b[j].Key() {
      assert all[i] == a[i] && all[|a| + j] == b[j];
    }
  }

  /** A regular block lies strictly below everything after it. */
  lemma RegularBelow(all: seq<Block>, i: nat, m: nat, j: nat)
    requires Ordered(all) && i <= m < j < |all| && !all[m].Boundary()
    ensures all[i].slot < all[j].slot
  {
    assert all[m].slot <= all[j].slot;
    if i < m { assert all[i].slot <= all[m].slot; }
  }

  lemma CoversFirst(point: map<PointKey, Row>, a: seq<Block>, b: seq<Block>)
    requires Covers(point, a + b) && Ordered(a + b) && EndsRegular(a) && a != []
    ensures Covers(point, a)
  {
    var all := a + b;
    KeysOfAppend(a, b);
    forall i | 0 <= i < |a|
      ensures a[i].Key() in Unprocessed(point) && point[a[i].Key()].kind == a[i].kind
      ensures forall k :: k in Unprocessed(point) && k !in KeysOf(a) ==> a[i].slot < k.slot
    {
      assert all[i] == a[i];
      forall k | k in Unprocessed(point) && k !in KeysOf(a) ensures a[i].slot < k.slot {
        if k in KeysOf(b) {
          var j :| 0 <= j < |b| && b[j].Key() == k;
          assert all[|a| + j] == b[j] && all[|a| - 1] == a[|a| - 1];
          RegularBelow(all, i, |a| - 1, |a| + j);
        }
      }
    }
  }

  lemma Associates(a: seq<Block>, b: seq<Block>, c: seq<Block>)
    ensures a + b + c == a + (b + c)
  {
  }

  lemma TxsOncePrefix(chain: seq<Block>, n: nat)
    requires TxsOnce(chain) && n <= |chain|
    ensures TxsOnce(chain[..n])
  {
  }

  lemma FollowsSecond(t: Tables, chain: seq<Block>, lost: set<string>, a: seq<Block>, b: seq<Block>)
    requires AtRest(t, chain, lost) && Follows(t, chain, a + b) && EndsRegular(a) && a != []
    ensures Follows(Committed(t, chain, a), chain + a, b)
  {
    PrefixFollows(a, b);
    CoversSecond(t, chain, lost, a, b);
    Associates(chain, a, b);
    NamesSecond(chain, a, b);
  }

  lemma NamesSecond(chain: seq<Block>, a: seq<Block>, b: seq<Block>)
    requires NamesPredecessors(chain, a + b) && a != []
    ensures NamesPredecessors(chain + a, b)
  {
    var all := a + b;
    forall k | 0 < k < |b| ensures b[k].prevHash == b[k - 1].hash {
      assert all[|a| + k] == b[k] && all[|a| + k - 1] == b[k - 1];
    }
    if b != [] {
      assert all[|a|] == b[0] && all[|a| - 1] == a[|a| - 1] && a[|a| - 1] == (chain + a)[|chain + a| - 1];
    }
  }

  lemma CoversSecond(t: Tables, chain: seq<Block>, lost: set<string>, a: seq<Block>, b: seq<Block>)
    requires AtRest(t, chain, lost) && Follows(t, chain, a + b) && EndsRegular(a) && a != []
    ensures Covers(Committed(t, chain, a).point, b)
  {
    FollowsFirst(t, chain, a, b);
    NamedIsAccepted(chain, a);
    BatchExtends(t, chain, lost, a);
    PrefixFollows(a, b);
    StillCovered(t.point, chain, a, b, Height(chain, |chain|));
  }

  lemma StillCovered(point: map<PointKey, Row>, chain: seq<Block>, a: seq<Block>, b: seq<Block>, h0: nat)
    requires HashesIdentify(point) && Covers(point, a + b) && Covers(point, a) && KeysOf(a) !! KeysOf(b)
    requires RowsStored(SetHeights(point, RefsFrom(h0, a)), chain + a)
    ensures Covers(SetHeights(point, RefsFrom(h0, a)), b)
  {
    var all, after := a + b, SetHeights(point, RefsFrom(h0, a));
    KeysOfAppend(a, b);
    KeysOfAppend(chain, a);
    SetHeightsFrame(point, RefsFrom(h0, a));
    ProcessedKeys(after, chain + a);
    forall j | 0 <= j < |b|
      ensures b[j].Key() in Unprocessed(after) && after[b[j].Key()].kind == b[j].kind
      ensures forall k :: k in Unprocessed(after) && k !in KeysOf(b) ==> b[j].slot < k.slot
    {
      assert all[|a| + j] == b[j] && b[j].Key() in KeysOf(b);
      KeptOrNamed(point, a, h0, b[j].Key());
      forall k | k in Unprocessed(after) && k !in KeysOf(b) ensures b[j].slot < k.slot {
        KeptOrNamed(point, a, h0, k);
        assert k in Unprocessed(point) && k !in KeysOf(all);
      }
    }
  }

  /** Each batch is non-empty and all but the last end in a regular block and may be followed by a restart. */
  predicate GoodCuts(cuts: seq<Cut>) {
    && (forall i :: 0 <= i < |cuts| ==> cuts[i].blocks != [])
    && (forall i :: 0 <= i < |cuts| - 1 ==> EndsRegular(cuts[i].blocks))
    && (cuts != [] ==> !cuts[|cuts| - 1].restart)
  }

  lemma CutsUnfold(t: Tables, cache: PointRef, cuts: seq<Cut>, t': Tables, cache': PointRef)
    requires cuts != [] && Process(t, cache, cuts[0].blocks) == Done(t', cache')
    requires cuts[0].restart ==> Reload(t', cache') == cache'
    ensures ProcessCuts(t, cache, cuts) == ProcessCuts(t', cache', cuts[1..])
  {
  }

  lemma CutsTail(cuts: seq<Cut>)
    requires GoodCuts(cuts) && |cuts| > 1
    ensures GoodCuts(cuts[1..]) && EndsRegular(cuts[0].blocks) && cuts[0].blocks != []
  {
    assert cuts[1..][|cuts[1..]| - 1] == cuts[|cuts| - 1];
  }

  lemma {:induction false} CutsCommit(t: Tables, chain: seq<Block>, lost: set<string>, cuts: seq<Cut>)
    requires AtRest(t, chain, lost) && Follows(t, chain, Joined(cuts)) && GoodCuts(cuts) && cuts != []
    ensures ProcessCuts(t, TopOf(chain), cuts) ==
            Done(Committed(t, chain, Joined(cuts)), TopOf(chain + Joined(cuts)))
    decreases |cuts|
  {
    var a, rest := cuts[0].blocks, cuts[1..];
    var t' := Committed(t, chain, a);
    if rest == [] {
      assert Joined(cuts) == a;
      ProcessSucceeds(t, chain, lost, a);
      CutsUnfold(t, TopOf(chain), cuts, t', TopOf(chain + a));
    } else {
      var b := Joined(rest);
      CutsTail(cuts);
      FirstCut(t, chain, lost, a, b);
      CutsUnfold(t, TopOf(chain), cuts, t', TopOf(chain + a));
      CutsCommit(t', chain + a, lost - HashesOf(a), rest);
      CommittedSplits(t, chain, a, b);
      Associates(chain, a, b);
    }
  }

  /**
   Batch-split invariance: however a chain whose blocks name their predecessors is cut into batches
   ending in regular blocks, with or without restarts in between, no batch is rejected and tables and
   cache end up as after one big batch.
   */
  lemma CutsDoNotShow(t: Tables, chain: seq<Block>, lost: set<string>, cuts: seq<Cut>)
    requires AtRest(t, chain, lost) && Follows(t, chain, Joined(cuts)) && GoodCuts(cuts) && cuts != []
    ensures ProcessCuts(t, TopOf(chain), cuts) == Process(t, TopOf(chain), Joined(cuts))
    ensures Process(t, TopOf(chain), Joined(cuts)).Done?
  {
    CutsCommit(t, chain, lost, cuts);
    assert Joined(cuts) != [] by { assert cuts[0].blocks != []; }
    ProcessSucceeds(t, chain, lost, Joined(cuts));
  }

  lemma FirstCut(t: Tables, chain: seq<Block>, lost: set<string>, a: seq<Block>, b: seq<Block>)
    requires AtRest(t, chain, lost) && Follows(t, chain, a + b) && EndsRegular(a) && a != []
    ensures Process(t, TopOf(chain), a) == Done(Committed(t, chain, a), TopOf(chain + a))
    ensures AtRest(Committed(t, chain, a), chain + a, lost - HashesOf(a))
    ensures Follows(Committed(t, chain, a), chain + a, b)
    ensures Reload(Committed(t, chain, a), TopOf(chain + a)) == TopOf(chain + a)
  {
    FollowsFirst(t, chain, a, b);
    FollowsSecond(t, chain, lost, a, b);
    ProcessSucceeds(t, chain, lost, a);
    NamedIsAccepted(chain, a);
    CommittedIndexes(t, chain, lost, a);
    ReloadIsTop(Committed(t, chain, a), chain + a, lost - HashesOf(a));
  }

  lemma ReloadIsTop(t: Tables, chain: seq<Block>, lost: set<string>)
    requires Indexes(t, chain, lost) && EndsRegular(chain)
    ensures Reload(t, TopOf(chain)) == TopOf(chain)
  {
    HighestAnswer(t.point, chain, TopOf(chain));
    forall top | HighestIs(t.point, top) ensures top == TopOf(chain) {
      HighestAnswer(t.point, chain, top);
    }
  }

  // ------------------------------------------------------ batches that end on a boundary block

  /**
   A batch that follows one ending on a boundary block starts one height too high, except when that
   boundary block is the only block so far, at height 0.
   */
  lemma BoundaryCutShifts(chain: seq<Block>)
    requires chain != []
    ensures TopOf(chain).height + 1 == Height(chain, |chain|) <==> EndsRegular(chain) || TopOf(chain).height == 0
  {
    HeightAtNext(0, chain, |chain| - 1);
  }

  /**
   A restarted processor goes on with the numbering exactly when the chain does not end on a boundary
   block; there its query finds no row and the next batch is numbered from 0 again.
   */
  lemma RestartContinuesIffRegular(point: map<PointKey, Row>, chain: seq<Block>, top: PointRef, c: Cursor)
    requires Ordered(chain) && Named(chain) && PointsMatch(point, chain)
    requires HighestIs(point, top) && StartsAt(point, top, c)
    ensures c.height == Height(chain, |chain|) <==> EndsRegular(chain)
    ensures !EndsRegular(chain) ==> c == Cursor(0, "", "")
  {
    if EndsRegular(chain) {
      HighestAnswer(point, chain, top);
      StartsAfterTop(point, chain, c);
    } else {
      forall k ensures !HighestRow(point, k) { HighestIsTop(point, chain, k); }
      HeightAtNext(0, chain, |chain| - 1);
    }
  }
}
