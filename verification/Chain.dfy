/**
 Blocks, the pass over a fetched batch that checks links and hands out heights,
 and the closed forms of what that pass computes.
 */
module Chain {
  import opened Tables

  datatype Block = Block(slot: nat, hash: string, prevHash: string, kind: int, txs: seq<string>) {
    predicate Boundary() { kind == BOUNDARY }
    function Key(): PointKey { PointKey(slot, hash) }
    function Ref(height: nat): PointRef { PointRef(slot, hash, kind, height) }
  }

  /** The loop variables of the pass: the next height and the two hashes a block may name. */
  datatype Cursor = Cursor(height: nat, prevHash: string, prevBoundaryHash: string)

  datatype Batch = Broken | Accepted(cursor: Cursor, points: seq<PointRef>, txs: seq<TxRef>)

  predicate Links(c: Cursor, b: Block) {
    c.height > 0 && !b.Boundary() ==> b.prevHash == c.prevHash || b.prevHash == c.prevBoundaryHash
  }

  function Advance(c: Cursor, b: Block): Cursor {
    if b.Boundary() then Cursor(if c.height == 0 then 1 else c.height, c.prevHash, b.hash)
    else Cursor(c.height + 1, b.hash, c.prevBoundaryHash)
  }

  function BlockTxs(b: Block, height: nat): seq<TxRef> {
    seq(|b.txs|, i requires 0 <= i < |b.txs| => TxRef(b.txs[i], height))
  }

  /** The pass over a batch, block after block. */
  function Pass(c: Cursor, blocks: seq<Block>): Batch {
    if blocks == [] then Accepted(c, [], []) else
      var n := |blocks| - 1;
      match Pass(c, blocks[..n])
      case Broken => Broken
      case Accepted(d, points, txs) =>
        if Links(d, blocks[n])
        then Accepted(Advance(d, blocks[n]), points + [blocks[n].Ref(d.height)], txs + BlockTxs(blocks[n], d.height))
        else Broken
  }

  // ------------------------------------------------------ closed forms

  function RegularCount(blocks: seq<Block>): nat {
    if blocks == [] then 0
    else RegularCount(blocks[..|blocks| - 1]) + if blocks[|blocks| - 1].Boundary() then 0 else 1
  }

  /** The height block k of a batch gets when the batch starts at h0. */
  function HeightAt(h0: nat, blocks: seq<Block>, k: nat): nat
    requires k <= |blocks|
  {
    h0 + RegularCount(blocks[..k]) + if h0 == 0 && k > 0 && blocks[0].Boundary() then 1 else 0
  }

  /** The hash of the last regular block, or `otherwise` when there is none. */
  function LatestRegular(blocks: seq<Block>, otherwise: string): string {
    if blocks == [] then otherwise
    else if !blocks[|blocks| - 1].Boundary() then blocks[|blocks| - 1].hash
    else LatestRegular(blocks[..|blocks| - 1], otherwise)
  }

  function LatestBoundary(blocks: seq<Block>, otherwise: string): string {
    if blocks == [] then otherwise
    else if blocks[|blocks| - 1].Boundary() then blocks[|blocks| - 1].hash
    else LatestBoundary(blocks[..|blocks| - 1], otherwise)
  }

  function TxsFrom(h0: nat, blocks: seq<Block>): seq<TxRef> {
    if blocks == [] then []
    else var n := |blocks| - 1; TxsFrom(h0, blocks[..n]) + BlockTxs(blocks[n], HeightAt(h0, blocks, n))
  }

  function RefsFrom(h0: nat, blocks: seq<Block>): seq<PointRef> {
    seq(|blocks|, k requires 0 <= k < |blocks| => blocks[k].Ref(HeightAt(h0, blocks, k)))
  }

  /** Block k names the latest regular hash, or the current boundary hash, when it has to. */
  predicate LinkedAt(c: Cursor, blocks: seq<Block>, k: nat)
    requires k < |blocks|
  {
    HeightAt(c.height, blocks, k) > 0 && !blocks[k].Boundary() ==>
      || blocks[k].prevHash == LatestRegular(blocks[..k], c.prevHash)
      || blocks[k].prevHash == LatestBoundary(blocks[..k], c.prevBoundaryHash)
  }

  lemma HeightAtPrefix(h0: nat, blocks: seq<Block>, n: nat, k: nat)
    requires k <= n <= |blocks|
    ensures HeightAt(h0, blocks[..n], k) == HeightAt(h0, blocks, k)
  {
    assert blocks[..n][..k] == blocks[..k];
  }

  lemma HeightAtNext(h0: nat, blocks: seq<Block>, k: nat)
    requires k < |blocks|
    ensures HeightAt(h0, blocks, k + 1) ==
            (var h := HeightAt(h0, blocks, k); if !blocks[k].Boundary() || h == 0 then h + 1 else h)
    ensures k > 0 ==> HeightAt(h0, blocks, k) > 0
  {
    assert blocks[..k + 1][..k] == blocks[..k];
    if k > 0 && h0 == 0 && !blocks[0].Boundary() {
      RegularCountMonotone(blocks, 1, k);
      assert blocks[..1][..0] == [];
    }
  }

  lemma {:induction false} RegularCountMonotone(blocks: seq<Block>, i: nat, j: nat)
    requires i <= j <= |blocks|
    ensures RegularCount(blocks[..i]) <= RegularCount(blocks[..j])
    ensures i < j && !blocks[i].Boundary() ==> RegularCount(blocks[..i]) < RegularCount(blocks[..j])
  {
    if i < j {
      RegularCountMonotone(blocks, i, j - 1);
      assert blocks[..j][..j - 1] == blocks[..j - 1];
    }
  }

  /** Heights never fall along a batch, and rise after every regular block: no two regular blocks share one. */
  lemma HeightsRise(h0: nat, blocks: seq<Block>, i: nat, j: nat)
    requires i <= j <= |blocks|
    ensures HeightAt(h0, blocks, i) <= HeightAt(h0, blocks, j)
    ensures i < j && blocks[i].kind != 0 ==> HeightAt(h0, blocks, i) < HeightAt(h0, blocks, j)
  {
    RegularCountMonotone(blocks, i, j);
  }

  /** Conversely a boundary block above height 0 shares its successor's height. */
  lemma BoundarySharesHeight(h0: nat, blocks: seq<Block>, k: nat)
    requires k + 1 < |blocks| && blocks[k].kind == 0
    ensures HeightAt(h0, blocks, k + 1) == HeightAt(h0, blocks, k) <==> HeightAt(h0, blocks, k) > 0
  {
    HeightAtNext(h0, blocks, k);
  }

  /**
   The pass accepts exactly the batches in which every block is linked, and an accepted
   batch is numbered by the closed form.
   */
  lemma {:induction false} PassMeans(c: Cursor, blocks: seq<Block>)
    ensures Pass(c, blocks).Accepted? <==> forall k :: 0 <= k < |blocks| ==> LinkedAt(c, blocks, k)
    ensures Pass(c, blocks).Accepted? ==>
              Pass(c, blocks) == Accepted(Cursor(HeightAt(c.height, blocks, |blocks|),
                                                 LatestRegular(blocks, c.prevHash),
                                                 LatestBoundary(blocks, c.prevBoundaryHash)),
                                          RefsFrom(c.height, blocks), TxsFrom(c.height, blocks))
  {
    if blocks != [] {
      var n := |blocks| - 1;
      var init := blocks[..n];
      PassMeans(c, init);
      forall k | 0 <= k < n ensures LinkedAt(c, init, k) == LinkedAt(c, blocks, k) {
        assert init[..k] == blocks[..k];
      }
      HeightAtPrefix(c.height, blocks, n, n);
      HeightAtNext(c.height, blocks, n);
      assert blocks[..|blocks|] == blocks && init[..n] == init;
      RefsFromSnoc(c.height, blocks);
      assert LinkedAt(c, blocks, n) || Pass(c, blocks) == Broken || Pass(c, init) == Broken;
    }
  }

  lemma RefsFromSnoc(h0: nat, blocks: seq<Block>)
    requires blocks != []
    ensures var n := |blocks| - 1;
            RefsFrom(h0, blocks) == RefsFrom(h0, blocks[..n]) + [blocks[n].Ref(HeightAt(h0, blocks, n))]
  {
    var n := |blocks| - 1;
    forall k | 0 <= k < n ensures HeightAt(h0, blocks[..n], k) == HeightAt(h0, blocks, k) {
      HeightAtPrefix(h0, blocks, n, k);
    }
  }

  lemma {:induction false} RegularCountAppend(a: seq<Block>, b: seq<Block>)
    ensures RegularCount(a + b) == RegularCount(a) + RegularCount(b)
  {
    if b == [] {
      assert a + b == a;
    } else {
      assert (a + b)[..|a + b| - 1] == a + b[..|b| - 1];
      RegularCountAppend(a, b[..|b| - 1]);
    }
  }

  /** Numbering a concatenation is numbering its parts in turn. */
  lemma HeightAtAppend(h0: nat, a: seq<Block>, b: seq<Block>, i: nat)
    requires |a| <= i <= |a| + |b|
    ensures HeightAt(h0, a + b, i) == HeightAt(HeightAt(h0, a, |a|), b, i - |a|)
  {
    assert (a + b)[..i] == a + b[..i - |a|] && a[..|a|] == a;
    RegularCountAppend(a, b[..i - |a|]);
    if a == [] {
      assert a + b == b;
    } else {
      HeightAtNext(h0, a, |a| - 1);
      assert (a + b)[0] == a[0];
    }
  }

  lemma HeightAtEnd(h0: nat, a: seq<Block>, b: seq<Block>)
    ensures HeightAt(h0, a + b, |a + b|) == HeightAt(HeightAt(h0, a, |a|), b, |b|)
  {
    HeightAtAppend(h0, a, b, |a + b|);
  }

  /** One more block: it gets the height the blocks before it have reached. */
  lemma SnocRef(h0: nat, blocks: seq<Block>, last: Block)
    ensures RefsFrom(h0, blocks + [last]) == RefsFrom(h0, blocks) + [last.Ref(HeightAt(h0, blocks, |blocks|))]
  {
    var all := blocks + [last];
    assert all[..|blocks|] == blocks;
    HeightAtPrefix(h0, all, |blocks|, |blocks|);
    RefsFromSnoc(h0, all);
  }

  lemma SnocTxs(h0: nat, blocks: seq<Block>, last: Block)
    ensures TxsFrom(h0, blocks + [last]) == TxsFrom(h0, blocks) + BlockTxs(last, HeightAt(h0, blocks, |blocks|))
  {
    var all := blocks + [last];
    assert all[..|blocks|] == blocks;
    HeightAtPrefix(h0, all, |blocks|, |blocks|);
  }

  lemma {:induction false} RefsFromAppend(h0: nat, a: seq<Block>, b: seq<Block>)
    ensures RefsFrom(h0, a + b) == RefsFrom(h0, a) + RefsFrom(HeightAt(h0, a, |a|), b)
  {
    if b == [] {
      assert a + b == a;
    } else {
      var init, last := b[..|b| - 1], b[|b| - 1];
      assert b == init + [last] && a + b == a + init + [last];
      RefsFromAppend(h0, a, init);
      SnocRef(h0, a + init, last);
      SnocRef(HeightAt(h0, a, |a|), init, last);
      HeightAtEnd(h0, a, init);
    }
  }

  lemma {:induction false} TxsFromAppend(h0: nat, a: seq<Block>, b: seq<Block>)
    ensures TxsFrom(h0, a + b) == TxsFrom(h0, a) + TxsFrom(HeightAt(h0, a, |a|), b)
  {
    if b == [] {
      assert a + b == a;
    } else {
      var init, last := b[..|b| - 1], b[|b| - 1];
      assert b == init + [last] && a + b == a + init + [last];
      TxsFromAppend(h0, a, init);
      SnocTxs(h0, a + init, last);
      SnocTxs(HeightAt(h0, a, |a|), init, last);
      HeightAtEnd(h0, a, init);
    }
  }

  // ------------------------------------------------------ the chain from its start

  /** The height of block k when the whole chain is processed as one batch. */
  function Height(chain: seq<Block>, k: nat): nat
    requires k <= |chain|
  {
    HeightAt(0, chain, k)
  }

  /** The point the processor caches once this chain is processed. */
  function TopOf(chain: seq<Block>): PointRef {
    if chain == [] then NO_POINT
    else var n := |chain| - 1; chain[n].Ref(Height(chain, n))
  }

  predicate EndsRegular(chain: seq<Block>) {
    chain == [] || !chain[|chain| - 1].Boundary()
  }

  /** A batch that starts one above the top of a chain ending in a regular block continues its numbering. */
  lemma HeightContinues(chain: seq<Block>, blocks: seq<Block>, i: nat)
    requires EndsRegular(chain) && |chain| <= i <= |chain| + |blocks|
    ensures HeightAt(Height(chain, |chain|), blocks, i - |chain|) == Height(chain + blocks, i)
    ensures chain != [] ==> Height(chain, |chain|) == TopOf(chain).height + 1
  {
    var all, k := chain + blocks, i - |chain|;
    assert all[..i] == chain + blocks[..k];
    RegularCountAppend(chain, blocks[..k]);
    assert chain[..|chain|] == chain;
    if chain == [] {
      assert all == blocks;
    } else {
      HeightAtNext(0, chain, |chain| - 1);
      assert all[0] == chain[0];
    }
  }

  /** Regular heights are contiguous: every height from the first regular one up to the last is taken. */
  lemma {:induction false} HeightsContiguous(chain: seq<Block>, h: nat) returns (i: nat)
    requires chain != [] && (if chain[0].Boundary() then 1 else 0) <= h < Height(chain, |chain|)
    ensures i < |chain| && !chain[i].Boundary() && Height(chain, i) == h
  {
    var n := |chain| - 1;
    HeightAtNext(0, chain, n);
    if h < Height(chain, n) {
      HeightAtPrefix(0, chain, n, n);
      assert n > 0 by { assert chain[..0] == []; }
      i := HeightsContiguous(chain[..n], h);
      HeightAtPrefix(0, chain, n, i);
    } else {
      i := n;
      assert chain[..0] == [];
    }
  }
}
