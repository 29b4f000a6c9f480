/**
 What the drain loop makes of a chain the node serves: the unprocessed rows are those of the
 blocks to come, every batch is a piece of them, and the tables end up as after one big batch.
 */
module Draining {
  import opened Tables
  import opened Chain
  import opened ChainIndex
  import opened Run
  import opened BatchTheorems

  datatype Fetch = FetchError | Blocks(blocks: seq<Block>)

  /** The node is asked for the range of blocks between two points, and answers with an error or with blocks. */
  type Node = (PointKey, PointKey) -> Fetch

  /** What the node answers for a batch: only the first and the last row taken are sent. */
  function Requested(fetch: Node, rows: seq<PointRef>, window: nat): Fetch
    requires window < |rows|
  {
    fetch(rows[0].Key(), rows[|rows| - window - 1].Key())
  }

  /** A range that is answered begins where it was asked to. */
  ghost predicate Honest(fetch: Node) {
    forall a, b :: fetch(a, b).Blocks? ==>
      fetch(a, b).blocks != [] && fetch(a, b).blocks[0].Key() == a
  }

  /** How many of the blocks to come lie behind the window. */
  function Todo(future: seq<Block>, window: nat): nat {
    if |future| <= window then 0 else |future| - window
  }

  function BatchLength(future: seq<Block>, window: nat): nat {
    if Todo(future, window) < BLOCK_BATCH_SIZE then Todo(future, window) else BLOCK_BATCH_SIZE
  }

  /** Every batch of the drain ends in a regular block. */
  predicate CutsRegular(future: seq<Block>, window: nat) {
    forall i :: 0 <= i < Todo(future, window) && ((i + 1) % BLOCK_BATCH_SIZE == 0 || i + 1 == Todo(future, window)) ==>
      !future[i].Boundary()
  }

  /** The blocks from one position of the chain to another; there are none backwards. */
  function Range(future: seq<Block>, i: nat, j: nat): Fetch
    requires i < |future| && j < |future|
  {
    if i <= j then Blocks(future[i..j + 1]) else FetchError
  }

  /** Asked for a range between two blocks of the chain, the node sends the blocks from one to the other, in order. */
  ghost predicate Serves(fetch: Node, future: seq<Block>) {
    forall i, j {:trigger Range(future, i, j)} ::
      0 <= i < |future| && 0 <= j < |future| ==> fetch(future[i].Key(), future[j].Key()) == Range(future, i, j)
  }

  ghost predicate Between(future: seq<Block>, a: PointKey, b: PointKey, i: int, j: int) {
    0 <= i < |future| && 0 <= j < |future| && future[i].Key() == a && future[j].Key() == b
  }

  ghost function Answer(future: seq<Block>, a: PointKey, b: PointKey): Fetch {
    if exists i, j :: Between(future, a, b, i, j) then var i, j :| Between(future, a, b, i, j); Range(future, i, j) else FetchError
  }

  /** For every chain there is an honest node that serves it. */
  lemma NodeExists(future: seq<Block>) returns (fetch: Node)
    requires forall a, b :: 0 <= a < b < |future| ==> future[a].Key() != future[b].Key()
    ensures Honest(fetch) && Serves(fetch, future)
  {
    fetch := (a, b) => Answer(future, a, b);
    forall i, j | 0 <= i < |future| && 0 <= j < |future|
      ensures fetch(future[i].Key(), future[j].Key()) == Range(future, i, j)
    {
      assert Between(future, future[i].Key(), future[j].Key(), i, j);
      var i', j' :| Between(future, future[i].Key(), future[j].Key(), i', j') &&
                    Answer(future, future[i].Key(), future[j].Key()) == Range(future, i', j');
      assert i' == i && j' == j;
    }
  }

  /** Tables and cache, the chain they index, the blocks without tx rows, and the blocks to come. */
  datatype Setup = Setup(t: Tables, cache: PointRef, chain: seq<Block>, lost: set<string>, future: seq<Block>)

  /** The tables index a chain whose top is cached, and the rows that wait are those of the blocks to come. */
  ghost predicate Ready(s: Setup, fetch: Node, window: nat) {
    && AtRest(s.t, s.chain, s.lost) && s.cache == TopOf(s.chain)
    && Unprocessed(s.t.point) == KeysOf(s.future) && Follows(s.t, s.chain, s.future)
    && Serves(fetch, s.future) && CutsRegular(s.future, window)
  }

  /** With the next n blocks committed as one batch. */
  function Advanced(s: Setup, n: nat): Setup
    requires n <= |s.future|
  {
    var blocks := s.future[..n];
    Setup(Committed(s.t, s.chain, blocks), TopOf(s.chain + blocks), s.chain + blocks, s.lost - HashesOf(blocks), s.future[n..])
  }

  lemma {:induction false} KeysOfCount(blocks: seq<Block>)
    requires forall i, j :: 0 <= i < j < |blocks| ==> blocks[i].Key() != blocks[j].Key()
    ensures |KeysOf(blocks)| == |blocks|
  {
    if blocks != [] {
      var n := |blocks| - 1;
      var init, last := blocks[..n], [blocks[n]];
      assert forall i :: 0 <= i < n ==> init[i] == blocks[i];
      KeysOfCount(init);
      KeysOfAppend(init, last);
      assert blocks == init + last && last[0].Key() in KeysOf(last);
      assert KeysOf(last) == {blocks[n].Key()};
    }
  }

  /** Two sets of the same size, one not contained in the other: both have an element the other lacks. */
  lemma SameSizeDiffers<T>(a: set<T>, b: set<T>) returns (x: T, y: T)
    requires |a| == |b| && a != b
    ensures x in a && x !in b && y in b && y !in a
  {
    if a <= b {
      SubsetSize(a, b);
      assert false;
    }
    if b <= a {
      SubsetSize(b, a);
      assert false;
    }
    x :| x in a && x !in b;
    y :| y in b && y !in a;
  }

  lemma SubsetSize<T>(a: set<T>, b: set<T>)
    requires a <= b && |a| == |b|
    ensures a == b
  {
    assert |b - a| == |b| - |a|;
  }

  /** As many rows are read as the batch has blocks. */
  lemma RowsCount(point: map<PointKey, Row>, future: seq<Block>, window: nat, rows: seq<PointRef>)
    requires Unprocessed(point) == KeysOf(future) && |future| > window
    requires forall i, j :: 0 <= i < j < |future| ==> future[i].Key() != future[j].Key()
    requires OldestFirst(point, BLOCK_BATCH_SIZE + window, rows)
    ensures |rows| - window == BatchLength(future, window) > 0
    ensures |Keys(rows[..|rows| - window])| == |KeysOf(future[..BatchLength(future, window)])|
  {
    KeysOfCount(future);
    KeysCount(rows[..|rows| - window]);
    KeysOfCount(future[..BatchLength(future, window)]);
  }

  /** The rows read for a batch that ends in a regular block are the next blocks' rows, ties or not. */
  lemma RowsArePrefix(point: map<PointKey, Row>, future: seq<Block>, window: nat, rows: seq<PointRef>)
    requires Unprocessed(point) == KeysOf(future) && Ordered(future) && |future| > window && CutsRegular(future, window)
    requires forall i, j :: 0 <= i < j < |future| ==> future[i].Key() != future[j].Key()
    requires OldestFirst(point, BLOCK_BATCH_SIZE + window, rows)
    ensures |rows| - window == BatchLength(future, window) > 0
    ensures Keys(rows[..|rows| - window]) == KeysOf(future[..BatchLength(future, window)])
  {
    var n := BatchLength(future, window);
    RowsCount(point, future, window, rows);
    var taken, next := Keys(rows[..n]), KeysOf(future[..n]);
    assert !future[n - 1].Boundary();
    if taken != next {
      var k, j := SameSizeDiffers(taken, next);
      TakenIsUnprocessed(point, window, rows, k);
      BeyondIsLater(future, n, j, k);
      PrefixKeysOf(future, n, j);
      OlderThanRest(point, BLOCK_BATCH_SIZE + window, window, rows, k, j);
      assert false;
    }
  }

  lemma PrefixKeysOf(future: seq<Block>, n: nat, j: PointKey)
    requires n <= |future| && j in KeysOf(future[..n])
    ensures j in KeysOf(future)
  {
    var a :| 0 <= a < n && future[..n][a].Key() == j;
    assert future[a].Key() in KeysOf(future);
  }

  lemma TakenIsUnprocessed(point: map<PointKey, Row>, window: nat, rows: seq<PointRef>, k: PointKey)
    requires OldestFirst(point, BLOCK_BATCH_SIZE + window, rows) && window < |rows| && k in Keys(rows[..|rows| - window])
    ensures k in Unprocessed(point)
  {
    var i :| 0 <= i < |rows| - window && rows[..|rows| - window][i].Key() == k;
    assert rows[i].Key() in Unprocessed(point);
  }

  /** Behind a batch that ends in a regular block every block lies strictly later. */
  lemma BeyondIsLater(future: seq<Block>, n: nat, j: PointKey, k: PointKey)
    requires Ordered(future) && 0 < n <= |future| && !future[n - 1].Boundary()
    requires j in KeysOf(future[..n]) && k in KeysOf(future) && k !in KeysOf(future[..n])
    ensures j.slot < k.slot
  {
    var a :| 0 <= a < n && future[..n][a].Key() == j;
    var b :| 0 <= b < |future| && future[b].Key() == k;
    RegularBelow(future, a, n - 1, b);
  }

  /** What is ready before a batch is ready after it. */
  lemma ReadyAfter(s: Setup, fetch: Node, window: nat)
    requires Ready(s, fetch, window) && |s.future| > window
    ensures Ready(Advanced(s, BatchLength(s.future, window)), fetch, window)
  {
    var n := BatchLength(s.future, window);
    var a, b := s.future[..n], s.future[n..];
    assert a + b == s.future && !s.future[n - 1].Boundary();
    FirstCut(s.t, s.chain, s.lost, a, b);
    StillWaiting(s.t, s.chain, s.lost, a, b);
    ServesRest(fetch, s.future, n);
    CutsRest(s.future, window);
  }

  lemma ServesRest(fetch: Node, future: seq<Block>, n: nat)
    requires Serves(fetch, future) && n <= |future|
    ensures Serves(fetch, future[n..])
  {
    var rest := future[n..];
    forall i, j | 0 <= i < |rest| && 0 <= j < |rest| ensures fetch(rest[i].Key(), rest[j].Key()) == Range(rest, i, j) {
      assert rest[i] == future[n + i] && rest[j] == future[n + j];
      assert Range(future, n + i, n + j) == fetch(rest[i].Key(), rest[j].Key());
      assert i <= j ==> rest[i..j + 1] == future[n + i..n + j + 1];
    }
  }

  lemma CutsRest(future: seq<Block>, window: nat)
    requires CutsRegular(future, window) && |future| > window
    ensures CutsRegular(future[BatchLength(future, window)..], window)
  {
    var n := BatchLength(future, window);
    var rest := future[n..];
    forall i | 0 <= i < Todo(rest, window) && ((i + 1) % BLOCK_BATCH_SIZE == 0 || i + 1 == Todo(rest, window))
      ensures !rest[i].Boundary()
    {
      assert rest[i] == future[n + i];
      assert n == BLOCK_BATCH_SIZE && Todo(future, window) == n + Todo(rest, window);
      assert (n + i + 1) % BLOCK_BATCH_SIZE == (i + 1) % BLOCK_BATCH_SIZE;
    }
  }

  /** After a batch the rows that wait are those of the blocks left. */
  lemma StillWaiting(t: Tables, chain: seq<Block>, lost: set<string>, a: seq<Block>, b: seq<Block>)
    requires AtRest(t, chain, lost) && Follows(t, chain, a + b) && EndsRegular(a) && a != []
    requires Unprocessed(t.point) == KeysOf(a + b)
    ensures Unprocessed(Committed(t, chain, a).point) == KeysOf(b)
  {
    var h0 := Height(chain, |chain|);
    FollowsFirst(t, chain, a, b);
    NamedIsAccepted(chain, a);
    BatchExtends(t, chain, lost, a);
    PrefixFollows(a, b);
    WaitingLess(t.point, chain, a, b, h0);
  }

  lemma WaitingLess(point: map<PointKey, Row>, chain: seq<Block>, a: seq<Block>, b: seq<Block>, h0: nat)
    requires HashesIdentify(point) && Awaits(point, a) && Unprocessed(point) == KeysOf(a + b) && KeysOf(a) !! KeysOf(b)
    requires RowsStored(SetHeights(point, RefsFrom(h0, a)), chain + a)
    ensures Unprocessed(SetHeights(point, RefsFrom(h0, a))) == KeysOf(b)
  {
    var after := SetHeights(point, RefsFrom(h0, a));
    KeysOfAppend(a, b);
    KeysOfAppend(chain, a);
    SetHeightsFrame(point, RefsFrom(h0, a));
    ProcessedKeys(after, chain + a);
    forall k | k in point ensures k in Unprocessed(after) <==> k in Unprocessed(point) && k !in KeysOf(a) {
      KeptOrNamed(point, a, h0, k);
    }
  }

  /** A batch cannot start: the cached point has no row, or an unprocessed row lies behind it. */
  ghost predicate CannotStart(point: map<PointKey, Row>, cache: PointRef) {
    (cache.hash != "" || cache.height > 0) && exists r :: r != NoRowBehind && BehindIs(point, cache.hash, r)
  }

  /** The first and the last row taken are the first and the last block of the batch. */
  predicate EdgesRight(future: seq<Block>, window: nat, rows: seq<PointRef>)
    requires |future| > window && |rows| - window == BatchLength(future, window)
  {
    && rows[0].Key() == future[0].Key()
    && rows[BatchLength(future, window) - 1].Key() == future[BatchLength(future, window) - 1].Key()
  }

  /** No two blocks share a slot at the beginning or the end of the next batch. */
  predicate ClearBatch(future: seq<Block>, window: nat)
    requires |future| > window
  {
    var n := BatchLength(future, window);
    n > 1 ==> future[0].slot < future[1].slot && future[n - 2].slot < future[n - 1].slot
  }

  /** Position of a row taken among the blocks of the batch. */
  lemma RowIsBlock(future: seq<Block>, n: nat, rows: seq<PointRef>, r: nat) returns (a: nat)
    requires n <= |future| && r < n <= |rows| && Keys(rows[..n]) == KeysOf(future[..n])
    ensures a < n && rows[r].Key() == future[a].Key()
  {
    assert rows[..n][r].Key() in Keys(rows[..n]);
    a :| 0 <= a < n && future[..n][a].Key() == rows[r].Key();
  }

  lemma BlockIsRow(future: seq<Block>, n: nat, rows: seq<PointRef>, a: nat) returns (r: nat)
    requires n <= |rows| && a < n <= |future| && Keys(rows[..n]) == KeysOf(future[..n])
    ensures r < n && rows[r].Key() == future[a].Key()
  {
    assert future[..n][a].Key() in KeysOf(future[..n]);
    r :| 0 <= r < n && rows[..n][r].Key() == future[a].Key();
  }

  /** Without a tie at its edges the batch is asked for by its own first and last block. */
  lemma ClearIsRight(point: map<PointKey, Row>, future: seq<Block>, window: nat, rows: seq<PointRef>)
    requires Unprocessed(point) == KeysOf(future) && Ordered(future) && |future| > window && CutsRegular(future, window)
    requires forall i, j :: 0 <= i < j < |future| ==> future[i].Key() != future[j].Key()
    requires OldestFirst(point, BLOCK_BATCH_SIZE + window, rows) && ClearBatch(future, window)
    ensures |rows| - window == BatchLength(future, window) && EdgesRight(future, window, rows)
  {
    var n := BatchLength(future, window);
    RowsArePrefix(point, future, window, rows);
    var a := RowIsBlock(future, n, rows, 0);
    var r := BlockIsRow(future, n, rows, 0);
    assert rows[0].slot <= rows[r].slot;
    var b := RowIsBlock(future, n, rows, n - 1);
    var q := BlockIsRow(future, n, rows, n - 1);
    assert rows[q].slot <= rows[n - 1].slot;
  }

  /** The rows in chain order, as a query may answer them. */
  function Natural(point: map<PointKey, Row>, future: seq<Block>, m: nat): seq<PointRef>
    requires m <= |future| && Unprocessed(point) == KeysOf(future)
  {
    seq(m, i requires 0 <= i < m => assert future[i].Key() in KeysOf(future); PointRef(future[i].slot, future[i].hash, point[future[i].Key()].kind, 0))
  }

  lemma NaturalIsOldest(point: map<PointKey, Row>, future: seq<Block>, limit: nat, m: nat)
    requires Unprocessed(point) == KeysOf(future) && Ordered(future) && m == if |future| < limit then |future| else limit
    requires forall i, j :: 0 <= i < j < |future| ==> future[i].Key() != future[j].Key()
    ensures OldestFirst(point, limit, Natural(point, future, m))
  {
    var rows := Natural(point, future, m);
    KeysOfCount(future);
    forall i | 0 <= i < m ensures rows[i].Key() == future[i].Key() && rows[i].Key() in Unprocessed(point) {
      assert future[i].Key() in KeysOf(future);
    }
    forall i, j | 0 <= i < j < m ensures rows[i].Key() != rows[j].Key() && rows[i].slot <= rows[j].slot {
      assert future[i].Key() != future[j].Key();
    }
    forall k, i | k in Unprocessed(point) && k !in Keys(rows) && 0 <= i < m ensures rows[i].slot <= k.slot {
      var b :| 0 <= b < |future| && future[b].Key() == k;
      assert future[i].slot <= future[b].slot;
    }
  }

  function Swapped(rows: seq<PointRef>, i: nat): seq<PointRef>
    requires i + 1 < |rows|
  {
    rows[i := rows[i + 1]][i + 1 := rows[i]]
  }

  /** Rows of the same slot may come in either order. */
  lemma SwapIsOldest(point: map<PointKey, Row>, limit: nat, rows: seq<PointRef>, i: nat)
    requires OldestFirst(point, limit, rows) && i + 1 < |rows| && rows[i].slot == rows[i + 1].slot
    ensures OldestFirst(point, limit, Swapped(rows, i))
  {
    var other := Swapped(rows, i);
    SwapKeepsKeys(rows, i);
    forall a, b | 0 <= a < b < |other| ensures other[a].Key() != other[b].Key() && other[a].slot <= other[b].slot {
      var a', b' := Back(a, i), Back(b, i);
      assert other[a] == rows[a'] && other[b] == rows[b'];
      assert rows[i].Key() != rows[i + 1].Key();
      if a' < b' { assert rows[a'].Key() != rows[b'].Key(); } else { assert a == i && b == i + 1; }
    }
  }

  /** Where an entry of the swapped rows was. */
  function Back(a: nat, i: nat): nat {
    if a == i then i + 1 else if a == i + 1 then i else a
  }

  lemma SwapKeepsKeys(rows: seq<PointRef>, i: nat)
    requires i + 1 < |rows|
    ensures Keys(Swapped(rows, i)) == Keys(rows)
  {
    var other := Swapped(rows, i);
    forall a | 0 <= a < |rows| ensures rows[a].Key() in Keys(other) && other[a].Key() in Keys(rows) {
      assert other[Back(a, i)] == rows[a] && other[a] == rows[Back(a, i)];
    }
  }

  /** Every read asks for the batch by its own edges exactly when no two blocks share a slot there. */
  lemma RightIffClear(point: map<PointKey, Row>, future: seq<Block>, window: nat)
    requires Unprocessed(point) == KeysOf(future) && Ordered(future) && |future| > window && CutsRegular(future, window)
    requires forall i, j :: 0 <= i < j < |future| ==> future[i].Key() != future[j].Key()
    ensures (forall rows :: OldestFirst(point, BLOCK_BATCH_SIZE + window, rows) ==>
               |rows| - window == BatchLength(future, window) && EdgesRight(future, window, rows)) <==>
            ClearBatch(future, window)
  {
    if ClearBatch(future, window) {
      forall rows | OldestFirst(point, BLOCK_BATCH_SIZE + window, rows)
        ensures |rows| - window == BatchLength(future, window) && EdgesRight(future, window, rows)
      {
        ClearIsRight(point, future, window, rows);
      }
    } else {
      var rows := WrongRead(point, future, window);
    }
  }

  lemma WrongRead(point: map<PointKey, Row>, future: seq<Block>, window: nat) returns (rows: seq<PointRef>)
    requires Unprocessed(point) == KeysOf(future) && Ordered(future) && |future| > window && !ClearBatch(future, window)
    requires forall i, j :: 0 <= i < j < |future| ==> future[i].Key() != future[j].Key()
    ensures OldestFirst(point, BLOCK_BATCH_SIZE + window, rows)
    ensures |rows| - window == BatchLength(future, window) && !EdgesRight(future, window, rows)
  {
    var n, limit := BatchLength(future, window), BLOCK_BATCH_SIZE + window;
    var m := if |future| < limit then |future| else limit;
    NaturalIsOldest(point, future, limit, m);
    var i := if future[0].slot >= future[1].slot then 0 else n - 2;
    assert future[i].slot == future[i + 1].slot;
    rows := Swapped(Natural(point, future, m), i);
    SwapIsOldest(point, limit, Natural(point, future, m), i);
    SwapMoves(point, future, m, i);
    assert !EdgesRight(future, window, rows);
  }

  lemma SwapMoves(point: map<PointKey, Row>, future: seq<Block>, m: nat, i: nat)
    requires Unprocessed(point) == KeysOf(future) && i + 1 < m <= |future| && future[i].Key() != future[i + 1].Key()
    ensures Swapped(Natural(point, future, m), i)[i].Key() != future[i].Key()
    ensures Swapped(Natural(point, future, m), i)[i + 1].Key() != future[i + 1].Key()
  {
  }

  /** Asked for by its own edges, the batch is served. */
  lemma TurnReads(s: Setup, fetch: Node, window: nat, rows: seq<PointRef>)
    requires Ready(s, fetch, window) && |s.future| > window
    requires OldestFirst(s.t.point, BLOCK_BATCH_SIZE + window, rows)
    requires |rows| - window == BatchLength(s.future, window) && EdgesRight(s.future, window, rows)
    ensures |rows| > window
    ensures Requested(fetch, rows, window) == Blocks(s.future[..BatchLength(s.future, window)])
    ensures Keys(rows[..|rows| - window]) == KeysOf(s.future[..BatchLength(s.future, window)])
  {
    var n := BatchLength(s.future, window);
    RowsArePrefix(s.t.point, s.future, window, rows);
    assert s.future[0..n - 1 + 1] == s.future[..n];
    assert fetch(s.future[0].Key(), s.future[n - 1].Key()) == Range(s.future, 0, n - 1);
  }

  /** The batch can start, and starts behind the chain. */
  lemma TurnStarts(t: Tables, chain: seq<Block>, lost: set<string>)
    requires AtRest(t, chain, lost)
    ensures !CannotStart(t.point, TopOf(chain))
    ensures forall c :: StartsAt(t.point, TopOf(chain), c) <==> c == CursorAfter(chain)
  {
    forall c ensures StartsAt(t.point, TopOf(chain), c) <==> c == CursorAfter(chain) { StartsAfterTop(t.point, chain, c); }
    if chain != [] {
      forall r | BehindIs(t.point, TopOf(chain).hash, r) ensures r == NoRowBehind { NothingBehindTop(t.point, chain, r); }
    }
  }

  /** The batch is accepted and committed without a clash. */
  lemma TurnPasses(s: Setup, n: nat)
    requires AtRest(s.t, s.chain, s.lost) && Follows(s.t, s.chain, s.future)
    requires 0 < n <= |s.future| && !s.future[n - 1].Boundary()
    ensures var batch := Pass(CursorAfter(s.chain), s.future[..n]);
            && batch.Accepted? && FreshTxs(s.t.tx, batch.txs) && batch.points != []
            && Advanced(s, n).t == Tables(SetHeights(s.t.point, batch.points), s.t.archive, InsertTxs(s.t.tx, batch.txs))
            && Advanced(s, n).cache == batch.points[|batch.points| - 1]
  {
    assert s.future[..n] + s.future[n..] == s.future;
    FollowsFirst(s.t, s.chain, s.future[..n], s.future[n..]);
    FollowingPasses(s.t, s.chain, s.lost, s.future[..n]);
  }

  lemma BatchEndsRegular(future: seq<Block>, window: nat)
    requires CutsRegular(future, window) && |future| > window
    ensures 0 < BatchLength(future, window) <= |future| && !future[BatchLength(future, window) - 1].Boundary()
  {
  }

  lemma FollowingPasses(t: Tables, chain: seq<Block>, lost: set<string>, blocks: seq<Block>)
    requires AtRest(t, chain, lost) && Follows(t, chain, blocks) && blocks != []
    ensures var batch := Pass(CursorAfter(chain), blocks);
            && batch.Accepted? && FreshTxs(t.tx, batch.txs) && batch.points != []
            && Committed(t, chain, blocks) == Tables(SetHeights(t.point, batch.points), t.archive, InsertTxs(t.tx, batch.txs))
            && TopOf(chain + blocks) == batch.points[|batch.points| - 1]
  {
    NamedIsAccepted(chain, blocks);
    CommittedIndexes(t, chain, lost, blocks);
    BatchResult(chain, blocks);
    BatchTop(chain, blocks);
  }

  /** With no more blocks than the window holds, no more rows are read. */
  lemma NothingToDo(s: Setup, fetch: Node, window: nat, rows: seq<PointRef>)
    requires Ready(s, fetch, window) && |s.future| <= window
    requires OldestFirst(s.t.point, BLOCK_BATCH_SIZE + window, rows)
    ensures |rows| <= window
  {
    KeysOfCount(s.future);
  }

  // ------------------------------------------------------ several turns

  /** Blocks i and i + 1 are the first two or the last two of one batch of the drain. */
  predicate AtEdge(todo: nat, i: int) {
    && 0 <= i < todo - 1 && (i + 1) % BLOCK_BATCH_SIZE != 0
    && (i % BLOCK_BATCH_SIZE == 0 || (i + 2) % BLOCK_BATCH_SIZE == 0 || i + 2 == todo)
  }

  /** No two blocks share a slot at the beginning or the end of any batch of the drain. */
  ghost predicate ClearEdges(future: seq<Block>, window: nat) {
    forall i {:trigger AtEdge(Todo(future, window), i)} :: AtEdge(Todo(future, window), i) ==> future[i].slot < future[i + 1].slot
  }

  /**
   The node serves a chain that goes on from the indexed one, without ties at the edges of a batch.
   The quantifier only keeps the definition folded where it is not asked for.
   */
  ghost predicate Smooth(s: Setup, fetch: Node, window: nat) {
    match s
    case Setup(_, _, _, _, future) =>
      forall r {:trigger Ready(r, fetch, window)} :: r == s ==> Ready(r, fetch, window) && ClearEdges(future, window)
  }

  lemma ClearFirst(future: seq<Block>, window: nat)
    requires ClearEdges(future, window) && |future| > window
    ensures ClearBatch(future, window)
  {
    var n := BatchLength(future, window);
    if n > 1 {
      assert AtEdge(Todo(future, window), 0) && AtEdge(Todo(future, window), n - 2);
    }
  }

  lemma ClearRest(future: seq<Block>, window: nat)
    requires ClearEdges(future, window) && |future| > window
    ensures ClearEdges(future[BatchLength(future, window)..], window)
  {
    var n := BatchLength(future, window);
    var rest := future[n..];
    forall i | AtEdge(Todo(rest, window), i) ensures rest[i].slot < rest[i + 1].slot {
      assert n == BLOCK_BATCH_SIZE && Todo(future, window) == n + Todo(rest, window);
      EdgeShifts(Todo(rest, window), i);
      assert rest[i] == future[n + i] && rest[i + 1] == future[n + i + 1];
    }
  }

  lemma SameRest(i: int)
    ensures (BLOCK_BATCH_SIZE + i) % BLOCK_BATCH_SIZE == i % BLOCK_BATCH_SIZE
  {
  }

  lemma EdgeShifts(todo: nat, i: int)
    requires AtEdge(todo, i)
    ensures AtEdge(BLOCK_BATCH_SIZE + todo, BLOCK_BATCH_SIZE + i)
  {
    SameRest(i);
    SameRest(i + 1);
    SameRest(i + 2);
  }

  /** How many of the blocks to come are processed after some batches. */
  function Done(future: seq<Block>, window: nat, batches: nat): nat {
    if batches * BLOCK_BATCH_SIZE < Todo(future, window) then batches * BLOCK_BATCH_SIZE else Todo(future, window)
  }

  lemma HashesOfAppend(a: seq<Block>, b: seq<Block>)
    ensures HashesOf(a + b) == HashesOf(a) + HashesOf(b)
  {
    var all := a + b;
    forall i | 0 <= i < |a| ensures a[i].hash in HashesOf(all) { assert all[i] == a[i]; }
    forall i | 0 <= i < |b| ensures b[i].hash in HashesOf(all) { assert all[|a| + i] == b[i]; }
  }

  lemma NotAdvanced(s: Setup)
    requires s.cache == TopOf(s.chain)
    ensures Advanced(s, 0) == s
  {
    assert s.future[..0] == [] && s.future[0..] == s.future && s.chain + [] == s.chain;
    assert s.lost - HashesOf([]) == s.lost;
    assert RefsFrom(Height(s.chain, |s.chain|), []) == [];
  }

  /** Two batches in turn leave what their concatenation leaves. */
  lemma AdvancedTwice(s: Setup, d: nat, n: nat)
    requires d + n <= |s.future| && EndsRegular(s.chain) && EndsRegular(s.chain + s.future[..d])
    ensures Advanced(Advanced(s, d), n) == Advanced(s, d + n)
  {
    var a, b := s.future[..d], s.future[d..][..n];
    assert s.future[..d + n] == a + b && s.future[d + n..] == s.future[d..][n..];
    CommittedSplits(s.t, s.chain, a, b);
    HashesOfAppend(a, b);
    Associates(s.chain, a, b);
    assert s.lost - HashesOf(a) - HashesOf(b) == s.lost - HashesOf(a + b);
  }

  lemma NextDone(future: seq<Block>, window: nat, batches: nat)
    ensures var d := Done(future, window, batches);
            && d <= |future| && Done(future, window, batches + 1) == d + BatchLength(future[d..], window)
  {
  }

  lemma SmoothRegular(s: Setup, fetch: Node, window: nat)
    requires Smooth(s, fetch, window)
    ensures EndsRegular(s.chain) && s.cache == TopOf(s.chain)
  {
    assert Ready(s, fetch, window);
  }

  lemma SmoothAfter(s: Setup, fetch: Node, window: nat)
    requires Smooth(s, fetch, window) && |s.future| > window
    ensures BatchLength(s.future, window) <= |s.future|
    ensures Smooth(Advanced(s, BatchLength(s.future, window)), fetch, window)
  {
    ReadyAfter(s, fetch, window);
    ClearRest(s.future, window);
  }

}
