/**
 The three tables of the chain index as values, one function per committed
 transaction and one relation per query. A query whose SQL leaves the choice of
 row open (LIMIT 1, ties in ORDER BY) is a relation, so what is proved about it
 holds for whichever row the engine picks.
 */
module Tables {

  /** The height of a point whose block has not been processed. */
  const UNPROCESSED := -1
  /** Block type 0: an epoch boundary block. */
  const BOUNDARY := 0

  datatype PointKey = PointKey(slot: nat, hash: string)
  datatype Row = Row(kind: int, height: int)
  datatype TxRef = TxRef(hash: string, blockHeight: nat)

  datatype PointRef = PointRef(slot: nat, hash: string, kind: int, height: nat) {
    function Key(): PointKey { PointKey(slot, hash) }
  }

  /** The zero value of a point reference, used where no row was found. */
  const NO_POINT := PointRef(0, "", 0, 0)

  datatype Tables = Tables(point: map<PointKey, Row>, archive: map<PointKey, int>, tx: map<string, nat>)

  const EMPTY := Tables(map[], map[], map[])

  // ---------------------------------------------------------------- updates

  /** INSERT OR REPLACE of one point: a stored height survives, a new row is unprocessed. */
  function WithPoint(point: map<PointKey, Row>, p: PointRef): map<PointKey, Row> {
    point[p.Key() := Row(p.kind, if p.Key() in point then point[p.Key()].height else UNPROCESSED)]
  }

  function WithPoints(point: map<PointKey, Row>, ps: seq<PointRef>): map<PointKey, Row> {
    if ps == [] then point else WithPoint(WithPoints(point, ps[..|ps| - 1]), ps[|ps| - 1])
  }

  /** UPDATE ... WHERE hash = ?: every row with that hash gets the height, whatever its slot. */
  function SetHeight(point: map<PointKey, Row>, p: PointRef): map<PointKey, Row> {
    map k | k in point :: if k.hash == p.hash then point[k].(height := p.height) else point[k]
  }

  function SetHeights(point: map<PointKey, Row>, ps: seq<PointRef>): map<PointKey, Row> {
    if ps == [] then point else SetHeight(SetHeights(point, ps[..|ps| - 1]), ps[|ps| - 1])
  }

  /** The tx table with the given rows written. */
  function InsertTxs(tx: map<string, nat>, refs: seq<TxRef>): map<string, nat> {
    if refs == [] then tx
    else InsertTxs(tx, refs[..|refs| - 1])[refs[|refs| - 1].hash := refs[|refs| - 1].blockHeight]
  }

  /** No primary key clash: each row is new to the table and to the rows before it. */
  predicate FreshTxs(tx: map<string, nat>, refs: seq<TxRef>) {
    refs == [] ||
    (FreshTxs(tx, refs[..|refs| - 1]) && refs[|refs| - 1].hash !in InsertTxs(tx, refs[..|refs| - 1]))
  }

  /** The rows a rollback to `slot` archives and deletes: the rollback slot itself is among them. */
  function Doomed(point: map<PointKey, Row>, slot: nat): set<PointKey> {
    set k | k in point && slot <= k.slot
  }

  /** Archiving is a plain INSERT, so a row that was archived before makes the rollback fail. */
  predicate ArchiveClash(t: Tables, slot: nat) {
    exists k :: k in Doomed(t.point, slot) && k in t.archive
  }

  function Archived(t: Tables, slot: nat): map<PointKey, int> {
    t.archive + map k | k in Doomed(t.point, slot) :: t.point[k].height
  }

  /** The heights whose transactions a rollback deletes: every archived row counts, old or new. */
  function DeletedHeights(archive: map<PointKey, int>, slot: nat): set<int> {
    set k | k in archive && slot <= k.slot && 0 <= archive[k] :: archive[k]
  }

  /** The tables after a rollback that met no archive clash. */
  function RolledBack(t: Tables, slot: nat): Tables {
    var archive := Archived(t, slot);
    Tables(t.point - Doomed(t.point, slot), archive,
           map x | x in t.tx && t.tx[x] !in DeletedHeights(archive, slot) :: t.tx[x])
  }

  // ---------------------------------------------------------------- queries

  function Unprocessed(point: map<PointKey, Row>): set<PointKey> {
    set k | k in point && point[k].height == UNPROCESSED
  }

  function ToRef(point: map<PointKey, Row>, k: PointKey): PointRef
    requires k in point && 0 <= point[k].height
  {
    PointRef(k.slot, k.hash, point[k].kind, point[k].height)
  }

  /** A row GetHighestPoint may return: of maximal height among the processed rows, and regular. */
  predicate HighestRow(point: map<PointKey, Row>, k: PointKey) {
    k in point && 0 <= point[k].height && point[k].kind != BOUNDARY &&
    forall j :: j in point ==> point[j].height <= point[k].height
  }

  /** GetHighestPoint may answer `top`; it answers NO_POINT (no rows) when there is no candidate. */
  ghost predicate HighestIs(point: map<PointKey, Row>, top: PointRef) {
    if exists k :: HighestRow(point, k)
    then HighestRow(point, top.Key()) && top == ToRef(point, top.Key())
    else top == NO_POINT
  }

  /** A row GetPointByHeight may return. */
  predicate RegularAt(point: map<PointKey, Row>, k: PointKey, height: nat) {
    k in point && point[k].height == height && point[k].kind != BOUNDARY
  }

  /** Unreadable: a row was found, and its height -1 does not fit the unsigned field it is read into. */
  datatype Behind = UnknownHash | NoRowBehind | Unreadable

  /** GetBoundaryPointBehind may answer `r`. */
  ghost predicate BehindIs(point: map<PointKey, Row>, hash: string, r: Behind) {
    match r
    case UnknownHash => forall k :: k in point ==> k.hash != hash
    case NoRowBehind =>
      exists target :: target in point && target.hash == hash &&
                       forall j :: j in Unprocessed(point) ==> target.slot <= j.slot
    case Unreadable =>
      exists target, j :: target in point && target.hash == hash && j in Unprocessed(point) && j.slot < target.slot
  }

  /** GetPointsForProcessing may answer `ps`: the oldest unprocessed rows, in slot order, at most `limit`. */
  ghost predicate OldestFirst(point: map<PointKey, Row>, limit: nat, ps: seq<PointRef>) {
    && |ps| == (if |Unprocessed(point)| < limit then |Unprocessed(point)| else limit)
    && (forall i :: 0 <= i < |ps| ==> ps[i].Key() in Unprocessed(point) && ps[i].kind == point[ps[i].Key()].kind)
    && (forall i, j :: 0 <= i < j < |ps| ==> ps[i].Key() != ps[j].Key() && ps[i].slot <= ps[j].slot)
    && (forall k :: k in Unprocessed(point) && k !in Keys(ps) ==> forall i :: 0 <= i < |ps| ==> ps[i].slot <= k.slot)
  }

  function Keys(ps: seq<PointRef>): set<PointKey> {
    set i | 0 <= i < |ps| :: ps[i].Key()
  }

  // ---------------------------------------------------------------- laws

  /** A non-empty hash names one block, hence one row. */
  ghost predicate HashesIdentify(point: map<PointKey, Row>) {
    forall j, k :: j in point && k in point && j.hash == k.hash ==> j == k
  }

  /** Re-adding known points never changes a stored height, and a new point starts unprocessed. */
  lemma {:induction false} AddPointsKeepsHeights(point: map<PointKey, Row>, ps: seq<PointRef>)
    ensures WithPoints(point, ps).Keys == point.Keys + Keys(ps)
    ensures forall k :: k in point ==> WithPoints(point, ps)[k].height == point[k].height
    ensures forall k :: k in WithPoints(point, ps) && k !in point ==> WithPoints(point, ps)[k].height == -1
    ensures forall k :: k in point && k !in Keys(ps) ==> WithPoints(point, ps)[k] == point[k]
  {
    if ps != [] {
      var init := ps[..|ps| - 1];
      AddPointsKeepsHeights(point, init);
      KeysSnoc(init, ps[|ps| - 1]);
      assert ps == init + [ps[|ps| - 1]];
    }
  }

  /** A named row ends with the kind its point was named with last. */
  lemma {:induction false} AddPointsAt(point: map<PointKey, Row>, ps: seq<PointRef>, i: nat)
    requires i < |ps| && forall j :: i < j < |ps| ==> ps[j].Key() != ps[i].Key()
    ensures ps[i].Key() in WithPoints(point, ps) && WithPoints(point, ps)[ps[i].Key()].kind == ps[i].kind
  {
    var n := |ps| - 1;
    if i < n {
      assert ps[n].Key() != ps[i].Key();
      AddPointsAt(point, ps[..n], i);
    }
  }

  lemma KeysSnoc(ps: seq<PointRef>, p: PointRef)
    ensures Keys(ps + [p]) == Keys(ps) + {p.Key()}
  {
    var qs := ps + [p];
    assert qs[|ps|] == p;
    forall k | k in Keys(ps) ensures k in Keys(qs) {
      var i :| 0 <= i < |ps| && ps[i].Key() == k;
      assert qs[i] == ps[i];
    }
  }

  lemma {:induction false} KeysCount(ps: seq<PointRef>)
    requires forall i, j :: 0 <= i < j < |ps| ==> ps[i].Key() != ps[j].Key()
    ensures |Keys(ps)| == |ps|
  {
    if ps != [] {
      var n := |ps| - 1;
      KeysCount(ps[..n]);
      KeysSnoc(ps[..n], ps[n]);
      assert ps == ps[..n] + [ps[n]];
      assert forall i :: 0 <= i < n ==> ps[..n][i] == ps[i];
    }
  }

  lemma KeysSplit(rows: seq<PointRef>, t: nat)
    requires t <= |rows|
    ensures Keys(rows) == Keys(rows[..t]) + Keys(rows[t..])
  {
    forall i | 0 <= i < |rows| ensures rows[i].Key() in Keys(rows[..t]) + Keys(rows[t..]) {
      if i < t { assert rows[..t][i] == rows[i]; } else { assert rows[t..][i - t] == rows[i]; }
    }
    forall i | 0 <= i < t ensures rows[..t][i].Key() in Keys(rows) { assert rows[i].Key() in Keys(rows); }
    forall i | 0 <= i < |rows| - t ensures rows[t..][i].Key() in Keys(rows) { assert rows[t + i].Key() in Keys(rows); }
  }

  /** A point read before the last `window` rows is no younger than any unprocessed row not read so. */
  lemma OlderThanRest(point: map<PointKey, Row>, limit: nat, window: nat, rows: seq<PointRef>, j: PointKey, k: PointKey)
    requires OldestFirst(point, limit, rows) && window < |rows|
    requires j in Keys(rows[..|rows| - window]) && k in Unprocessed(point) - Keys(rows[..|rows| - window])
    ensures j.slot <= k.slot
  {
    var t := |rows| - window;
    var a :| 0 <= a < t && rows[..t][a].Key() == j;
    KeysSplit(rows, t);
    if k in Keys(rows[t..]) {
      var b :| 0 <= b < |rows| - t && rows[t..][b].Key() == k;
      assert rows[a].slot <= rows[t + b].slot;
    } else {
      assert rows[a].slot <= k.slot;
    }
  }

  /** Setting heights only changes heights, and only of rows whose hash is named. */
  lemma {:induction false} SetHeightsFrame(point: map<PointKey, Row>, ps: seq<PointRef>)
    ensures SetHeights(point, ps).Keys == point.Keys
    ensures forall k :: k in point ==> SetHeights(point, ps)[k].kind == point[k].kind
    ensures forall k :: k in point && (forall i :: 0 <= i < |ps| ==> ps[i].hash != k.hash) ==>
              SetHeights(point, ps)[k] == point[k]
  {
    if ps != [] {
      SetHeightsFrame(point, ps[..|ps| - 1]);
    }
  }

  /** A named row ends at the height its hash was named with last. */
  lemma {:induction false} SetHeightsAt(point: map<PointKey, Row>, ps: seq<PointRef>, i: nat, k: PointKey)
    requires i < |ps| && k in point && k.hash == ps[i].hash
    requires forall b :: i < b < |ps| ==> ps[b].hash != k.hash
    ensures k in SetHeights(point, ps) && SetHeights(point, ps)[k] == Row(point[k].kind, ps[i].height)
  {
    var n := |ps| - 1;
    if i < n {
      assert ps[n].hash != k.hash;
      SetHeightsAt(point, ps[..n], i, k);
    } else {
      SetHeightsFrame(point, ps[..n]);
    }
  }

  function TxHashes(refs: seq<TxRef>): set<string> {
    set i | 0 <= i < |refs| :: refs[i].hash
  }

  lemma TxHashesSnoc(refs: seq<TxRef>, r: TxRef)
    ensures TxHashes(refs + [r]) == TxHashes(refs) + {r.hash}
  {
    var qs := refs + [r];
    assert qs[|refs|] == r;
    forall x | x in TxHashes(refs) ensures x in TxHashes(qs) {
      var i :| 0 <= i < |refs| && refs[i].hash == x;
      assert qs[i] == refs[i];
    }
  }

  lemma {:induction false} InsertTxsKeys(tx: map<string, nat>, refs: seq<TxRef>)
    ensures InsertTxs(tx, refs).Keys == tx.Keys + TxHashes(refs)
  {
    if refs != [] {
      var n := |refs| - 1;
      InsertTxsKeys(tx, refs[..n]);
      TxHashesSnoc(refs[..n], refs[n]);
      assert refs == refs[..n] + [refs[n]];
    }
  }

  /** A fresh insert keeps every old row and stores each new row with its own height. */
  lemma {:induction false} InsertTxsLaw(tx: map<string, nat>, refs: seq<TxRef>)
    requires FreshTxs(tx, refs)
    ensures InsertTxs(tx, refs).Keys == tx.Keys + TxHashes(refs)
    ensures tx.Keys !! TxHashes(refs)
    ensures forall x :: x in tx ==> InsertTxs(tx, refs)[x] == tx[x]
    ensures forall i :: 0 <= i < |refs| ==> refs[i].hash in InsertTxs(tx, refs) && InsertTxs(tx, refs)[refs[i].hash] == refs[i].blockHeight
  {
    InsertTxsKeys(tx, refs);
    if refs != [] {
      var n := |refs| - 1;
      InsertTxsLaw(tx, refs[..n]);
      TxHashesSnoc(refs[..n], refs[n]);
      assert refs == refs[..n] + [refs[n]];
      forall i | 0 <= i < n
        ensures refs[i].hash in InsertTxs(tx, refs) && InsertTxs(tx, refs)[refs[i].hash] == refs[i].blockHeight
      {
        assert refs[..n][i] == refs[i];
      }
    }
  }

  /** The table accepts the rows exactly when their hashes are pairwise different and none is stored. */
  lemma {:induction false} FreshTxsMeans(tx: map<string, nat>, refs: seq<TxRef>)
    ensures FreshTxs(tx, refs) <==>
              (forall i :: 0 <= i < |refs| ==> refs[i].hash !in tx) &&
              (forall i, j :: 0 <= i < j < |refs| ==> refs[i].hash != refs[j].hash)
  {
    if refs != [] {
      var n := |refs| - 1;
      FreshTxsMeans(tx, refs[..n]);
      InsertTxsKeys(tx, refs[..n]);
      assert forall i :: 0 <= i < n ==> refs[..n][i] == refs[i];
    }
  }

  /** What a rollback keeps: exactly the rows below the slot, unchanged. */
  lemma RollbackKeeps(t: Tables, slot: nat)
    ensures var r := RolledBack(t, slot).point;
            && (forall k :: k in r <==> k in t.point && k.slot < slot)
            && (forall k :: k in r ==> r[k] == t.point[k])
  {
  }

  /** A transaction row goes exactly when its height is among the deleted ones. */
  lemma RollbackDropsTx(t: Tables, slot: nat, x: string)
    ensures x in RolledBack(t, slot).tx <==> x in t.tx && t.tx[x] !in DeletedHeights(Archived(t, slot), slot)
    ensures x in RolledBack(t, slot).tx ==> RolledBack(t, slot).tx[x] == t.tx[x]
  {
  }

  /** Every deleted row is archived with its height, and earlier archive rows stay as they were. */
  lemma RollbackArchives(t: Tables, slot: nat)
    requires !ArchiveClash(t, slot)
    ensures var a := Archived(t, slot);
            && (forall k :: k in t.archive ==> k in a && a[k] == t.archive[k])
            && (forall k :: k in t.point && slot <= k.slot ==> k in a && a[k] == t.point[k].height)
            && (forall k :: k in a ==> k in t.archive || k in Doomed(t.point, slot))
  {
    assert forall k :: k in Doomed(t.point, slot) ==> k !in t.archive;
  }

  lemma DeletedHeight(archive: map<PointKey, int>, slot: nat, k: PointKey)
    requires k in archive && slot <= k.slot && 0 <= archive[k]
    ensures archive[k] in DeletedHeights(archive, slot)
  {
  }
}
