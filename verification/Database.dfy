/**
 The SQLite database of the index: three tables updated in place, one method per
 operation. Every update is one transaction: it commits as a whole or changes nothing.
 */
module Database {
  import opened Tables
  import opened Wrappers

  /** Rows per INSERT statement when transactions are stored. */
  const CHUNK_SIZE := 499

  class SqliteDatabase {
    var point: map<PointKey, Row>
    var archive: map<PointKey, int>
    var tx: map<string, nat>

    ghost function View(): Tables
      reads this
    {
      Tables(point, archive, tx)
    }

    constructor ()
      ensures View() == EMPTY
    {
      point, archive, tx := map[], map[], map[];
    }

    method AddPoints(points: seq<PointRef>)
      modifies this`point
      ensures View() == old(View()).(point := WithPoints(old(point), points))
    {
      var staged := point;
      for i := 0 to |points|
        invariant staged == WithPoints(old(point), points[..i])
      {
        assert points[..i + 1][..i] == points[..i];
        var p := points[i];
        var height := if p.Key() in staged then staged[p.Key()].height else UNPROCESSED;
        staged := staged[p.Key() := Row(p.kind, height)];
      }
      assert points[..|points|] == points;
      point := staged;
    }

    method SetPointHeights(updates: seq<PointRef>)
      modifies this`point
      ensures View() == old(View()).(point := SetHeights(old(point), updates))
    {
      var staged := point;
      for i := 0 to |updates|
        invariant staged == SetHeights(old(point), updates[..i])
      {
        assert updates[..i + 1][..i] == updates[..i];
        staged := map k | k in staged :: if k.hash == updates[i].hash then staged[k].(height := updates[i].height) else staged[k];
      }
      assert updates[..|updates|] == updates;
      point := staged;
    }

    /** Chunked inserts in one transaction; a primary key clash fails it, and nothing is stored. */
    method AddTxsForBlock(refs: seq<TxRef>) returns (ok: bool)
      modifies this`tx
      ensures ok <==> FreshTxs(old(tx), refs)
      ensures View() == if ok then old(View()).(tx := InsertTxs(old(tx), refs)) else old(View())
    {
      var staged := tx;
      var i := 0;
      while i < |refs|
        invariant 0 <= i <= |refs|
        invariant FreshTxs(old(tx), refs[..i]) && staged == InsertTxs(old(tx), refs[..i])
        invariant tx == old(tx)
      {
        var end := if i + CHUNK_SIZE > |refs| then |refs| else i + CHUNK_SIZE;
        var j := i;
        while j < end
          invariant i <= j <= end
          invariant FreshTxs(old(tx), refs[..j]) && staged == InsertTxs(old(tx), refs[..j])
          invariant tx == old(tx)
        {
          assert refs[..j + 1][..j] == refs[..j];
          if refs[j].hash in staged {
            FreshPrefix(old(tx), refs, j + 1);
            return false;
          }
          staged := staged[refs[j].hash := refs[j].blockHeight];
          j := j + 1;
        }
        i := end;
      }
      assert refs[..|refs|] == refs;
      tx := staged;
      ok := true;
    }

    /** Archives and deletes every point at or after the slot, with the transactions at archived heights. */
    method HandleRollback(fromSlot: nat) returns (ok: bool)
      modifies this
      ensures ok <==> !ArchiveClash(old(View()), fromSlot)
      ensures View() == if ok then RolledBack(old(View()), fromSlot) else old(View())
    {
      var doomed := set k | k in point && fromSlot <= k.slot;
      if exists k :: k in doomed && k in archive {
        return false;
      }
      archive := archive + map k | k in doomed :: point[k].height;
      point := point - doomed;
      var heights := set k | k in archive && fromSlot <= k.slot && 0 <= archive[k] :: archive[k];
      tx := map x | x in tx && tx[x] !in heights :: tx[x];
      ok := true;
    }

    /** The oldest unprocessed points, in slot order; ties are broken arbitrarily. */
    method GetPointsForProcessing(batchSize: nat) returns (points: seq<PointRef>)
      ensures OldestFirst(point, batchSize, points)
      ensures forall i :: 0 <= i < |points| ==> points[i].Key() in point && point[points[i].Key()].height == -1
    {
      points := [];
      var left := set k | k in point && point[k].height == UNPROCESSED;
      assert left == Unprocessed(point);
      while left != {} && |points| < batchSize
        invariant |points| <= batchSize && Picked(point, points, left)
        decreases |left|
      {
        ghost var oldest := OldestExists(left);
        var k :| k in left && forall j :: j in left ==> k.slot <= j.slot;
        var p := PointRef(k.slot, k.hash, point[k].kind, 0);
        PickNextRow(point, points, left, p);
        PickNextInOrder(points, left, p);
        points := points + [p];
        left := left - {k};
      }
      assert forall k :: k in Unprocessed(point) && k !in Keys(points) ==> k in left;
    }

    method GetHighestPoint() returns (top: Option<PointRef>)
      ensures HighestIs(point, if top.Some? then top.value else NO_POINT)
      ensures top.Some? <==> exists k :: HighestRow(point, k)
      ensures top.Some? ==> top.value.kind != 0
    {
      if exists k :: k in point && HighestRow(point, k) {
        var k :| k in point && HighestRow(point, k);
        top := Some(PointRef(k.slot, k.hash, point[k].kind, point[k].height));
      } else {
        top := None;
      }
    }

    method GetPointByHeight(height: nat) returns (p: Option<PointRef>)
      ensures p.Some? <==> exists k :: RegularAt(point, k, height)
      ensures p.Some? ==> RegularAt(point, p.value.Key(), height) && p.value == ToRef(point, p.value.Key()) && p.value.kind != 0
    {
      if exists k :: k in point && RegularAt(point, k, height) {
        var k :| k in point && RegularAt(point, k, height);
        p := Some(PointRef(k.slot, k.hash, point[k].kind, height));
      } else {
        p := None;
      }
    }

    method GetBlockNumForTx(txhash: string) returns (height: Option<nat>)
      ensures height == if txhash in tx then Some(tx[txhash]) else None
    {
      height := if txhash in tx then Some(tx[txhash]) else None;
    }

    /** Looks for an unprocessed row behind the one with this hash; reading such a row fails on its height -1. */
    method GetBoundaryPointBehind(hash: string) returns (r: Behind)
      ensures BehindIs(point, hash, r)
    {
      if exists k :: k in point && k.hash == hash {
        var target :| target in point && target.hash == hash;
        if j :| j in point && point[j].height == UNPROCESSED && j.slot < target.slot {
          assert j in Unprocessed(point);
          r := Unreadable;
        } else {
          assert forall j :: j in Unprocessed(point) ==> target.slot <= j.slot;
          r := NoRowBehind;
        }
      } else {
        r := UnknownHash;
      }
    }
  }

  ghost predicate PickedRows(point: map<PointKey, Row>, points: seq<PointRef>, left: set<PointKey>) {
    && left <= Unprocessed(point) && Keys(points) == Unprocessed(point) - left
    && |points| + |left| == |Unprocessed(point)|
    && (forall i :: 0 <= i < |points| ==> points[i].Key() in Unprocessed(point) && points[i].kind == point[points[i].Key()].kind)
  }

  ghost predicate PickedInOrder(points: seq<PointRef>, left: set<PointKey>) {
    && (forall i, j :: 0 <= i < j < |points| ==> points[i].Key() != points[j].Key() && points[i].slot <= points[j].slot)
    && (forall k, i :: k in left && 0 <= i < |points| ==> points[i].slot <= k.slot && points[i].Key() != k)
  }

  /** Some unprocessed rows are picked, in slot order, and the others, in `left`, are no older. */
  ghost predicate Picked(point: map<PointKey, Row>, points: seq<PointRef>, left: set<PointKey>) {
    PickedRows(point, points, left) && PickedInOrder(points, left)
  }

  lemma PickNextRow(point: map<PointKey, Row>, points: seq<PointRef>, left: set<PointKey>, p: PointRef)
    requires PickedRows(point, points, left) && p.Key() in left && p.kind == point[p.Key()].kind
    ensures PickedRows(point, points + [p], left - {p.Key()})
  {
    KeysSnoc(points, p);
  }

  lemma PickNextInOrder(points: seq<PointRef>, left: set<PointKey>, p: PointRef)
    requires PickedInOrder(points, left) && p.Key() in left
    requires forall j :: j in left ==> p.slot <= j.slot
    ensures PickedInOrder(points + [p], left - {p.Key()})
  {
  }

  lemma {:induction false} OldestExists(ks: set<PointKey>) returns (k: PointKey)
    requires ks != {}
    ensures k in ks && forall j :: j in ks ==> k.slot <= j.slot
    decreases |ks|
  {
    k :| k in ks;
    if ks != {k} {
      var rest := OldestExists(ks - {k});
      k := if rest.slot < k.slot then rest else k;
    }
  }

  /** A clash among the first rows is a clash. */
  lemma {:induction false} FreshPrefix(tx: map<string, nat>, refs: seq<TxRef>, n: nat)
    requires n <= |refs|
    ensures FreshTxs(tx, refs) ==> FreshTxs(tx, refs[..n])
    decreases |refs|
  {
    if n == |refs| {
      assert refs[..n] == refs;
    } else {
      FreshPrefix(tx, refs[..|refs| - 1], n);
      assert refs[..|refs| - 1][..n] == refs[..n];
    }
  }
}
