/** Runs from the empty database on which rollbacks fall short, put together from whole batches. */
module RollbackRuns {
  import opened Tables
  import opened Chain
  import opened ChainIndex
  import opened Run
  import opened Reachable

  /** The step of a rollback that leaves a regular block on top. */
  function RollTo(chain: seq<Block>, slot: nat): Event {
    RollBack(slot, TopOf(chain), TopOf(chain[..Survivors(chain, slot)]))
  }

  lemma RollbackAllowed(s: State, slot: nat)
    requires Settles(s) && s.chain != [] && slot < TopOf(s.chain).slot
    requires EndsRegular(s.chain[..Survivors(s.chain, slot)])
    ensures Allowed(s, RollTo(s.chain, slot))
  {
    var kept := s.chain[..Survivors(s.chain, slot)];
    CacheHoldsIff(s.t.point, s.chain, s.cache);
    HighestAnswer(s.t.point, s.chain, TopOf(s.chain));
    RollbackTruncates(s.t, s.chain, slot);
    PrefixWellFormed(s.chain, Survivors(s.chain, slot));
    HighestAnswer(RolledBack(s.t, slot).point, kept, TopOf(kept));
  }

  /** From a reached state such a rollback leads to a reached state on the surviving prefix. */
  lemma PrefixReaches(s: State, slot: nat) returns (end: State)
    requires Reached(s) && Settles(s) && s.chain != [] && slot < TopOf(s.chain).slot && !ArchiveClash(s.t, slot)
    requires var kept := s.chain[..Survivors(s.chain, slot)]; kept != [] && EndsRegular(kept)
    ensures Allowed(s, RollTo(s.chain, slot)) && end == Apply(s, RollTo(s.chain, slot))
    ensures Reached(end) && Settles(end) && end.chain == s.chain[..Survivors(s.chain, slot)]
    ensures end.t == RolledBack(s.t, slot) && end.lost == LostAfter(s.t, s.chain, s.lost, slot)
  {
    var e := RollTo(s.chain, slot);
    RollbackAllowed(s, slot);
    StepReaches(s, e);
    end := Apply(s, e);
    PrefixSettles(s, slot);
  }

  lemma PrefixSettles(s: State, slot: nat)
    requires Settles(s) && s.chain != [] && slot < TopOf(s.chain).slot && !ArchiveClash(s.t, slot)
    requires var kept := s.chain[..Survivors(s.chain, slot)]; kept != [] && EndsRegular(kept)
    requires Allowed(s, RollTo(s.chain, slot))
    ensures var end := Apply(s, RollTo(s.chain, slot));
            && Settles(end) && end.chain == s.chain[..Survivors(s.chain, slot)]
            && end.t == RolledBack(s.t, slot) && end.lost == LostAfter(s.t, s.chain, s.lost, slot)
  {
    var e := RollTo(s.chain, slot);
    RollBackKeepsInv(s, slot, e.before, e.after);
    RolledState(s, slot, e.before, e.after);
    PrefixKeys(s, slot);
    NothingWaits(Apply(s, e));
  }

  lemma PrefixKeys(s: State, slot: nat)
    requires Inv(s) && s.chain != [] && slot < TopOf(s.chain).slot
    ensures RolledBack(s.t, slot).point.Keys == KeysOf(s.chain[..Survivors(s.chain, slot)])
  {
    RollbackTruncates(s.t, s.chain, slot);
  }

  // A fork at G: X on one side; B, with a payment, and C on the other.
  const G := Block(80, "g", "", 1, [])
  const X := Block(100, "x", "g", 1, [])
  const B := Block(91, "b", "g", 1, ["pay"])
  const C := Block(99, "c", "b", 1, [])

  lemma WellFormedGX()
    ensures WellFormed([G]) && WellFormed([G, X])
  {
  }

  lemma FirstMayCome(blocks: seq<Block>)
    requires 0 < |blocks| <= BLOCK_BATCH_SIZE && EndsRegular(blocks) && WellFormed(blocks)
    requires forall k :: 0 < k < |blocks| ==> blocks[k].prevHash == blocks[k - 1].hash
    ensures Next([], blocks) && [] + blocks == blocks
  {
    assert [] + blocks == blocks;
  }

  lemma FirstBlocks()
    ensures Next([], [G, X]) && Next([], [G]) && [] + [G, X] == [G, X] && [] + [G] == [G]
  {
    WellFormedGX();
    FirstMayCome([G]);
    FirstMayCome([G, X]);
  }

  lemma ForkBlocks()
    ensures [G] + [B, C] == [G, B, C] && Next([G], [B, C])
  {
    assert [G] + [B, C] == [G, B, C];
    assert WellFormed([G, B, C]);
  }

  lemma ReturnedBlock()
    ensures [G] + [X] == [G, X] && Next([G], [X])
  {
    assert [G] + [X] == [G, X];
    WellFormedGX();
  }

  /** G and the block after it are at heights 0 and 1. */
  lemma HeightAboveG(chain: seq<Block>)
    requires |chain| >= 2 && chain[0] == G
    ensures Height(chain, 0) == 0 && Height(chain, 1) == 1
  {
    assert chain[..1] == [G] && [G][..0] == [] && chain[..0] == [];
  }

  lemma Prefixes()
    ensures Survivors([G, X], 90) == 1 && [G, X][..1] == [G]
    ensures Survivors([G, B, C], 95) == 2 && [G, B, C][..2] == [G, B]
  {
    assert [G, X][..1] == [G] && [G, B, C][..2] == [G, B];
  }

  /** The rollback to slot 90 removes X alone, at height 1. */
  lemma AbandonedRow(s: State)
    requires Settles(s) && s.chain == [G, X]
    ensures Doomed(s.t.point, 90) == {X.Key()} && s.t.point[X.Key()].height == 1
  {
    HeightAboveG([G, X]);
    SettledKeys(s);
    assert RowAt(s.t.point, [G, X], 1) && [G, X][1].Key() == X.Key() && [G, X][0].Key() == G.Key();
  }

  lemma FirstArchived(t: Tables)
    requires t.archive == map[] && Doomed(t.point, 90) == {X.Key()} && t.point[X.Key()].height == 1
    ensures !ArchiveClash(t, 90) && Archived(t, 90) == map[X.Key() := 1]
    ensures LostAfter(t, [G, X], {}, 90) == {}
  {
  }

  /** G and X were processed and X was rolled back. */
  lemma AbandonX() returns (s: State)
    ensures Reached(s) && Settles(s) && s.chain == [G] && s.lost == {} && s.t.archive == map[X.Key() := 1]
  {
    StartSettles();
    assert AllowedRun(START, []) && After(START, []) == START;
    FirstBlocks();
    s := BatchReaches(START, [G, X]);
    AbandonedRow(s);
    FirstArchived(s.t);
    Prefixes();
    s := PrefixReaches(s, 90);
  }

  /** Then B and C were processed. */
  lemma TakeFork() returns (s: State)
    ensures Reached(s) && Settles(s) && s.chain == [G, B, C] && s.lost == {} && s.t.archive == map[X.Key() := 1]
  {
    s := AbandonX();
    ForkBlocks();
    s := BatchReaches(s, [B, C]);
  }

  lemma ForkRolls(s: State)
    requires Settles(s) && s.chain == [G, B, C] && s.t.archive == map[X.Key() := 1] && s.lost == {}
    ensures !ArchiveClash(s.t, 95) && "pay" in s.t.tx && "pay" !in RolledBack(s.t, 95).tx
  {
    Prefixes();
    HeightAboveG(s.chain);
    SettledKeys(s);
    assert s.chain[0].Key() != X.Key() && s.chain[1].Key() != X.Key() && s.chain[2].Key() != X.Key();
    assert Holds(s.chain, {}, 1, "pay");
    assert X.Key() in s.t.archive;
    assert StaleAt(s.t, 95, 1);
    SurvivorKeepsTxs(s.t, s.chain, {}, 95, 1, "pay");
  }

  /**
   The archive row of an abandoned fork carries the height of a block on the new fork: a rollback
   between the two keeps the block and deletes its transaction.
   */
  lemma StaleArchiveDropsSurvivor() returns (s: State)
    ensures Reached(s) && Allowed(s, RollTo(s.chain, 95)) && B in s.chain && "pay" in B.txs && "pay" in s.t.tx
    ensures var after := Apply(s, RollTo(s.chain, 95));
            B in after.chain && B.Key() in after.t.point && "pay" !in after.t.tx
  {
    s := TakeFork();
    ForkRolls(s);
    Prefixes();
    var after := PrefixReaches(s, 95);
    assert after.chain[1] == B && RowAt(after.t.point, after.chain, 1);
  }

  /** X comes back and is processed again: rolling it back a second time changes nothing. */
  lemma SecondRollbackFails() returns (s: State)
    ensures Reached(s) && X in s.chain && X.Key() in s.t.point && 90 <= X.slot
    ensures Allowed(s, RollTo(s.chain, 90)) && Apply(s, RollTo(s.chain, 90)) == s
  {
    s := AbandonX();
    ReturnedBlock();
    s := BatchReaches(s, [X]);
    Prefixes();
    RollbackAllowed(s, 90);
    assert s.chain[1] == X && RowAt(s.t.point, s.chain, 1);
    assert X.Key() in Doomed(s.t.point, 90) && X.Key() in s.t.archive;
  }

  lemma XArrives(s: State)
    requires Settles(s) && s.chain == [G] && s.t.archive == map[]
    ensures Allowed(s, Arrive([X.Ref(0)])) && X.Key() in Unprocessed(Apply(s, Arrive([X.Ref(0)])).t.point)
  {
    ReturnedBlock();
    CacheHoldsIff(s.t.point, s.chain, s.cache);
    assert PointsOf([X]) == [X.Ref(0)];
    PointsArrive(s, [X]);
    PointsWait(s, [X]);
    assert [X][0].Key() in KeysOf([X]);
  }

  /** X has arrived but is not processed: a rollback to slot 90 leaves it in the table. */
  lemma OrphanStays() returns (s: State, e: Event)
    ensures Reached(s) && e.RollBack? && e.slot == 90 <= X.slot && Allowed(s, e)
    ensures X.Key() in Unprocessed(Apply(s, e).t.point)
  {
    StartSettles();
    assert AllowedRun(START, []) && After(START, []) == START;
    FirstBlocks();
    var g := BatchReaches(START, [G]);
    XArrives(g);
    CacheHoldsIff(g.t.point, g.chain, g.cache);
    ArriveKeepsInv(g, [X.Ref(0)]);
    StepReaches(g, Arrive([X.Ref(0)]));
    s := Apply(g, Arrive([X.Ref(0)]));
    e := NoRollback(s);
  }

  lemma NoRollback(s: State) returns (e: Event)
    requires Inv(s) && s.phase.Idle? && s.chain == [G]
    ensures e.RollBack? && e.slot == 90 && Allowed(s, e) && Apply(s, e) == s
  {
    HighestAnswer(s.t.point, s.chain, TopOf(s.chain));
    if k :| HighestRow(RolledBack(s.t, 90).point, k) {
      e := RollBack(90, TopOf(s.chain), ToRef(RolledBack(s.t, 90).point, k));
    } else {
      e := RollBack(90, TopOf(s.chain), NO_POINT);
    }
  }
}
