# The chain index and the message stream, verified

This project models the two stateful halves of the `cardano-go` library and three small
algorithms beside them, in Dafny 4.11, and proves what they keep, undo and agree on.
`dafny verify dfyconfig.toml` checks everything.

**The chain index.** Points of the chain arrive unprocessed (height -1). A processor trails the
tip by a window, reads a batch, fetches its blocks, checks that they link, numbers them, and
commits heights and transactions in two transactions. Rollbacks archive and delete points. A
cached highest point stands in for a query.

- `Tables.dfy`, `Database.dfy`: the three tables as values, one function per committed
  transaction and one relation per query; the database class whose methods are proved equal to them.
- `Chain.dfy`: the pass over a batch and its closed forms. `ChainIndex.dfy`: what it means that
  the tables index a chain.
- `Run.dfy`, `IndexTheorems.dfy`: the state machine of arrivals, batches, rollbacks and restarts,
  its invariant over every run, and what a reader of the tables may rely on. The invariant says
  that the tables are exactly what *one* pass over the surviving chain would have written.
- `Losses.dfy`: exactly which steps lose a block's transactions, that they stay lost, and so when a
  lookup succeeds.
- `BatchTheorems.dfy`, `RollbackTheorems.dfy`: how a chain is cut into batches does not show; a
  rollback undoes a batch; and the exact conditions under which either fails.
- `Reachable.dfy`, `RollbackRuns.dfy`: every next batch can be run, and runs from the empty database
  that end in the failing cases.
- `Draining.dfy`, `Processor.dfy`, `ChainSync.dfy`: the processor and client classes, built from the
  same functions, and what the drain loop makes of a chain that the node serves by range.

**The message stream.** `Wire.dfy` states what is assumed of the CBOR decoder. `MessageReader.dfy`
gives one read as a function (`ReadOnce`, with its short-read branch and its panic) and the ideal it is
measured by, a function of the bytes alone (`Drive`). `StreamReader.dfy` is the reader class with its
buffers and loops, proved equal to `ReadOnce`. `ReaderTheorems.dfy` says exactly which cuttings of a
stream the reader survives, and proves incremental batch parsing; `Segment.dfy` has the writer and its
round trip, `BatchReading.dfy` a block batch end to end.

**Small algorithms.** `FdPool.dfy`, `BinarySearch.dfy`, `CborTag.dfy`.

Environment assumptions are preconditions, collected in `Run.Allowed`: a non-empty hash names one
row; a fetch returns exactly the blocks of the awaited points, in slot order (`Processor.TurnCommitsIff` says when asking for two ends does), where only a boundary
block may share its slot, with the regular block after it; a batch ends in a regular block and its
last slot is below every other unprocessed slot; arriving points are stored rows seen again or lie
above every processed and every awaited slot; transactions are fresh and boundary blocks carry none; a
batch is read only while the cached point is what the query answers, and with none cached nothing is
processed. Rollbacks are free: any slot, whatever is left on top. Where SQL leaves the choice of a row open, the model lets
the environment choose.

## Where the code falls short of its intent

Each of these is a property that one might expect and that fails; the named lemma gives the exact
condition or the failing family.

- A batch that follows one ending on a boundary block starts one height too high
  (`BatchTheorems.BoundaryCutShifts`); a restart there numbers from 0 again
  (`BatchTheorems.RestartContinuesIffRegular`).
- The boundary hash is looked up among unprocessed rows, whose height -1 cannot be read back: the
  lookup finds no row or fails, and one unprocessed row behind the top stops every batch
  (`ChainIndex.StartsIff`).
- A process that dies between the two commits leaves its batch with heights and without transactions,
  and nothing ever adds them (`Losses.RestartLoses`, `Losses.LostStays`); it can happen to every batch
  (`Losses.LossIsReached`). `Losses.LossIff` lists all the steps that lose transactions.
- A batch is asked for by its first and last row alone, and rows of equal slot come in any order. Where a
  boundary block and the next regular one stand at the edge of a batch, the range may miss one of them
  and the batch is not committed (`Processor.TurnCommitsIff`, `Processor.AllTurnsCommitIff`).
- A range without blocks counts as a committed batch: nothing is processed, the cached point is
  forgotten, and the loop reads the same rows again (`Processor.EmptyRangeChangesNothing`).
- Points that wait in the client's buffer survive a rollback and are handed on after it
  (`ChainSync.StaleIffPending`).
- A rollback deletes the rollback slot itself, so the next block of the chain is rejected unless it is
  a boundary block (`RollbackTheorems.NextBlockIsOrphaned`).
- A rollback at or above the highest processed slot does nothing: points of an abandoned fork inside
  the window stay (`RollbackTheorems.RollbackClears`, `RollbackRuns.OrphanStays`), and one that a later
  fetch skips stops the processor until a rollback removes it (`RollbackTheorems.SkippedRowStopsProcessor`).
- A rollback after which no regular block is on top keeps the deleted point cached and reports no
  error (`RollbackTheorems.RollbackCacheAgrees`); no batch starts until a restart
  (`RollbackTheorems.RollbackSticks`, `RollbackTheorems.StuckUntilRestart`) or until the deleted point
  comes back, and then the numbering goes wrong (`Run.RightIffCacheHolds`).
- Rows archived by an earlier rollback take transactions of surviving blocks with them
  (`ChainIndex.SurvivorKeepsTxs`, `RollbackRuns.StaleArchiveDropsSurvivor`), and a point that was rolled
  back once and returned can never be rolled back again
  (`RollbackTheorems.ArchivedPointBlocksRollback`, `RollbackRuns.SecondRollbackFails`).
- With a window of 0 the drain loop panics once it has caught up
  (`Processor.BlockProcessor.ProcessBlocks`).
- A read of at most 8 bytes while header bytes are held may overfill the header; from then on nothing
  is read, and the first longer read panics or reports a bad header (`ReaderTheorems.MisfitReads`,
  `ReaderTheorems.CuttingDoesNotShow`). A stream that only comes in such reads is never read at all
  (`ReaderTheorems.ShortReadsYieldNothing`). A batch with a segment cut behind the first byte of an
  item fails (`ReaderTheorems.PrefixFailsAtLoneByte`, `BatchReading.BatchIsRead`).
- Outside a batch every message is decoded into the one object of its type, so of two messages of one type
  in a read the caller holds the later one twice (`Segment.HeldIff`, `Segment.ReadIsHeldIff`).
- The binary search never ends when an end wraps (`BinarySearch.EndsIffNoWrap`, `BinarySearch.Wraps`).
- A wrapper without a positive tag does not survive its round trip (`CborTag.RoundTripIff`).

## Model

| member | source | states |
|---|---|---|
| Tables.AddPointsKeepsHeights | db_sqlite.go:279-299 | re-adding points keeps every stored height, new rows start unprocessed, other rows are untouched, and no row is lost |
| Tables.AddPointsAt | db_sqlite.go:279-299 | a row ends with the kind its point was last added with |
| Tables.SetHeightsFrame | db_sqlite.go:315-326 | setting heights changes only heights, and only of rows whose hash is named |
| Tables.SetHeightsAt | db_sqlite.go:315-326 | a named row ends at the height its hash was named with last |
| Tables.InsertTxsLaw | db_sqlite.go:174-198 | a clash-free insert keeps all old rows and stores each new one with its own height |
| Tables.FreshTxsMeans | db_sqlite.go:47-50 | the primary key accepts rows exactly when their hashes are pairwise different and none is stored |
| Database.SqliteDatabase.AddPoints | db_sqlite.go:269-303 | the insert-or-replace loop equals the table update, other tables unchanged |
| Database.SqliteDatabase.SetPointHeights | db_sqlite.go:305-330 | the update loop equals the table update, other tables unchanged |
| Database.SqliteDatabase.AddTxsForBlock | db_sqlite.go:159-199 | the chunked insert succeeds exactly without a key clash and otherwise changes nothing |
| Database.SqliteDatabase.HandleRollback | db_sqlite.go:83-124 | fails, changing nothing, exactly when a doomed row is archived already; otherwise all three tables are rolled back |
| Database.SqliteDatabase.GetPointsForProcessing | db_sqlite.go:127-157 | the oldest unprocessed rows in slot order, distinct, as many as the limit allows, ties arbitrary |
| Database.SqliteDatabase.GetHighestPoint | db_sqlite.go:346-364 | some regular row of maximal height, none exactly when no such row exists |
| Database.SqliteDatabase.GetPointByHeight | db_sqlite.go:386-404 | some regular row of that height, none exactly when there is none |
| ChainSync.LookupLeads | db_sqlite.go:241-253 | on tables that index a chain, a stored transaction resolves to the height of its own block, and the only regular row there is that block's |
| Database.SqliteDatabase.GetBoundaryPointBehind | db_sqlite.go:406-438 | unknown hash, no unprocessed row behind it, or a row that cannot be read because its height is -1 |
| Chain.PassMeans | block_processor.go:137-184 | a batch is accepted exactly when every regular block above height 0 names the latest regular or boundary hash; heights, transaction references and cursor have closed forms |
| Chain.HeightsRise | block_processor.go:172-180 | heights never fall and rise after every regular block |
| Chain.BoundarySharesHeight | block_processor.go:172-176 | a boundary block shares its successor's height exactly above height 0 |
| Chain.HeightContinues | block_processor.go:102-105 | a batch started one above a regular top continues the numbering of the whole chain |
| Chain.HeightsContiguous | block_processor.go:172-180 | every height between the first regular one and the next free one belongs to a regular block |
| Chain.RefsFromAppend | block_processor.go:163-170 | point references of a concatenation are those of its parts in turn |
| Chain.TxsFromAppend | block_processor.go:156-161 | transaction references of a concatenation are those of its parts in turn |
| ChainIndex.SlotOrderIsHeightOrder | block_processor.go:163-180 | regular rows have unique heights, ordered as their slots |
| ChainIndex.HeightsLeaveNoGap | block_processor.go:163-180 | below a regular row every height down to the first is taken |
| ChainIndex.HeightFindsBlock | db_sqlite.go:390-393 | the only regular row at a block's height is the block's own |
| ChainIndex.HighestIsTop | db_sqlite.go:350-358 | the query has a candidate exactly when the chain ends in a regular block, and then only its last block |
| ChainIndex.HighestAnswer | db_sqlite.go:346-364 | the query answers the chain's top and nothing else |
| ChainIndex.NothingBehindTop | db_sqlite.go:426-433 | no unprocessed row lies behind the top, so the boundary query finds no row |
| ChainIndex.StartsAfterTop | block_processor.go:102-117 | a batch starts one above the cached top, names its hash, and has an empty boundary hash |
| ChainIndex.StartsIff | block_processor.go:107-117 | a batch can start exactly when no point is cached, or the cached point has a row and no unprocessed row lies behind it |
| ChainIndex.LinksExtend | block_processor.go:148-154 | an accepted batch keeps the whole chain linked |
| ChainIndex.HeightsExtend | block_processor.go:190-193 | committing the heights of a batch makes the point table index the longer chain |
| ChainIndex.TxsArrive | block_processor.go:195-197 | a batch's transactions never clash and complete the tx table for its blocks |
| ChainIndex.ArrivalsKeepIndex | client.go:265-272 | arriving points leave the indexed chain as it is |
| ChainIndex.RollbackTruncates | db_sqlite.go:94-108 | a rollback below the top leaves exactly the surviving prefix at its old heights and no unprocessed row |
| ChainIndex.RollbackTxs | db_sqlite.go:111-120 | the tx table then indexes the survivors, less those hit by stale archive rows |
| ChainIndex.SurvivorKeepsTxs | db_sqlite.go:111-117 | a survivor's transactions stay exactly when no older archive row at or after the slot carries its height |
| Run.ArriveKeepsInv | client.go:258-272 | arrivals keep the invariant, also between a batch's read and its commits |
| Run.CacheHoldsIff | block_processor.go:102-105 | the cache is what the query answers exactly when it is the top of a chain that is empty or ends in a regular block |
| Run.RightIffCacheHolds | block_processor.go:102-105 | a batch that the code starts continues the numbering exactly when the cache is what the query answers; otherwise it is numbered too high, or from 0 with nothing cached |
| Run.ReadKeepsInv | block_processor.go:85-117 | reading a batch keeps the invariant |
| Run.FetchedKeepsInv | block_processor.go:137-193 | a fetched batch, accepted or rejected, keeps the invariant |
| Run.StoreTxsKeepsInv | block_processor.go:195-199 | the second commit never clashes and keeps the invariant |
| Run.RollBackKeepsInv | block_processor.go:208-241 | a rollback to any slot keeps the invariant, whatever it leaves on top |
| Run.RestartKeepsInv | block_processor.go:32-51 | a restart at any moment keeps the invariant |
| Run.RunKeepsInv | block_processor.go:78-241 | every interleaving of arrivals, batches, rollbacks and restarts keeps the tables equal to one pass over the surviving chain |
| IndexTheorems.RunOrdersHeights | block_processor.go:78-241 | after every run regular heights are unique and ordered as slots, and unprocessed slots lie above processed ones |
| IndexTheorems.RunHeightsContiguous | block_processor.go:137-184 | after every run the regular heights are an interval starting at 0 or 1 |
| IndexTheorems.RunTxsAreAnchored | db_sqlite.go:159-199 | after every run each tx row sits at the height of exactly one regular point, whose block holds the transaction |
| IndexTheorems.RunCacheAgrees | block_processor.go:199-199 | after every run, between batches, the cached point is the one answer of the query exactly when a regular row is at the maximal height or no point is cached |
| IndexTheorems.RunLinksBlocks | block_processor.go:148-154 | after every run every accepted regular block above height 0 names the latest regular block, the latest boundary block, or no block |
| Losses.LookupIff | client.go:437-449 | in every reachable state a block's transaction is stored exactly when the block is not lost, and then resolves to the block's own point only |
| Losses.StepLoses | block_processor.go:190-199 | a block is without transactions for good after a step exactly when it was before, or the step is a restart between its commits or a rollback over a stale archive row of its height |
| Losses.LossIff | block_processor.go:78-241 | over every run: exactly when one of these steps hit the block and it stayed in the chain since |
| Losses.LostStays | block_processor.go:190-199 | no run brings back the transactions of a block that stays in the chain |
| Losses.LookupFindsBlock | client.go:437-449 | after every run, between batches, a transaction of the chain is found exactly when no step has lost its block, and resolves to that block only |
| Losses.RestartLoses | block_processor.go:190-199 | a restart between the two commits: the block keeps its row and height, its transactions are gone |
| Losses.LossIsReached | block_processor.go:190-199 | every next batch can end that way, in a state reached from the empty database |
| IndexTheorems.BatchIsThreeSteps | block_processor.go:82-200 | one turn of the processor is the steps read, fetched, stored of the state machine |
| Reachable.BatchCanRun | block_processor.go:82-200 | every batch that names its predecessors can be brought in: each step is allowed, exactly these blocks are added, no row is left waiting |
| BatchTheorems.NamedIsAccepted | block_processor.go:148-154 | a chain whose blocks name their predecessors is never rejected |
| BatchTheorems.CommittedIndexes | block_processor.go:190-197 | after both commits the tables index the longer chain |
| BatchTheorems.ProcessSucceeds | block_processor.go:102-200 | a following batch succeeds with the closed form of tables and cache |
| BatchTheorems.CommittedSplits | block_processor.go:190-197 | committing two batches in turn writes what their concatenation writes |
| BatchTheorems.CutsDoNotShow | block_processor.go:82-200 | any cut into batches ending in regular blocks, with or without restarts, gives the tables and cache of one big batch |
| BatchTheorems.BoundaryCutShifts | block_processor.go:102-105 | after a cut on a boundary block heights continue right exactly at height 0 |
| BatchTheorems.RestartContinuesIffRegular | block_processor.go:33-36 | a restarted processor goes on with the numbering exactly when the chain does not end on a boundary block; there it numbers from 0 |
| RollbackTheorems.RollbackUndoesBatch | block_processor.go:208-241 | rolling back to a batch's first slot restores processed points, tx table and highest point, with no unprocessed row left |
| RollbackTheorems.RollbackCacheAgrees | block_processor.go:232-237 | the cache agrees with the query exactly when the survivors end in a regular block |
| RollbackTheorems.NextBlockIsOrphaned | db_sqlite.go:94-105 | after a rollback to a block, a batch going on from that block is accepted exactly when it begins with a boundary block |
| RollbackTheorems.ArchiveIsHistory | db_sqlite.go:94-102 | along every run the archive grows by exactly the rows rolled back |
| RollbackTheorems.ArchivedPointBlocksRollback | db_sqlite.go:94-102 | after every run a rollback below the highest point changes nothing exactly when a stored point at or after its slot was rolled back before |
| RollbackTheorems.RollbackClears | block_processor.go:222-222 | no row at or after the slot is left exactly when the rollback takes place or there was none; above the highest point exactly the unprocessed rows there stay |
| RollbackTheorems.SkippedRowStopsProcessor | block_processor.go:111-117 | after a batch, restarted or not, the processor can go on exactly when every unprocessed row the fetch skipped lies at or above the last slot |
| RollbackTheorems.RollbackSticks | block_processor.go:232-237 | a rollback leaves the processor stuck on a deleted point exactly when the query finds none afterwards |
| RollbackTheorems.StuckUntilRestart | block_processor.go:107-117 | whatever arrives and rolls back, a stuck processor starts no batch until a restart or the return of the cached point |
| RollbackRuns.StaleArchiveDropsSurvivor | db_sqlite.go:111-117 | a run from the empty database after which a rollback keeps a block and deletes its transaction |
| RollbackRuns.SecondRollbackFails | db_sqlite.go:94-102 | a run after which rolling back a returned point changes nothing |
| RollbackRuns.OrphanStays | block_processor.go:222-222 | a run after which a rollback leaves an abandoned point at a later slot |
| Draining.RowsArePrefix | db_sqlite.go:133-138 | the rows read for a batch that ends in a regular block are exactly the next blocks', however ties are broken |
| Draining.ClearIsRight | block_processor.go:123-127 | with no two blocks of one slot at its edges, a batch is asked for by its own first and last block |
| Draining.RightIffClear | db_sqlite.go:131-138 | every order the query may answer asks for the right range exactly when no two blocks share a slot at an edge of the batch |
| Draining.NodeExists | block_processor.go:123-127 | for every chain of distinct blocks there is a node that answers each range with its blocks in order |
| Draining.ReadyAfter | block_processor.go:82-200 | a committed batch of a served chain leaves the setup for the next one |
| Processor.BlockProcessor.constructor | block_processor.go:32-51 | a new processor caches what the query answers, or no point |
| Processor.BlockProcessor.Start | block_processor.go:102-117 | height and hashes the next batch starts from; fails only for a cached hash without a row or with an unprocessed row behind it |
| Processor.BlockProcessor.LinkBlocks | block_processor.go:137-184 | the loop over the blocks equals the pass, and yields its last point |
| Processor.BlockProcessor.ProcessBatch | block_processor.go:82-200 | one turn, with a node that sees only first and last point: nothing changes on rejection, heights only on a tx clash, everything and the cache on success; at most 10000 points are taken |
| Processor.BlockProcessor.Store | block_processor.go:190-199 | the two commits: heights always, transactions and cache exactly without a key clash |
| Processor.TurnShrinks | block_processor.go:123-193 | a turn never makes a row unprocessed, and a committed one processes the first row taken at least |
| Processor.EmptyRangeChangesNothing | block_processor.go:137-199 | a turn that is sent no blocks counts as committed, processes nothing and forgets the cached point |
| Processor.TurnCommitsIff | block_processor.go:123-127 | on a served chain a turn commits the next batch exactly when the first and the last row taken are its first and last block |
| Processor.AllTurnsCommitIff | block_processor.go:123-127 | every turn the database may answer commits the next batch exactly when no two blocks share a slot at its edges |
| Processor.BlockProcessor.ProcessBlocks | block_processor.go:78-206 | with a node whose ranges begin where asked the drain loop ends, and panics only with window 0; when every turn got the blocks of its rows, after ceil(max(0, U-w)/10000) batches with min(U, w) rows left, oldest first; on a served chain without ties at batch edges it gets there, with tables and cache of one big batch |
| Processor.TurnsGoAlong | block_processor.go:82-200 | on such a chain, after any number of committed turns tables and cache are those of their blocks committed as one batch |
| Processor.TurnsAreFull | block_processor.go:123-127 | and each of these turns got exactly the blocks of its rows |
| Processor.DrainIsOneBatch | block_processor.go:82-119 | for every chain without such ties the node may be serving, the drain as a whole is one big batch, and ends by the window rule alone |
| Processor.BlockProcessor.HandleRollback | block_processor.go:208-241 | acts only below the highest slot, fails only on an archive clash, and keeps the cache when the query finds nothing |
| Processor.BatchShrinks | block_processor.go:190-193 | a committed batch removes exactly the read points from the unprocessed rows |
| Processor.TurnProgress | block_processor.go:85-94 | one committed batch is one more batch of progress towards the window |
| ChainSync.PointsConserved | client.go:258-272 | over any run of roll-forwards points handed on and pending points are the received ones in order; before the tip is seen all but the last n mod 10000 of n points are handed on, and once it has been seen, by exactly the points that were the tip, all are |
| ChainSync.StaleIffPending | client.go:222-272 | the next hand-over after a rollback holds a point from its slot on, received before it, exactly when such a point was pending |
| ChainSync.Client.OnRollForwards | client.go:238-275 | one roll-forward is one step of that buffer, and what it hands on reaches the point table |
| ChainSync.Client.OnRollBackwards | client.go:222-236 | a rollback above the start slot is the processor's; at or below it nothing happens |
| ChainSync.Client.GetTransaction | client.go:437-459 | each error case exactly; on tables that index a chain the answer is what the node serves for the block that holds the transaction |
| MessageReader.ReadHeader | message.go:32-61 | a header is accepted exactly with fifth byte 0x00 or 0x80 and sixth byte at most 10, the protocol; timestamp and length are the first four and last two bytes |
| Wire.KnownTypes | protocol.go:95-139 | the decoding table: exactly these 32 pairs of protocol and subprotocol |
| Wire.WritableTypes | protocol.go:157-178 | the writing table: exactly these 20 pairs |
| Wire.BatchTypes | protocol.go:116-123 | StartBatch is (3, 2) and BatchDone (3, 5) |
| MessageReader.NextMessageMeans | message.go:279-319 | a message is decoded exactly when the item is whole with a head, its pair is in the table and its body is accepted; each of the four errors exactly |
| StreamReader.StreamReader.ParseBlocks | message.go:173-244 | the batch loop equals the parse of the buffer |
| StreamReader.StreamReader.ParseMessages | message.go:246-277 | the message loop equals the parse of the payload, stopping behind a StartBatch |
| StreamReader.StreamReader.CompleteSegment | message.go:119-166 | what a complete segment yields; checking the last message of the whole read is checking that of this segment, and left-over bytes behind a BatchDone cannot occur |
| StreamReader.StreamReader.OpenSegment | message.go:85-106 | a header is taken from held bytes and data, or short data is held; the index goes below 0 when more than a header was held |
| StreamReader.StreamReader.FillSegment | message.go:108-119 | payload bytes fill the segment, and its completion is handled when full |
| StreamReader.StreamReader.Read | message.go:70-170 | a read from any state between reads: short data appended to the held bytes, a panic or a bad header behind an overfull one, otherwise the reader on the bytes; it terminates |
| ReaderTheorems.ReadsKeepInvariant | message.go:76-148 | between error-free reads the buffer is empty or shorter than announced, and at most 8 header bytes are held exactly when no read overfilled the header |
| ReaderTheorems.FittingReads | message.go:70-170 | reads that do not overfill the header yield messages, error and state of their bytes together |
| ReaderTheorems.MisfitReads | message.go:85-109 | from the first read that overfills the header on, every outcome: all bytes held, or a bad header reported, or a panic |
| ReaderTheorems.CuttingDoesNotShow | message.go:70-170 | reading cut by cut is reading the bytes exactly when no read overfills the header, or the overfilled header is bad and a longer read reports it |
| ReaderTheorems.GoodStreamInPieces | message.go:70-170 | on a stream without errors: exactly when no read overfills the header |
| ReaderTheorems.CuttingsAgree | message.go:70-170 | any two cuttings of a stream whose reads fit give the same messages, error and state |
| ReaderTheorems.ShortReadsYieldNothing | message.go:85-90 | a stream that only comes in reads of at most 8 bytes is held and never read |
| ReaderTheorems.ShortReadIsHeld | message.go:85-90 | appending a short read to the held bytes is right exactly when they still fit in a header |
| ReaderTheorems.BlocksAppend | message.go:122-132 | parsing a batch buffer in two steps is parsing it at once while the batch is open |
| ReaderTheorems.BatchDoneLeavesNothing | message.go:194-204 | a BatchDone leaves no bytes, so the error for left-over bytes is unreachable |
| ReaderTheorems.PrefixFailsAtLoneByte | message.go:206-220 | a prefix of a well-formed body fails exactly when its last byte is the lone first byte of an item |
| ReaderTheorems.FeedIsOneShot | message.go:119-149 | feeding segment by segment yields the blocks and left-over of parsing the whole body exactly when no cut leaves the lone first byte of an item, and fails otherwise |
| Segment.Segment.AddMessage | segment.go:114-128 | accepted exactly for one of the 20 writable types, of the segment's protocol, which one-protocol segments keep |
| Segment.Segment.MarshalDataItem | segment.go:79-108 | payload grows by the messages, length is cut to 16 bits, output is header and payload |
| Segment.HeaderAnnounces | message.go:32-61 | a header, marked as a reply or not, announces the protocol, and the payload length exactly when it fits in 16 bits |
| Segment.PayloadInFront | message.go:246-277 | well-encoded messages decode in order, and then whatever follows them |
| Segment.PayloadParses | message.go:246-319 | a payload of well-encoded messages decodes to exactly those messages |
| Segment.ReaderUndoesWriter | segment.go:79-128 | reading segments written here or by the peer as replies yields all messages in order and a fresh reader, but for a last header without payload |
| Segment.HeldIff | protocol.go:141-155 | what the caller holds of decoded messages is what was decoded exactly when no type came twice with different contents |
| Segment.ReadIsHeldIff | protocol.go:141-155 | the same for written segments read in one read |
| Segment.ReaderUndoesWriterInPieces | message.go:70-170 | the same read by read, exactly when no read overfills the header |
| BatchReading.PartIsRead | message.go:119-149 | a segment inside a batch is parsed together with the left-over bytes |
| BatchReading.PartsAreFed | message.go:119-149 | the reader inside a batch is the incremental feed, its failures included |
| BatchReading.BodyParses | message.go:189-241 | a body of whole blocks parses to those blocks in order |
| BatchReading.BlockMessagesAt | message.go:194-237 | block k of a batch comes as message 4 of protocol 3 with its own bytes, the end as message 5 |
| BatchReading.StartStopsPayload | message.go:246-277 | decoding stops behind a StartBatch, after the messages before it, and hands on the bytes behind it |
| BatchReading.BatchIsRead | message.go:119-149 | behind bytes held already, blocks and end of a batch are read as those blocks and a BatchDone exactly when no cut is behind an item's first byte; otherwise the read fails |
| BatchReading.StartOpensBatch | message.go:154-163 | a segment with a StartBatch puts a fresh reader inside a batch, with the bytes behind it held |
| BatchReading.WholeBatchIsRead | message.go:70-170 | a batch from its start segment, which may hold messages before the StartBatch and bytes behind it, to its end comes out in order and leaves the reader fresh exactly when no cut is behind an item's first byte; otherwise the read fails |
| BatchReading.WholeBatchInPieces | message.go:70-170 | the same read by read, exactly when no cut of the sender is behind an item's first byte and no read overfills the header |
| FdPool.GetKeepsSound | cmd/rpc/cmd.go:33-51 | a get fails exactly at the limit, hands out a descriptor from 3 to 2 + max that is not in use, and keeps the pool sound |
| FdPool.ReleaseKeepsSound | cmd/rpc/cmd.go:53-65 | a released descriptor always fits in the channel and the pool stays sound |
| FdPool.OpsKeepSound | cmd/rpc/cmd.go:24-65 | over any gets and releases in-use and free descriptors are disjoint, duplicate-free and exactly those issued |
| FdPool.FirstFreedFirst | cmd/rpc/cmd.go:33-65 | descriptors released one by one are handed out again in that order, after those free before |
| FdPool.FdPool.Get | cmd/rpc/cmd.go:33-51 | the method equals the pool's get |
| FdPool.FdPool.Release | cmd/rpc/cmd.go:53-65 | the method equals the pool's release |
| FdPool.FileMapMeans | cmd/rpc/cmd.go:97-98 | a name whose last file is number k maps to 3 + k |
| FdPool.DescriptorsAt | cmd/rpc/cmd.go:97-98 | the k-th extra file has descriptor 3 + k |
| FdPool.AssignDescriptors | cmd/rpc/cmd.go:79-104 | succeeds exactly for at most ten files; then descriptor 3 + k of the child, behind its standard streams, is file k, and a name has the descriptor of its last file |
| BinarySearch.Search | util.go:261-282 | at most floor(log2(size))+1 probes; the last number asked decides by a match, an error or an answer outside -1, 0, 1, as in the loop on 64-bit numbers; with a monotone callback a match is found exactly when there is one |
| BinarySearch.Wraps | util.go:273-275 | left of 0 and right of the largest number the range becomes all numbers again |
| BinarySearch.MatchPreventsWrap | util.go:261-282 | a match inside the range rules wrapping out |
| BinarySearch.EndsIffNoWrap | util.go:261-282 | a monotone search ends exactly when the range is empty or neither end can wrap |
| CborTag.WithCborTag.UnmarshalCBOR | util.go:108-120 | edits a copy; panics exactly on no bytes; a bad tag changes nothing, a bad value leaves the new tag, otherwise tag and value are those decoded |
| CborTag.HeadRoundTrip | util.go:122-126 | all five head widths decode to their number |
| CborTag.HeadByte | util.go:125-125 | adding 0xC0 to the first byte never overflows |
| CborTag.HeadBytes | util.go:122-126 | first byte, length and number of each of the five head forms |
| CborTag.DecodeMeans | util.go:113-113 | which integers are read and which refused, numbers beyond 63 bits included |
| CborTag.WritesTag | util.go:122-136 | what is written for a positive tag is a head of major type 6 with that tag, and the value |
| CborTag.ReadsTag | util.go:108-120 | such a head in front of a value is read as that tag and value, and sets the tag even if the value is refused |
| CborTag.TagRoundTrip | util.go:108-136 | every tag from 1 to 2^63-1 comes back with its value |
| CborTag.RoundTripIff | util.go:108-136 | whatever tag the target held before, a wrapper survives exactly with a positive tag, or with that same tag and a value that starts with 0xC0 |

## Left out

- StreamReader.StreamReader.Read: the reader's fields after an error or a panic are not stated, because they depend on where the stream was cut and the connection is done with.
- Run.ReadKeepsInv: a batch read while the cache is not what the query answers is excluded. That needs a rollback that left no regular block on top, followed by the return of the deleted point with no row behind it, or by a restart on a boundary block; `ChainIndex.StartsIff` says when the code starts one, `Run.RightIffCacheHolds` that its heights are then wrong.
- Run.FetchedKeepsInv: a fetch that returns other blocks than those awaited, or ends on a boundary block, is excluded; `RollbackTheorems.SkippedRowStopsProcessor` and `BatchTheorems.BoundaryCutShifts` say what follows.
- Processor.BlockProcessor.ProcessBlocks: a node whose answer does not begin at the first point asked for is excluded, because the loop need not end then; `Processor.EmptyRangeChangesNothing` says what an empty answer does.
- Segment.Segment.AddMessage: a message is its type pair and bytes; of the two accept-version types that share the pair (0, 1) only the node-to-node one can be written, and only the other one is decoded.
- Decoded messages are values; `Segment.HeldIff` says when the objects still hold them.
- CborTag.WithCborTag.UnmarshalCBOR: the value is kept as its bytes and its decoder is a parameter; integers other than plain ones in front of it count as errors, because the decoder is a foreign library.
- The SQL engine, locking, driver errors and timestamps: a failed transaction is no change.
- Goroutines inside one batch and the race between the error and done channels: a fetch yields all blocks or an error. The flag that lets one processing loop run at a time appears as the phases of the state machine.
- The network, keep-alive, node queries, fee estimation, HTTP handlers, the command line, and the block and address structures.
- The CBOR library, hashing and signatures: only the self-delimiting decoder contract and the integer head are used.
- `Segment.Messages`, which repeats the message loop on a stored payload, and `Segment.Complete`.
- Slots and heights as 64-bit numbers: they are unbounded here.
- Negative reorg windows, which the client replaces by its default.
