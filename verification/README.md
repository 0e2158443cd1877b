# Verified model of the marketplace indexer

The indexer replicates a contract's event log from a chain into a database and folds it into the
Listing, Auction and Offer tables.  It must survive replays, crashes, gaps, chain re-organisations
and competing workers.  This project models that logic in Dafny and proves what it keeps.

`dafny verify dfyconfig.toml` checks everything.

| files | content |
|---|---|
| `Rows.dfy`, `Replay.dfy` | rows written by guarded and unguarded last-writer-wins updates and upserts; when a replay ends where the first run did |
| `Marketplace.dfy` | `processEvent` for the listing, auction and offer events, as row writes and as in-place updates |
| `Columns.dfy` | the rows read off the events column by column, and proofs that processing and the live tables agree |
| `Rebuild.dfy`, `RebuildLive.dfy`, `Pipeline.dfy`, `Findings.dfy` | the projection rebuild, interrupted and resumed; what it keeps of the live tables, exactly |
| `Rollback.dfy`, `Recovery.dfy` | the projection part of a rollback, followed by a rebuild; exactly which rows it restores |
| `EventStore.dfy`, `Identity.dfy` | event identity, idempotent inserts, overlapping windows |
| `Ingestion.dfy`, `IngestionRuns.dfy`, `Polling.dfy` | the polling protocol as a state machine, its invariants over all runs, and the loop body that performs its steps |
| `FencedLease.dfy` | lease acquisition, renewal and fenced writes by many instances |
| `EventSync.dfy`, `Ordering.dfy` | paged event collection, the ordering key and the application order |
| `Backfill.dfy`, `BackfillResume.dfy` | concurrent batches of a backfill, and what a resume from its checkpoint makes up for |
| `Digits.dfy`, `Decimals.dfy` | decimal text, base-unit amounts |
| `IpfsQueue.dfy`, `Verifier.dfy`, `Retry.dfy`, `CircuitBreaker.dfy`, `GapRepair.dfy`, `Wrappers.dfy` | the smaller cores |

## Where the code and its promises differ

Each of these is kept as the code has it, with the exact condition or a family of inputs proved.

- A rebuild does not query AUCTION_RESERVE_UPDATED, so it keeps the live tables if and only if no
  reserve update is the last word on an auction (`RebuildKeepsLive`, `ReserveUpdateLost`).
- Stored events have no transaction hash, so a rebuild nulls the hash columns of offers it rewrites.
  Interruptions widen what it can rewrite, because an unguarded write takes a row's stamp back
  (`OfferHashesKept`, `RefundHashLost`).
- The rebuild the code starts after a rollback only covers ledgers from the safe point on.  A row is
  restored by it exactly under the condition of `RangeRebuildExactly`; a row that the discarded
  ledgers wrote and the safe ledger did not is always left wrong (`TouchedRowMissed`).  A full
  rebuild of the surviving log restores a listing if and only if its owner was not first assigned in
  the discarded ledgers (`RolledBackListing`).
- The event table's second unique index (listing, type, ledger) silently drops events that share a
  slot; a batch is stored completely if and only if none do (`CompleteExactly`, `LogIsCanonical`).
- The revert transaction and the cursor reset are two steps (`HalfRollback`, `CrashInRollback`), and
  the safe point is found without comparing hashes (`SafePointOnPrefix`).
- A lease row fences only those whose tokens are older than its own.  A row created with an old clock
  reading, and a renewal that outlives the release of its lease and lands on a later row, both let
  another instance write (`BrokenFenceAdmitsStranger`, `StaleReadingAdmitsStranger`,
  `LeftoverAdmitsStranger`).  Such a renewal, and renewals that overlap, can also take the owner's
  token back (`BehindGoesBack`, `LeftoverTakesBack`, `OverlapGoesBack`).
- A backfill batch that fails is to be retried on resume, but a later batch moves the checkpoint past
  it, and a run that does not throw ends Completed and cannot be resumed.  The log is whole if and only
  if what failed before the last commit, or at all, held nothing new (`ResumedExactly`,
  `CompletedExactly`, `FailedBatchLost`).
- The text of a large decimal column may have an exponent, which the amount formatter does not read: it
  prints the digits in front of the point, or throws when there is none (`ColumnPrintsExactly`).
- A verifier run is reported complete although windows could not be fetched; the report is right if and
  only if nothing is to be found in them (`UnverifiedExactly`).
- High-priority IPFS jobs are evicted when the queue is full of them (`HighEvictedExactly`).
- The adaptive page size never adapts within a collection, since a rate limit ends it
  (`CollectMarketplaceEvents`).
- Line 791 of `indexer/src/poller.ts` assigns to a constant; the checkpoint order documented at
  lines 584-589 is modelled.

## Model

| member | source | states |
|---|---|---|
| Marketplace.Projections.ProcessEvent | indexer/src/poller.ts:1133-1809 | the in-place handling of every listing, auction and offer event leaves the rows its writes define, and fails, leaving all rows alone, exactly on a terminal event of an unknown offer |
| Marketplace.Projections.ProcessCreated | indexer/src/poller.ts:1136-1213 | the unguarded upserts of LISTING_CREATED and AUCTION_CREATED create the row or overwrite its event columns |
| Marketplace.Projections.ProcessListingChange | indexer/src/poller.ts:1216-1310 | guarded LISTING_UPDATED, unguarded price, sale, cancellation and ownership updates of a listing |
| Marketplace.Projections.ProcessAuctionChange | indexer/src/poller.ts:1392-1521 | bids, guarded resolution, cancellation, extension and reserve updates of an auction |
| Marketplace.Projections.ProcessOfferMade | indexer/src/poller.ts:1633-1728 | an offer is upserted under the ledger guard, and staged when its listing is not indexed |
| Marketplace.Projections.CloseOffer | indexer/src/poller.ts:1751-1767 | rejecting or withdrawing sets status and refund hash, and throws for an unknown offer |
| Marketplace.Projections.ProcessOfferAccepted | indexer/src/poller.ts:1730-1749 | acceptance closes the offer and sells its listing, or throws and writes nothing |
| Columns.EventOnRow | indexer/src/poller.ts:1133-1809 | on any tables and for any row: an event that is staged, fails, does not touch the row or yields to a later stamp leaves it alone, and any other sets exactly the columns and values listed for it, keeps the rest and stamps the row; the failing events are exactly the closings of unknown offers |
| Columns.LiveExists | indexer/src/poller.ts:1136-1213 | in the live tables of a causally ordered log a row exists if and only if an event creates it, which is the first to touch it |
| Columns.LiveColumn | indexer/src/poller.ts:1136-1809 | every column of a live listing, auction or offer holds what the last event that sets it says, or what the creating event starts it with |
| Columns.LiveStamp | indexer/src/poller.ts:1136-1809 | and its stamp is the ledger of the last event that touches it |
| Columns.ListingStatus | indexer/src/poller.ts:1181-1311 | a live listing is Sold, Cancelled or Active if and only if the last of its sales, accepted offers, cancellations and creations is a sale or acceptance, a cancellation or a creation |
| Columns.AuctionStatus | indexer/src/poller.ts:1340-1470 | a live auction is Finalized, Cancelled or Active if and only if its last resolution, cancellation or creation is of that kind |
| Columns.OfferStatus | indexer/src/poller.ts:1690-1790 | a live offer is Pending, Accepted, Rejected, Withdrawn or Reclaimed if and only if its last event is of that kind |
| Rows.LastWriterWins | indexer/src/poller.ts:1166-1310 | in the first run of a causally ordered log a column holds what its last assignment wrote |
| Rows.ReplayMendsExactly | indexer/src/rebuild-projections.ts:441-521 | for any row and replay position: replaying the rest of the log ends in the final row if and only if each wrong column is reassigned by a write that fires and a wrong stamp is stirred |
| Rows.MendsRun | indexer/src/rebuild-projections.ts:441-521 | the replay invariant (untouched and final, or not ahead and each column final or still to be rewritten) is kept by every stretch of the replay |
| Replay.ResumedReplay | indexer/src/rebuild-projections.ts:441-521 | a replay cut into any passes, each starting no later than where earlier work ended, ends in the tables the log builds |
| Replay.FoldMends | indexer/src/rebuild-projections.ts:441-521 | the tables a log builds satisfy the replay invariant at every position, so a replay may start anywhere |
| Replay.BatchTwice | indexer/src/poller.ts:1036-1049 | a fitting batch of writes applied twice equals applying it once |
| Pipeline.EventBatchTwice | indexer/src/poller.ts:1036-1049 | a causally ordered, ledger-sorted batch of events applied twice to tables not ahead of it equals applying it once, despite the mix of guarded and unguarded writes |
| Pipeline.BatchNeverBlocked | indexer/src/poller.ts:1633-1786 | in such a batch no event is staged and none throws |
| Rebuild.LiveCausal | indexer/src/poller.ts:1136-1809 | a valid log's writes are sorted, every row is first written by a creating event, and both branches of an upsert agree |
| Rebuild.RebuildStep | indexer/src/rebuild-projections.ts:441-521 | during a rebuild no stored event is staged or throws: each acts as its row writes |
| Rebuild.RunBatch | indexer/src/rebuild-projections.ts:441-521 | one batch applies exactly the queried events of its ledgers and counts them |
| Rebuild.RunRebuild | indexer/src/rebuild-projections.ts:351-583 | a run stopped after any number of durable actions leaves the rows of one pass, a checkpoint not beyond it, and each event up to the checkpoint counted once; two actions for each batch complete it |
| RebuildLive.RebuildEnds | indexer/src/rebuild-projections.ts:441-521 | from the live tables, any interrupted and resumed rebuild ends in the tables the queried events build, transaction hashes aside |
| RebuildLive.RebuildKeepsLive | indexer/src/rebuild-projections.ts:66-87 | those are the live tables if and only if, for each auction, the last reserve and the last writing ledger are those of queried events |
| RebuildLive.OfferHashesKept | indexer/src/event-idempotency.ts:82-90 | every complete rebuild, however interrupted and resumed, leaves an offer as it was if and only if no stored event that can get past its guard (the row is not ahead of it, or an unguarded write can take the stamp back) would erase a known hash |
| RebuildLive.OtherColumnsKept | indexer/src/rebuild-projections.ts:441-521 | every other column of a listing or an offer survives any interrupted and resumed rebuild |
| RebuildLive.EveryRebuildKeepsLive | indexer/src/rebuild-projections.ts:441-521 | every interrupted and resumed rebuild keeps the live tables with every column if and only if no reserve update is lost and no known hash can be erased |
| Pipeline.RebuildWithInterruptions | indexer/src/rebuild-projections.ts:351-583 | the rebuild with any list of interruptions: complete means every queried event counted once, the tables of the queried events, the live tables apart from hashes exactly when no reserve update was lost, and with the hashes when none can be erased |
| Pipeline.IngestedThenRebuilt | indexer/src/poller.ts:1036-1049 | overlapping and repeated windows leave the live tables of the distinct events, and a rebuild of the resulting log keeps them exactly when no reserve update was lost |
| Pipeline.LiveNeverBlocked | indexer/src/poller.ts:1633-1786 | live processing of a causally ordered log stages and throws nothing |
| Pipeline.AppliedIsLive | indexer/src/poller.ts:1036-1049 | applying its events one by one gives the tables of its writes |
| Findings.RebuildWithoutReserveUpdates | indexer/src/rebuild-projections.ts:66-87 | without AUCTION_RESERVE_UPDATED any interrupted rebuild keeps the live tables |
| Findings.ReserveUpdateLost | indexer/src/poller.ts:1507-1521 | in any log, a reserve update that is an auction's last event, at a later ledger than the others, is lost: no complete rebuild, however interrupted, ends in the live tables |
| Findings.RefundHashLost | indexer/src/event-idempotency.ts:82-90 | in any log, an accepted, rejected or withdrawn offer has no refund hash after any complete rebuild, however interrupted |
| Rollback.RevertLedgers | indexer/src/poller.ts:348-376 | the delete and update statements leave each row as the rollback defines: created later is deleted, stamped later falls back to a fixed status and the safe stamp |
| Rollback.RevertedRow | indexer/src/poller.ts:348-376 | a listing or auction goes if and only if it was created past the safe ledger; a row stamped later is Pending for an offer and Active otherwise, stamped with the safe ledger; all else is kept |
| Rollback.ResetStatus | indexer/src/reorg.ts:200-203 | rows stamped after the safe ledger get the fixed status and stamp, all others are unchanged |
| Rollback.RolledBackListing | indexer/src/poller.ts:348-358 | rollback plus a full rebuild of the surviving log gives the listing that log builds if and only if its owner was not first assigned in the discarded part |
| Recovery.RangeRebuildExactly | indexer/src/rebuild-projections.ts:603-622 | for any valid log, safe ledger and listing, auction or offer: rollback plus the rebuild from the safe ledger gives the row the surviving log builds if and only if the row is restored: an offer of the discarded part does not exist; a row the discarded part wrote was also written at the safe ledger; and each column is rewritten there with the surviving value, or has the fixed status, or was not changed by the discarded part |
| Recovery.RecoverFromReorg | indexer/src/reorg.ts:304-318 | the rollback and that rebuild performed on the live tables, with that condition for every row |
| Recovery.TouchedRowMissed | indexer/src/reorg.ts:304-318 | any surviving row that the discarded ledgers wrote and the safe ledger did not is left wrong |
| Recovery.ListingRestored | indexer/src/rebuild-projections.ts:603-622 | for a listing the condition reduces to the columns the safe ledger does not rewrite |
| EventStore.EventTable.UpsertEvent | indexer/src/event-idempotency.ts:71-107 | an insert that violates a unique index is a replay and changes nothing |
| EventStore.EventTable.UpsertEvents | indexer/src/event-idempotency.ts:122-147 | the batch returns exactly the events it stored and counts the others |
| EventStore.FreshFits | indexer/src/event-idempotency.ts:122-147 | a batch keeps the table free of conflicts, and each of its events is stored or conflicts with a stored one |
| EventStore.CompleteExactly | indexer/prisma/schema.prisma:291 | a batch written to any table is in it completely if and only if no two different events of table and batch share listing, type and ledger |
| EventStore.BothStoredExactly | indexer/prisma/schema.prisma:291 | two events with different ids are both stored if and only if one has no listing or they differ in listing, type or ledger; otherwise only the first is |
| EventStore.WindowsAsOne | indexer/src/poller.ts:1036-1049 | cutting a stream into windows stores and reduces what the whole stream at once does |
| EventStore.WindowsApplyFirstOccurrences | indexer/src/poller.ts:1036-1049 | overlapping or repeated windows give the log and tables of the first occurrence of each identity, in order |
| Identity.PreimageInjective | indexer/src/parser.ts:32-41 | without colons in contract id and transaction hash the hashed text determines the event |
| Identity.ColonCollides | indexer/src/parser.ts:32-41 | with a colon two different events can share the text |
| Ingestion.FetchStep | indexer/src/poller.ts:744-763 | the fetched window starts after the cursor, ends at its last event or the batch end, and holds exactly the chain's events there |
| Ingestion.SkipStep | indexer/src/poller.ts:722-742 | recording a gap and moving the cursor over it are two steps, and both keep the invariant |
| Ingestion.CommitStep | indexer/src/poller.ts:793-811 | the one transaction of events, cursor and checkpoint keeps the log a copy of the chain |
| Ingestion.CheckpointStep | indexer/src/checkpoint.ts:102-135 | opening, marking and resetting a checkpoint keep the invariant |
| Ingestion.RevertStep | indexer/src/poller.ts:304-311 | deleting events past a safe ledger on the common prefix keeps the log a copy up to it |
| Ingestion.SwitchStep | indexer/src/poller.ts:642-695 | after a chain switch the log and any window in flight are still copies up to the fork |
| Ingestion.PromoteStep | indexer/src/reorg.ts:58-92 | promotion confirms only events at least the confirmation depth below the highest tip |
| Ingestion.EveryStep | indexer/src/poller.ts:597-897 | every step of polling, skipping, crashing, restarting, backfilling, confirming, switching and rolling back keeps the invariant |
| IngestionRuns.LogIsCanonical | indexer/src/poller.ts:642-811 | in every run with no rollback pending, the log holds canonical events only, each once, and all of them up to the cursor outside the gaps if and only if none share a slot |
| IngestionRuns.LogIsChainPrefix | indexer/src/poller.ts:642-811 | without backfills the log after the start ledger and outside the gaps is exactly the chain up to the cursor |
| IngestionRuns.HalfRollback | indexer/src/poller.ts:680-684 | between revert and cursor reset the log answers for the old cursor if and only if the chain has nothing between the safe ledger and it |
| IngestionRuns.CrashInRollback | indexer/src/poller.ts:680-684 | the run with a crash between the two and a switch back to the old chain, and exactly which events it loses |
| IngestionRuns.ConfirmedSurvive | indexer/src/poller.ts:845-852 | in every run a confirmed event lies the confirmation depth below the highest tip, so a rollback no deeper than that deletes provisional events only |
| IngestionRuns.PromotedIsConfirmed | indexer/src/reorg.ts:58-84 | in every run an event that stays in the log is confirmed from a promotion on whose tip is the depth above it |
| IngestionRuns.ConfirmedWasPromoted | indexer/src/reorg.ts:58-84 | and no event is confirmed without such a promotion |
| IngestionRuns.AlwaysTiled | indexer/src/poller.ts:722-830 | without chain switches, in every run with crashes at any step: committed windows are disjoint, no window meets a gap, and every ledger from the start to the cursor is in one or the other |
| IngestionRuns.CommittedLoggedOnce | indexer/src/checkpoint.ts:152-190 | each event of a committed window is at exactly one position of the log |
| Polling.ContractStore.Open | indexer/src/checkpoint.ts:102-118 | a new checkpoint in the fetched state is appended |
| Polling.ContractStore.MarkApplying | indexer/src/checkpoint.ts:128-135 | that checkpoint becomes applying and nothing else changes |
| Polling.ContractStore.Commit | indexer/src/checkpoint.ts:152-190 | new events, cursor and committed checkpoint with the count of inserted events, together |
| Polling.ContractStore.RecordGap | indexer/src/poller.ts:152-164 | recording a known gap changes nothing |
| Polling.ContractStore.RevertLedgers | indexer/src/poller.ts:304-311 | exactly the events and confirmations past the safe ledger go |
| Polling.ContractStore.PromoteConfirmed | indexer/src/reorg.ts:58-114 | afterwards a logged event is confirmed if and only if it was before, the depth is 0, or the tip exceeds the depth and lies at least the depth above it; the number newly confirmed is returned |
| Polling.ContractStore.Recover | indexer/src/poller.ts:604-617 | startup recovery leaves no checkpoint applying, touches no other field and counts the incomplete ones |
| Polling.ContractStore.PollOnce | indexer/src/poller.ts:708-830 | one iteration: the lag branch, the gap skip and the checkpointed window |
| Polling.PollIsPath | indexer/src/poller.ts:722-830 | an iteration is a path of protocol steps back to the top of the loop |
| Polling.LagIsPath | indexer/src/poller.ts:708-720 | so is an iteration that finds the chain shorter than the cursor |
| Polling.PollProgress | indexer/src/poller.ts:744-763 | an iteration with ledgers left to read moves the cursor forward, never past the tip |
| Polling.PollReads | indexer/src/poller.ts:722-830 | an iteration reads the next window of at most the configured size, from the cursor or from where the RPC's reach begins, records what it skips as a gap, and leaves the cursor at the window's latest event or at its end |
| Polling.PollLags | indexer/src/poller.ts:708-720 | on a chain shorter than the cursor it records the lost ledgers as a gap, drops what lies past the tip and goes back to the tip |
| Polling.FindReorgSafePoint | indexer/src/poller.ts:472-492 | the highest accessible ledger below the divergence within the maximum depth, else the floor of the walk |
| Polling.SafePointOnPrefix | indexer/src/poller.ts:472-492 | it lies on the common prefix if and only if every ledger it could reach above the fork is inaccessible |
| FencedLease.OnlyOwnersWrite | indexer/src/fenced-lease.ts:205-271 | in every run in which each token written to the row is above every token another instance holds or is about to receive, a fenced write commits only for the instance whose row is in the table |
| FencedLease.BrokenFenceAdmitsStranger | indexer/src/fenced-lease.ts:205-243 | that guard is exact: whenever a row write breaks it, steps lead to a committed write of another instance |
| FencedLease.ClockFences | indexer/src/fenced-lease.ts:104-172 | the guard holds in every run with a clock that advances between row writes and no renewal landing on a later row than it was computed for, however renewals overlap |
| FencedLease.TimelyOwnersWrite | indexer/src/fenced-lease.ts:104-271 | so in every such run a fenced write commits only for the instance whose row is in the table |
| FencedLease.EveryStep | indexer/src/fenced-lease.ts:104-186 | under those conditions each separate database and local step keeps every other instance's tokens below the token the present row was created with |
| FencedLease.TokensNeverDecrease | indexer/src/fenced-lease.ts:145-172 | if also the row's owner starts a renewal only when no answer under way carries a token as old as the one it holds, the tokens of committed writes never decrease and equal the row's token |
| FencedLease.BehindGoesBack | indexer/src/fenced-lease.ts:275-280 | that condition is needed: whenever the owner breaks it, timely steps lead to a write with a smaller token |
| FencedLease.LeftoverTakesBack | indexer/src/fenced-lease.ts:175-186 | so is the tenure condition: once a renewal from before the present row lands, the owner's next write has a smaller token |
| FencedLease.StaleReadingAdmitsStranger | indexer/src/fenced-lease.ts:104-121 | a run in which an old clock reading lets another instance write |
| FencedLease.LeftoverGoesBack | indexer/src/fenced-lease.ts:175-186 | a timely run in which the one renewal of a released lease lands on the next row and committed tokens decrease |
| FencedLease.LeftoverAdmitsStranger | indexer/src/fenced-lease.ts:175-186 | a timely run in which it lets an instance that held the role in between write past the row |
| FencedLease.OverlapGoesBack | indexer/src/fenced-lease.ts:145-172 | a timely run in which overlapping renewals make committed tokens decrease |
| FencedLease.LeaseClient.AcquireLease | indexer/src/fenced-lease.ts:104-139 | creates the row and the local lease, or leaves both alone when the role is held |
| FencedLease.LeaseClient.RenewLease | indexer/src/fenced-lease.ts:145-172 | succeeds exactly for the row's owner and moves both tokens by one; otherwise the local lease is dropped |
| FencedLease.LeaseClient.ReleaseLease | indexer/src/fenced-lease.ts:175-186 | drops the local lease and deletes the row only if it is ours |
| FencedLease.LeaseClient.AssertCurrentToken | indexer/src/fenced-lease.ts:205-243 | passes exactly when there is a local lease and the row's token is not ahead of it |
| Ordering.DecodesPackedId | indexer/src/event-sync.ts:67-83 | decoding an id packed as ledger, 20-bit transaction order and 12-bit operation, with any zero padding, recovers transaction and event index |
| Ordering.KeyFromIdExactly | indexer/src/event-sync.ts:67-83 | the key is independent of the page position if and only if the id carries both indices |
| Ordering.UnreadableFirst | indexer/src/event-sync.ts:67-83 | an event without a readable id comes before those of its ledger that have one, and in page order among its like |
| Ordering.SortSorts | indexer/src/event-sync.ts:106-117 | sorting gives a permutation in ascending order of ledger, transaction index and event index |
| Ordering.SortStable | indexer/src/event-sync.ts:106-117 | events with equal keys keep their order of arrival |
| Ordering.SortIgnoresArrival | indexer/src/event-sync.ts:106-117 | distinct keys sort to the same sequence for every permutation of the input |
| EventSync.DecodePage | indexer/src/event-sync.ts:259-327 | the decodable events of a page, in order, independent of their page positions when ids carry the key |
| EventSync.CollectWindow | indexer/src/event-sync.ts:208-346 | the page loop ends for any finite token set; for a faithful server it collects the scan of the window, and one that makes progress is never reported as repeating |
| EventSync.CollectMarketplaceEvents | indexer/src/event-sync.ts:190-351 | the result holds one event for each RPC event of the range that has topics and parses, with its fields, in ascending order of ledger, transaction and event index, whatever the pages and windows; the page size changes only on the rate limit that ends the call |
| EventSync.RangeCut | indexer/src/event-sync.ts:208-209 | cutting a range at a ledger cuts the scan of it there |
| EventSync.SortedScan | indexer/src/event-sync.ts:349-350 | the delivered events are an ordered permutation of the scan, and the scan itself if that is in order |
| Decimals.IntegersPrint | indexer/src/token-metadata.ts:328-351 | every integer amount is printed, and what follows a point in the raw text is not looked at |
| Decimals.ColumnPrintsExactly | indexer/src/token-metadata.ts:328-351 | a column that denotes an integer, with any fraction and exponent, is printed as the amount it denotes if and only if its text has no exponent |
| Decimals.SuffixIgnored | indexer/src/chain-state.ts:122-134 | the seven-zero suffix of a stored amount does not change its text |
| Decimals.PrintReadsBack | indexer/src/token-metadata.ts:328-351 | reading the text back recovers the amount, for every amount and number of decimals |
| Decimals.PrintCanonical | indexer/src/token-metadata.ts:328-351 | no trailing fraction zeros, no leading zeros, no negative zero |
| Decimals.PrintInjective | indexer/src/token-metadata.ts:328-351 | different amounts print differently |
| IpfsQueue.BoundedQueue.FindLowestPriorityIndex | indexer/src/ipfs-backpressure.ts:184-195 | the first entry of the lowest tier present, -1 only for an empty queue |
| IpfsQueue.BoundedQueue.Enqueue | indexer/src/ipfs-backpressure.ts:119-182 | exactly when a job is ignored, dropped or accepted; the cap, distinctness and disjointness hold; an eviction takes the first of the lowest tier; accepted = queued + drained + evicted |
| IpfsQueue.BoundedQueue.StartDrain | indexer/src/ipfs-backpressure.ts:208-222 | the batch and the rest of the queue are the tiers one after the other, each in order of arrival |
| IpfsQueue.BoundedQueue.Finish | indexer/src/ipfs-backpressure.ts:259-261 | the queue invariant is kept, and a finished job is neither in flight nor queued, so it may be enqueued again |
| IpfsQueue.FirstIsOldest | indexer/src/ipfs-backpressure.ts:184-195 | the evicted entry is the oldest of its tier |
| IpfsQueue.SortListsTiers | indexer/src/ipfs-backpressure.ts:212-215 | the drain order is tier by tier, first-in-first-out within a tier |
| IpfsQueue.HighEvictedExactly | indexer/src/ipfs-backpressure.ts:139-155 | a high-priority entry is evicted exactly when the queue holds only high-priority entries |
| Verifier.CompareWindow | indexer/src/event-verifier.ts:243-334 | a window's lists hold each omitted and each duplicated hash once and each orphaned row |
| Verifier.Report.VerifyWindow | indexer/src/event-verifier.ts:209-334 | a failed fetch is recorded and adds no finding; otherwise the window's findings are appended |
| Verifier.Report.Run | indexer/src/event-verifier.ts:171-205 | a run stopped after any number of windows finds what is to be found from its start to its cursor outside the windows whose fetch failed, and those are exactly the ranges it lists as unverified, whatever the window size |
| Verifier.UnverifiedExactly | indexer/src/event-verifier.ts:171-240 | its findings are those of all ledgers if and only if there is nothing to be found in the unverified ranges |
| Verifier.FindingsAdd | indexer/src/event-verifier.ts:174-205 | when a hash determines its ledger, findings of adjacent ranges add up to those of their union |
| Verifier.ResumedRun | indexer/src/event-verifier.ts:171-205 | stopping at a cursor and resuming after it finds what one run finds |
| Verifier.CleanExactly | indexer/src/event-verifier.ts:302-333 | no omissions and no orphans if and only if the hash sets agree |
| Retry.CalculateRetryAttempts | indexer/src/timeout.ts:355-377 | the largest allowed number of attempts whose unjittered delays fit the remaining time |
| Retry.DelayExactly | indexer/src/retry.ts:315-328 | a delay is the base delay times two to the retry number, at most twenty, lengthened by the jitter and cut at the maximum: never less than without jitter |
| Retry.JitterBound | indexer/src/retry.ts:315-328 | a jittered, capped delay exceeds its estimate by at most the jitter factor |
| Retry.RetryLoop | indexer/src/retry.ts:375-423 | the first attempt that is not a retryable failure decides, else all attempts are used up; between them it sleeps at least the backoffs, exactly those without jitter, and at most the jittered bound |
| Retry.WithExponentialBackoff | indexer/src/retry.ts:337-433 | with a budget, total sleep is at least the backoffs between the attempts made and at most (1 + jitter factor) times what is left of the budget when the call starts |
| CircuitBreaker.ClosedExactly | indexer/src/retry.ts:231-296 | after any trace the breaker is closed if and only if the failures since the last success are fewer than the threshold |
| CircuitBreaker.ThresholdMatters | indexer/src/retry.ts:231-247 | that holds for all traces exactly when the threshold is positive |
| CircuitBreaker.OpenExactly | indexer/src/retry.ts:231-296 | after any trace with enough failures the breaker is open if and only if nobody asked after the reset timeout since the last call that opened it, which reached the threshold or failed after such a question; otherwise it is half-open |
| CircuitBreaker.AdmittedAfterTimeout | indexer/src/retry.ts:353-359 | a breaker that is not closed admits a call if and only if the reset timeout has passed since it last opened |
| CircuitBreaker.CircuitBreaker.GetState | indexer/src/retry.ts:248-256 | asking moves an open breaker to half-open once the timeout has passed |
| CircuitBreaker.CircuitBreaker.RecordSuccess | indexer/src/retry.ts:259-265 | a success resets the breaker |
| CircuitBreaker.CircuitBreaker.RecordFailure | indexer/src/retry.ts:268-279 | a failure opens it at the threshold or from half-open |
| Backfill.BuildBatches | indexer/src/backfill.ts:415-419 | consecutive non-empty batches from the resume point to the end, all but the last of the full size |
| Backfill.PartitionExact | indexer/src/backfill.ts:415-419 | every ledger of the range is in exactly one batch |
| Backfill.BackfillRun.ProcessBatch | indexer/src/backfill.ts:264-303 | one transaction inserts what is new, returns its number, and leaves a ledger of the batch as the job's checkpoint |
| Backfill.CheckpointExactly | indexer/src/backfill.ts:269-285 | that ledger is the one of the batch's latest event, or the end of the batch when it has none |
| Backfill.BackfillRun.ProcessWindow | indexer/src/backfill.ts:424-474 | concurrent batches committing in any order add exactly what is due from those that succeed |
| Backfill.BackfillRun.RunBackfill | indexer/src/backfill.ts:415-486 | the running total grows by exactly the new rows and the stored one never exceeds it; the job row holds the checkpoint of the batch that committed last; if no batch fails the log is that of one write of the remaining range, whatever the batch size, concurrency and commit order |
| Backfill.BackfillComplete | indexer/src/backfill.ts:264-303 | then no row is there twice, every event of the range is stored or conflicts with a stored one, and all are stored if and only if none shares listing, type and ledger with another or with an earlier row |
| BackfillResume.ResumeProgress | indexer/src/backfill.ts:383-419 | reading the range again from any ledger adds exactly the rows due from it that are not there yet |
| BackfillResume.ResumedExactly | indexer/src/backfill.ts:279-383 | a resume from the checkpoint ends in the log of one write of the whole range if and only if the failed batches before the one that committed last held nothing new |
| BackfillResume.CompletedExactly | indexer/src/backfill.ts:476-494 | a completed run does so if and only if no failed batch held anything new |
| BackfillResume.FailedBatchLost | indexer/src/backfill.ts:476-484 | a family of runs in which the promised retry does not happen: every event is in a failed batch and the resume starts past it |
| BackfillResume.RunJob | indexer/src/backfill.ts:332-545 | only a pending or failed job runs; an exception leaves it failed with the checkpoint of the last commit, otherwise it is completed at the end ledger |
| BackfillResume.RunThenResume | indexer/src/backfill.ts:306-494 | a run with any failed batches and any commit order, then a resume: the log is whole exactly under those conditions, and the job's total is never too high and exact unless the run threw |
| GapRepair.ClaimedOnce | indexer/src/gap-repair.ts:85-102 | in every interleaving each gap is claimed at most once over the whole run |
| GapRepair.OneHolder | indexer/src/gap-repair.ts:85-102 | no two workers hold the same gap |
| GapRepair.ClaimsBounded | indexer/src/gap-repair.ts:206-246 | while no gap is recorded, all workers together claim exactly as many gaps as cease to be open |
| GapRepair.CycleEnds | indexer/src/gap-repair.ts:206-246 | in every interleaving without new gaps a worker's cycle asks for an open gap at most once more than there were open gaps |
| GapRepair.CycleGoesOn | indexer/src/gap-repair.ts:222-233 | a cycle that has not ended can always take its next step |
| GapRepair.GapTable.PersistLedgerGap | indexer/src/poller.ts:152-164 | existing rows keep their place and status, ranges stay unique, and one open row is added exactly for a range not recorded before |
| GapRepair.GapTable.FindOpenGap | indexer/src/gap-repair.ts:87-91 | the oldest open gap, none only when none is open |
| GapRepair.GapTable.ClaimNextOpenGap | indexer/src/gap-repair.ts:85-102 | claims the oldest open gap unless another worker claims it between the two statements; none when none was open or the race was lost |
| GapRepair.GapTable.RunRepairCycle | indexer/src/gap-repair.ts:206-246 | whatever other workers claim during its turns, a cycle ends, having repaired gaps that were open, each once and oldest first; with no other worker it handles every open gap and touches no other row |

## Left out

- RPC, database, Redis, HTTP, metrics and logging calls: only transaction atomicity, unique indexes and compare-and-set are kept, as table semantics.
- On-chain enrichment in the CREATED handlers, royalty recipients and token metadata snapshots: outside reads; event data is the only input.
- PriceHistory, Bid, ProtocolFee, RoyaltyPayment and Collection rows: append-only or plain upserts.
- Pending offers: an offer without its listing is staged by the model, but its promotion is done by a database trigger that is not part of this model.
- Token whitelist and artist revocation events: they carry no listing id and are ignored before they are reduced.
- Hash comparison: a rollback may happen at any idle moment of the protocol, to any ledger at or below the fork, instead of being triggered by a stored ledger hash; the halt on deep re-organisations is not modelled.
- Ingestion.FetchStep: the fetch of a window is one step, so a chain that switches in the middle of a fetch is not modelled.
- Ingestion.SkipStep: recording a gap always succeeds, while the code swallows a failure to record it.
- IngestionRuns.LogIsCanonical: one tracked contract; the code's revert deletes the events of all contracts and resets one cursor.
- Polling.ContractStore.Commit: the shared cursor and the ledger hash of the checkpoint are not modelled.
- Polling.ContractStore.RecordGap: the source column of a gap is not part of its key here.
- Polling.ContractStore.PollOnce: the hash continuity check at the top of the iteration is not part of it.
- Ingestion.EveryStep: comparing hashes and halting are not steps, see hash comparison above.
- SyncState, the shared cursor, and the cursor interaction of backfills.
- Marketplace.Projections.ProcessOfferMade: the staged row of an offer without its listing is not modelled, see pending offers above.
- Rebuild.RunRebuild: the range covers the whole log, and the job's status column is not modelled, so a job that crashed while Running is resumed although the code refuses that.
- Rollback.RolledBackListing: listings only, and a rebuild an operator would start; the one the code starts is Recovery.RangeRebuildExactly, for all three tables.
- Recovery.RecoverFromReorg: the rebuild runs before the poller has read anything past the safe ledger again.
- FencedLease.OnlyOwnersWrite: an instance has one acquisition under way at a time, and the check and the write of a fenced transaction are one step.
- FencedLease.LeaseClient.ReleaseLease: the row is deleted at once, while the code deletes it in the background; the protocol's steps cover the delay.
- Ordering.DecodesPackedId: indices are unbounded integers, so loss of precision beyond 2^53 is not modelled.
- Decimals.IntegersPrint: digit strings only; the other texts that BigInt accepts, such as hexadecimal, are an error here.
- Verifier.Report.Run: recorded gaps of the database are not listed as discontinuities.
- Retry.RetryLoop: timeouts, abort signals and the breaker's calls are not modelled.
- Retry.WithExponentialBackoff: delays are real numbers; timeouts, abort signals and the breaker's part in the loop are not modelled.
- Backfill.BackfillRun.ProcessBatch: the projection tables and the shared cursor of the transaction are not modelled.
- BackfillResume.RunJob: the advisory lock and the choice of the range for a new job are not modelled; batches a run never came to count as failed.
- GapRepair.GapTable.RunRepairCycle: the repair itself is an outcome given from outside, and what other workers do is a set of claims per turn.
- Recovery state machine, stall detection, contract registry, snapshots, provider pool, reconcilers, statistics, archive, redaction, configuration and the frontend: one-branch facts, SQL aggregation or I/O.
