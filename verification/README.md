# Verified model of the change-feed pipeline

Archive observations become rows of `archive_events`, every semantic change of a row
takes the next `change_sequence`, and processors page through the changes and hand
each one to a handler together with their committed offset. This project models that
pipeline in Dafny and proves what it is for: no change is lost, no change is processed
twice or out of order, and the table keeps its rules whatever order transactions,
retries and failures come in. Four self-contained parts of the repository are modelled
beside it: the registry of staking ledger services, the merging of signature packages
and the review of participant rotations, the join options of the CRUD server, and the
integer thresholds and amount formats.

`dafny verify dfyconfig.toml` checks the whole project.

How the modules build on each other:

- `Texts`, `Json`, `JsonText`: UTF-16 strings, decimal numerals, JSON values, `stableJson`.
- `Rows`: one row, the ON CONFLICT rule as a function of old and incoming row, the
  trigger condition. `Validation`: what is accepted from an archive entry.
- `BlockOrder`, `Batches`, `BatchBuilder`, `ArrivalOrder`: `buildBatch` as a function,
  its loops proved against that function, and independence of arrival order.
- `Transactions`, `Preparation`, `Accounting`: the writing transactions as functions on
  table content, and where every observation ends.
- `Provenance`: which entries of a response are accepted and what their rows report.
- `Lifecycle`, `Ingestions`, `Snapshots`, `Reingestion`, `Observations`, `RangeSplit`,
  `ResponseSplit`: theorems about those transactions and their runs.
- `EventStore`: the table as an object; its methods draw sequence values statement by
  statement, in any row order, and commit or roll back.
- `ChangeFeed`, `Progress`, `EventsProcessor`, `SupersedeScan`, `Router`, `Consumer`, `WorkerTurn`,
  `ProcessOnce`:
  pages, one worker's transactions and retry loop, and the state machine of all writers
  and workers together. `Consumer` holds the main theorems.
- `Coverage`: the canonical range loop of several indexers.
- `ServiceRegistry`, `StartupOutcomes`, `LifecycleRegistry`: the registry as a state machine
  whose steps run between two awaits, what becomes of a startup, and the object.
- `SignatureMerge`, `ParticipantRotation`, `JoinPaths`, `Thresholds`, `Nanomina`.

Where code and documentation disagree the model follows the code. The processor's
README (packages/processor/README.md:31-50) says the search for a successor of a blocked
event looks at one page; the code (packages/processor/src/events-processor.ts:588-609)
pages until the feed is exhausted, and `SupersedeScan` proves that version.

Three properties of the source have an exact condition, proved for all inputs.

- Closing exactly once: a service is closed a second time exactly if the close of a late
  service, one that started while close() was under way, fails
  (`ServiceRegistry.ClosedTwiceExactlyWhenRepeated`, with a run in `LateCloseMayRepeat`).
- Order-free merging: packages that merge at all give one result in every order exactly if
  they are even, that is, have equally long lists and no slot that is empty text in one and
  signed in another (`SignatureMerge.OrderMattersExactlyWhenUneven`, with two packages in
  `EmptySignatureBreaksOrder`). assertOperationPackage refuses empty signatures and other
  lengths than five, so packages that passed it are even.
- The thresholds throw exactly for a zero balance and for two negative ratios
  (`Thresholds.ThrowsExactlyAt`).

updated_at leaves out account_update_id (`Rows.TouchSeesAllButAccountUpdateId`); on every row
that batch validation lets through the payload implies that column, and the date rule is
exact (`Rows.TouchIsExact`). A handler registered for the type "unknown" is never offered an
event of that type (`Router.UnknownIsNeverOffered`).

## Model

| member | source | states |
|---|---|---|
| `Consumer.NoLostChange` | packages/processor/src/events-processor.ts:637-808 | No lost change: at every moment of every interleaving of indexer transactions with any number of same-named workers, each current row of a handled type whose change sequence the committed offset has reached was dispatched or quarantined in exactly that version |
| `Consumer.CaughtUpMeansSettled` | packages/processor/src/events-processor.ts:637-670 | Once the offset has reached every handled change sequence, every handled row has been dispatched or quarantined in its current version |
| `Consumer.AtMostOnceInOrder` | packages/processor/src/events-processor.ts:698-781 | Over all workers, retries and stale pages, committed dispatches have strictly increasing change sequences, each is committed together with the offset it sets, and the offset never decreases |
| `Consumer.QuarantineIsFinal` | packages/processor/src/events-processor.ts:825-851 | After a version is quarantined everything dispatched later has a larger change sequence, and the offset stays beyond it |
| `Consumer.OnlyStoredVersionsAreSettled` | packages/processor/src/events-processor.ts:646-663 | Nothing is made up: a version that is held, dispatched or quarantined stood in the committed table under a handled type at some earlier moment |
| `Consumer.StepKeepsInv` | packages/processor/src/events-processor.ts:672-808 | Every step of a writer or worker, including a lost commit reply, keeps the invariant that page, table, offset and history fit together |
| `Consumer.PageFitsRewritten` | packages/processor/src/events-processor.ts:646-651 | A page fetched earlier stays complete between the offset and each of its items while the table is rewritten under it |
| `Consumer.NothingLostByAdvance` | packages/processor/src/events-processor.ts:739-747 | Moving the offset to the next page item loses no current row, because that item is the next one in its exact version |
| `Progress.AttemptKeepsOrder` | packages/processor/src/events-processor.ts:698-782 | The processing transaction: skipped exactly behind the offset, a dispatch lies beyond the old offset and sets it, a failure leaves nothing |
| `Progress.RecordKeepsOrder` | packages/processor/src/events-processor.ts:825-882 | recordEventFailure: a refusal quarantines and never lowers the offset; a thrown error moves neither offset nor history |
| `Progress.UnblockKeepsOrder` | packages/processor/src/events-processor.ts:612-635 | Superseding or retrying a blocked failure changes no offset and no history |
| `Progress.NothingLeftBehind` | packages/processor/src/events-processor.ts:752-779 | After a success no failure row of the event is retrying or quarantined under another change sequence: each that was is superseded with count and snapshot kept, the row read for this version is resolved, all others stay |
| `Progress.VerdictIsExact` | packages/processor/src/events-processor.ts:703-750 | Offset and answer alone decide the verdict; a skip supersedes the row of this version unless it was quarantined, and a failure changes nothing |
| `Progress.RecordIsExact` | packages/processor/src/events-processor.ts:825-872 | A recorded failure writes the row of this version and no other, and a refusal leaves the offset at least at the event |
| `Progress.UnblockIsExact` | packages/processor/src/events-processor.ts:612-635 | Superseding ends a blocked row, and no other, superseded with count and snapshot kept |
| `EventsProcessor.Processor.ProcessEvent` | packages/processor/src/events-processor.ts:698-782 | The transaction on the offset and failure rows computes Attempt; after a success every other retrying or quarantined row of the event is superseded and the row read for it resolved |
| `EventsProcessor.Processor.RecordEventFailure` | packages/processor/src/events-processor.ts:810-882 | The failure transaction computes Record and returns the saved row |
| `EventsProcessor.Processor.ProcessEventWithRetries` | packages/processor/src/events-processor.ts:672-808 | The retry loop computes Handle, the recursive retry rule |
| `EventsProcessor.Processor.ProcessPage` | packages/processor/src/events-processor.ts:653-663 | The page loop counts exactly the dispatches, leaves every item behind the offset, or stops at a blocked item beyond which nothing was settled |
| `ProcessOnce.ProcessOnceFromIndexerApi` | packages/processor/src/events-processor.ts:637-670 | A pass over a feed that stands still fetches nothing exactly when no handled row waits beyond the offset; if it is not blocked it settles, in order, the waiting rows, all or the first that fill a page, and leaves the offset at the last of them |
| `ProcessOnce.NextRowIsServed` | packages/processor/src/events-processor.ts:637-651 | A worker asks beyond the offset, so its page begins with the next row that waits |
| `EventsProcessor.HandleDecides` | packages/processor/src/events-processor.ts:672-808 | A processed event is dispatched once and becomes the offset, a skipped one is behind the offset, a blocked one has changed failure rows only |
| `EventsProcessor.FirstAnswerDecides` | packages/processor/src/events-processor.ts:696-788 | The first answer that is no thrown error decides within the attempts of a pass; a refusal is quarantined with the exact attempt count |
| `EventsProcessor.ErrorsBlock` | packages/processor/src/events-processor.ts:696-808 | With thrown errors only the pass ends blocked after exactly the attempts it has left, and the attempt count carries over |
| `EventsProcessor.PassCountsOn` | packages/processor/src/events-processor.ts:672-808 | A whole pass over an event that is not blocked: its first answer decides, and attempts count on from a row that was still retrying |
| `EventsProcessor.BlockedEventWaits` | packages/processor/src/events-processor.ts:672-690 | A blocked event ends the pass and changes nothing |
| `WorkerTurn.LostReplyCountsAsError` | packages/processor/src/events-processor.ts:783-806 | A worker that misses the reply of a commit records one more attempt, and the transaction stands |
| `WorkerTurn.LimitEndsThePass` | packages/processor/src/events-processor.ts:783-806 | A thrown error is tried again only below the attempt limit of the pass; a refusal goes on with the next event |
| `WorkerTurn.UndisturbedWorkerHandles` | packages/processor/src/events-processor.ts:672-808 | A worker of the state machine that nobody disturbs does to offset, failure rows and history exactly what processEventWithRetries does |
| `SupersedeScan.FindSuccessor` | packages/processor/src/events-processor.ts:588-609 | The paged scan over a fixed feed terminates for every page size and finds a successor exactly when a handled immutable successor lies beyond the offset |
| `SupersedeScan.TrySupersedeBlockedFailure` | packages/processor/src/events-processor.ts:576-635 | A failure that is still blocked is superseded exactly when the offset covers it or a handled successor exists beyond the offset; nothing else changes |
| `SupersedeScan.SuccessorIsExact` | packages/processor/src/events-processor.ts:143-165 | isImmutableSuccessor holds exactly for a later version of the same event with the same type and, up to key order, the same contract data |
| `SupersedeScan.SuccessorFitsTheFailure` | packages/processor/src/events-processor.ts:143-165 | The same for any failure row, whatever its snapshot remembers |
| `SupersedeScan.RewrittenRowIsSuccessor` | packages/processor/src/events-processor.ts:143-165 | Whatever a stored row later becomes is an immutable successor of the version that failed |
| `ChangeFeed.GetEventsPage` | packages/indexer/src/events-repository.ts:295-347 | A page holds the handled rows after the cursor in change sequence order, and everything it leaves out comes after a full page |
| `ChangeFeed.PageIsDetermined` | packages/indexer/src/events-repository.ts:340-346 | A page query has exactly one answer |
| `ChangeFeed.ValidateResponse` | packages/processor/src/indexer-events-api-client.ts:276-320 | A response is accepted, unchanged, exactly when its items are valid, strictly increasing beyond the cursor, and nextCursor is the last sequence or null for an empty page |
| `ChangeFeed.PagesMeetContract` | packages/indexer/src/events-api-server.ts:314-357 | Every page the route serves passes the client's response contract |
| `Router.EventProcessorRouter.Create` | packages/processor/src/router.ts:13-22 | The constructor throws exactly on a duplicate event type |
| `Router.EventProcessorRouter.Dispatch` | packages/processor/src/router.ts:28-53 | dispatch ends at handler h exactly if h is offered the event and accepts it and every handler offered before h refuses |
| `Router.DispatchEndsAt` | packages/processor/src/router.ts:28-53 | The handler of the event type comes first, unless the type is empty or unknown, then all others in registration order; the first that does not refuse decides |
| `Router.OffersAreExact` | packages/processor/src/router.ts:32-50 | Every handler is offered every event, except that a handler registered for the empty or unknown type is never offered an event of that type |
| `Router.DecideIsFirst` | packages/processor/src/router.ts:39-51 | Handled or thrown exactly when an offered handler accepts or throws after all earlier ones refused |
| `Router.AcceptedIsHandled` | packages/processor/src/router.ts:28-53 | Without thrown errors an event is handled exactly when some handler accepts it, other than one registered for its own untyped event type |
| `Router.UnknownIsNeverOffered` | packages/processor/src/router.ts:32-46 | A registry with only a handler for the unknown type handles no event of that type, whatever the handler would answer |
| `EventStore.Store.Ingest` | packages/indexer/src/events-repository.ts:200-293 | The ingestion transaction: rows and result as specified, changed rows and only those renumbered, cursor GREATEST; success means no canonical row beyond the anchor is off the selected chain; an abort leaves rows and cursors and loses only drawn numbers |
| `EventStore.Store.Insert` | packages/indexer/src/events-repository.ts:182-197 | The insertion without cursor: rows and result as specified, changed rows and only those renumbered |
| `EventStore.Store.MarkPendingAsOrphaned` | packages/indexer/src/events-repository.ts:349-373 | The orphan sweep turns exactly the pending rows first seen at least the depth below the cursor orphaned, renumbers them, and counts them |
| `EventStore.Store.SetCursor` | packages/indexer/src/events-repository.ts:383-393 | The cursor becomes the greater of stored and given height, and no other cursor changes |
| `EventStore.Store.OrphanRows` | packages/indexer/src/events-repository.ts:255-265 | One orphaning statement, in any row order, changes exactly the chosen rows and numbers each once |
| `EventStore.Store.UpsertAccepted` | packages/indexer/src/events-repository.ts:747-857 | One upsert statement writes the specified content and numbers exactly the rows it changes |
| `EventStore.Store.UpdateRow` | apps/api/src/db/migrations/1788451200000-proposal-contract-projection.ts:40-66 | The row trigger gives a row a fresh number exactly when a tracked column changes |
| `EventStore.StampedCompose` | apps/api/src/db/migrations/1788451200000-proposal-contract-projection.ts:40-66 | Statements of one transaction compose: a row has a new number at the end exactly when it changed, if no row changes and changes back |
| `EventStore.PlanCommits` | packages/indexer/src/events-repository.ts:255-286 | Orphaning followed by the upsert is the specified transaction, and numbers exactly the changed rows |
| `EventStore.Advanced` | packages/indexer/src/events-repository.ts:521-546 | A cursor only grows, to the stored or the given height, and other cursors stay |
| `Lifecycle.RunKeepsLifecycle` | packages/indexer/src/events-repository.ts:182-373 | Over every run of transactions on archive responses the table stays valid (pending rows have a first-seen height), no row disappears, event type and contract data never change, canonical stays canonical |
| `Lifecycle.CanonicalRowsAnswerToCanonical` | packages/indexer/src/events-repository.ts:747-857 | A canonical row keeps every column until a transaction observes it as canonical again |
| `Lifecycle.ApplyAt` | packages/indexer/src/events-repository.ts:236-292 | A whole transaction, one identity at a time: the orphaned or untouched row merged with what the batch says of it |
| `Lifecycle.AcceptedRowsPassTheGuard` | packages/indexer/src/events-repository.ts:848-849 | The WHERE clause of the upsert never turns away a row that prepareBatch accepted |
| `Observations.RowShowsLastObservation` | packages/indexer/src/events-repository.ts:747-857 | Over every run a row shows, in every column, the last observation that decided it: one that was canonical, or that met a row not yet canonical; since then it was orphaned at most |
| `Observations.PendingRowKeepsItsFirstHeight` | packages/indexer/src/events-repository.ts:789-802 | Over every run a pending row was first seen at the height of the observation that last turned it pending |
| `Observations.TransactionEvolves` | packages/indexer/src/events-repository.ts:747-857 | What one transaction makes of a row, from the row before and the observation alone |
| `Ingestions.IngestionGoesThroughExactly` | packages/indexer/src/events-repository.ts:211-270 | An ingestion succeeds exactly if its arguments fit, every canonical row at or above the anchor with a state hash is on the selected chain, a replacing snapshot has no rejection and the numbers fit; it fails for the ancestry exactly if such a row is off the chain |
| `Ingestions.RetiresExactly` | packages/indexer/src/events-repository.ts:255-280 | A pending row turns orphaned exactly if it is not observed and the batch turns some row canonical or is a clean pending snapshot that covers its height |
| `Ingestions.EveryRowIsJudged` | packages/indexer/src/events-repository.ts:633-706 | Every row of a batch: the first of its event is accepted, or rejected as a conflict exactly if it contradicts the stored type or contract data; a later one is dropped if it agrees with the first and rejected if not |
| `Ingestions.RangeRejectsOutside` | packages/indexer/src/events-repository.ts:708-745 | A row outside the complete range is rejected for that reason, with its height and place |
| `Ingestions.RangeKeepsItsHeights` | packages/indexer/src/events-repository.ts:708-745 | A complete range keeps exactly the accepted rows of its heights |
| `Snapshots.PendingRowsAreTheSnapshot` | packages/indexer/src/events-repository.ts:229-292 | After a replacing pending ingestion a row is pending exactly when the snapshot shows it and it was not already canonical |
| `Snapshots.RejectedSnapshotChangesNothing` | packages/indexer/src/events-repository.ts:266-270 | A replacing snapshot with any rejection fails and changes no row |
| `Snapshots.RetiresTheRest` | packages/indexer/src/events-repository.ts:548-575 | The rows a replacing snapshot orphans are exactly the pending ones it does not show |
| `Reingestion.DatedExactlyWhenChanged` | packages/indexer/src/events-repository.ts:255-289 | A transaction sets updated_at of exactly the rows it inserts or changes |
| `Reingestion.ReingestTouchesNothing` | packages/indexer/src/events-repository.ts:200-293 | Ingesting a batch again dates no row and changes no row |
| `RangeSplit.CanonicalRangeSplits` | packages/indexer/src/events-repository.ts:231-292 | A complete canonical range goes through as a whole exactly when its two parts go through in order, with the same rows in every column |
| `RangeSplit.StepsCompose` | packages/indexer/src/events-repository.ts:255-265 | Two promotions with separate rows, each orphaning all pending rows, equal one promotion with all of them |
| `RangeSplit.PromotionForgetsPending` | packages/indexer/src/events-repository.ts:789-802 | Promotion gives the same columns whether or not the pending row was orphaned first |
| `ResponseSplit.CanonicalResponseSplits` | packages/indexer/src/events-repository.ts:200-293 | The same from archive responses: cut between two blocks, with no account update and no identity in both parts, one ingestion and two leave the same table |
| `ResponseSplit.BuildBatchSplits` | packages/indexer/src/events-repository.ts:890-1066 | Normalising a response cut between blocks gives the accepted rows of the first part followed by those of the second |
| `ResponseSplit.AssignedConcat` | packages/indexer/src/events-repository.ts:1131-1182 | Block order of separate blocks does not depend on what else is in the response |
| `BatchBuilder.Build` | packages/indexer/src/events-repository.ts:890-1066 | buildBatch with its maps, counters and in-place ordering computes BuildBatch |
| `BatchBuilder.Builder.ReserveEventIndex` | packages/indexer/src/events-repository.ts:1184-1204 | A sibling index is the number reserved so far under the key, reserved whether or not the entry turns out valid |
| `Preparation.PrepareBatch` | packages/indexer/src/events-repository.ts:633-706 | prepareBatch with its map of identity texts computes Prepare |
| `Preparation.DedupeRows` | packages/indexer/src/events-repository.ts:637-660 | The map of identity texts keeps the first row of every identity |
| `Batches.BuildBatchIsValid` | packages/indexer/src/events-repository.ts:890-1066 | Every accepted row has the status of the batch, a height, no NULL stand-in as a value, an account update id that its payload implies, and a canonical payload |
| `Provenance.AcceptedExactlyWhenGood` | packages/indexer/src/events-repository.ts:958-1035 | An entry is accepted exactly if block and entry fields are good, its account update is listed and an event type is picked; its row reports those fields column by column |
| `Provenance.BatchReportsTheResponse` | packages/indexer/src/events-repository.ts:890-1066 | Every accepted row of a batch reports the entry at its place of the response |
| `Provenance.GoodEntryIsAccepted` | packages/indexer/src/events-repository.ts:958-1066 | A good entry is accepted unless only some entries of its block carry sequence numbers |
| `Provenance.FirstFaultIsTheReason` | packages/indexer/src/events-repository.ts:964-1035 | A rejected entry carries the code of the first thing at fault, in the order height, block fields, shape, resolution |
| `Provenance.RejectionsTell` | packages/indexer/src/events-repository.ts:900-1066 | Every rejection of a batch tells status, height and provisional place of its observation |
| `Provenance.EveryEntryIsObserved` | packages/indexer/src/events-repository.ts:900-942 | Every entry of every event list is looked at, in the order of the response |
| `Provenance.ObservedEntryIsListed` | packages/indexer/src/events-repository.ts:900-942 | What is looked at as an entry stands in the list of some output |
| `Provenance.BatchOrdersItsBlocks` | packages/indexer/src/events-repository.ts:1131-1182 | Two accepted rows of one block carry sequence numbers both or neither; if they do, their indexes stand in the order of sequence number, account update index, event index, hash and arrival |
| `Provenance.UnsequencedRowsKeepTheirPlace` | packages/indexer/src/events-repository.ts:945-957 | Without sequence numbers a row keeps its place among all entries of its block, valid or not |
| `Accounting.EveryObservationEndsOnce` | packages/indexer/src/events-repository.ts:633-745 | Through all three filters every reported event ends as exactly one accepted row, one rejection or one dropped exact duplicate |
| `Accounting.EventIndexCountsSiblings` | packages/indexer/src/events-repository.ts:1184-1204 | The event index of an accepted row is the number of earlier entries of the same account update, valid or not |
| `BlockOrder.AssignBlockEventIndexes` | packages/indexer/src/events-repository.ts:1131-1182 | The in-place pass numbers every fully sequenced block in the order of sequence number, account update index, event index, hash and arrival, leaves unsequenced blocks alone, and reports exactly the rows of mixed blocks |
| `BlockOrder.RanksNumberTheBlock` | packages/indexer/src/events-repository.ts:1160-1180 | The indexes of a block are 0 to n-1, each once, in order of sequence number, account update index, event index and hash |
| `BlockOrder.BlockIsNumberedInOrder` | packages/indexer/src/events-repository.ts:1160-1180 | In a block whose rows all carry a sequence number the indexes are below its size, distinct, and in that order; nothing else of a row changes |
| `BlockOrder.OtherBlocksStay` | packages/indexer/src/events-repository.ts:1143-1152 | Rows of other blocks stay, and are reported exactly if some row of the block carries a sequence number |
| `BlockOrder.BlockIndexIgnoresArrival` | packages/indexer/src/events-repository.ts:1160-1180 | With distinct sort keys a row's index does not depend on the order of arrival |
| `BlockOrder.SortBlock` | packages/indexer/src/events-repository.ts:1160-1177 | Sorting a block gives a stable sorted permutation |
| `ArrivalOrder.FinalBlockIgnoresArrival` | packages/indexer/src/events-repository.ts:1131-1204 | A fully sequenced block with distinct sort keys is stored the same for every arrival order that keeps the order inside each account update |
| `ArrivalOrder.AcceptedRowsIgnoreArrival` | packages/indexer/src/events-repository.ts:890-1066 | Which rows are accepted, apart from positions, does not depend on such an arrival order |
| `Rows.TouchIsExact` | packages/indexer/src/events-repository.ts:761-788 | On validated rows updated_at is touched exactly when a stored column changes, which is exactly when the trigger draws a number |
| `Rows.TouchSeesAllButAccountUpdateId` | packages/indexer/src/events-repository.ts:761-788 | The -1 and empty-string stand-ins for NULL never collide; only account_update_id is outside the date rule |
| `Rows.MergeIsIdempotent` | packages/indexer/src/events-repository.ts:789-849 | Observing the same thing again stores nothing new and touches nothing |
| `Rows.MergeRespectsLifecycle` | packages/indexer/src/events-repository.ts:789-849 | Event type and contract data never change, canonical never reverts, only a canonical observation changes a canonical row |
| `Rows.EventIdentityIsInjective` | packages/indexer/src/events-repository.ts:577-584 | Identity texts are equal exactly for equal identities |
| `Rows.ImmutableMatchesIsExact` | packages/indexer/src/events-repository.ts:586-596 | The textual immutability check agrees with the WHERE clause of the upsert |
| `Validation.ValidatedColumnsAreValid` | packages/indexer/src/events-repository.ts:972-1035 | A validated entry meets everything the upsert relies on |
| `Validation.SiblingKeyIsExact` | packages/indexer/src/events-repository.ts:1184-1204 | Sibling keys are equal exactly for the same account update of the same transaction |
| `Json.StableJsonIsExact` | packages/indexer/src/events-repository.ts:149-161 | Two JSON values have the same canonical text exactly when they are equal up to object key order |
| `Json.PrintIsInjective` | packages/indexer/src/events-repository.ts:149-161 | Printed JSON is self-delimiting: strings escaped as in section 7 of RFC 8259 can be read in one way only |
| `Json.StableJsonPrintsCanonical` | packages/processor/src/events-processor.ts:129-141 | stableJson is printing after sorting the keys of every object |
| `Json.CanonicalDecidesSame` | packages/processor/src/events-processor.ts:129-141 | Sorted forms are equal exactly for values equal up to key order |
| `JsonText.ObjectText` | packages/processor/src/events-processor.ts:129-141 | Canonical text of an object: braces, and quoted key, colon and value of every member, in ascending key order, with commas between them |
| `JsonText.ArrayText` | packages/processor/src/events-processor.ts:129-141 | Canonical text of an array: brackets, and its items in order with commas between them |
| `JsonText.PlainText` | packages/indexer/src/events-repository.ts:149-161 | Text of plain units is quoted unit by unit |
| `JsonText.EscapedUnits` | packages/indexer/src/events-repository.ts:149-161 | Quotation marks, backslashes, control characters and lone surrogates are escaped as JSON.stringify does |
| `JsonText.PairsStay` | packages/indexer/src/events-repository.ts:149-161 | A surrogate pair is written as it is, a lone surrogate escaped |
| `Texts.LessIsLexicographic` | packages/processor/src/events-processor.ts:136-139 | Keys are sorted by their first differing code unit, a prefix first |
| `Texts.TrimCuts` | packages/indexer/src/events-repository.ts:972-1035 | Trimming cuts white space at both ends and nothing else |
| `Rows.FieldIsTheMember` | packages/indexer/src/events-repository.ts:149-161 | Reading a property gives the value of the member of that name, or undefined |
| `Coverage.CursorLeavesNoGap` | packages/indexer/src/events-indexer.ts:347-386 | Over any number of concurrent passes, failures and head regressions, every height from the cold-start height to the stored cursor was in a committed batch |
| `Coverage.CursorOnlyGrows` | packages/indexer/src/events-repository.ts:521-546 | Over every run the cursor never decreases and committed heights stay committed |
| `Coverage.StepKeepsInv` | packages/indexer/src/events-indexer.ts:357-386 | Reading head and cursor, committing a batch and failing each keep every running pass gap-free |
| `Coverage.Indexer.SyncCanonicalOnce` | packages/indexer/src/events-indexer.ts:347-386 | A pass terminates and commits exactly the heights from the overlap below the cursor, or from the start, to the head or to just before the batch that threw, in ranges of the batch size, with the cursor to match |
| `ServiceRegistry.OneServicePerLifecycle` | apps/api/src/staking-ledger/lifecycle-staking-ledger-service-registry.ts:79-141 | In every interleaving at most one service per lifecycle id has not answered its last close; a service whose close failed has answered |
| `ServiceRegistry.ClosedTwiceExactlyWhenRepeated` | apps/api/src/staking-ledger/lifecycle-staking-ledger-service-registry.ts:105-136 | In every run no service is closed more than twice, and twice exactly if the close of a late service failed; a close that fails anywhere else is not repeated |
| `ServiceRegistry.CloseClosesEverything` | apps/api/src/staking-ledger/lifecycle-staking-ledger-service-registry.ts:143-175 | When close() has settled every service ever created was asked to close and has answered, once or, exactly after a failed late close, twice; nothing is starting or cached, and no getService does anything from then on |
| `ServiceRegistry.LateCloseMayRepeat` | apps/api/src/staking-ledger/lifecycle-staking-ledger-service-registry.ts:105-128 | Such a repeated close does occur: a run in which close() overtakes a startup whose late close fails |
| `ServiceRegistry.ServesCurrentSnapshot` | apps/api/src/staking-ledger/lifecycle-staking-ledger-service-registry.ts:94-117 | getService hands out an untouched cached service of its id under the snapshot identity just read |
| `StartupOutcomes.FailsExactlyWhenSpoilt` | apps/api/src/staking-ledger/lifecycle-staking-ledger-service-registry.ts:92-140 | In every run a settled startup has come to nothing exactly if one of its steps spoilt it: an unreadable snapshot, a failed close, creation or start, a registry no longer open when it had started, or another snapshot then than at first |
| `StartupOutcomes.ResolvedServiceWasCurrent` | apps/api/src/staking-ledger/lifecycle-staking-ledger-service-registry.ts:92-117 | In every run a service that getService resolved to was, at that moment, an untouched cached service of its id under the identity the startup had read |
| `StartupOutcomes.NewServiceIsServed` | apps/api/src/staking-ledger/lifecycle-staking-ledger-service-registry.ts:104-117 | With nothing cached and good answers a startup creates one service and resolves with it |
| `StartupOutcomes.StaleServiceIsReplaced` | apps/api/src/staking-ledger/lifecycle-staking-ledger-service-registry.ts:94-117 | A cached service of another snapshot is closed once, and a new one is created, cached and handed out |
| `StartupOutcomes.CurrentServiceIsReused` | apps/api/src/staking-ledger/lifecycle-staking-ledger-service-registry.ts:94-98 | A cached service of the snapshot read is handed out as it is; nothing is created or closed |
| `ServiceRegistry.StepKeepsInv` | apps/api/src/staking-ledger/lifecycle-staking-ledger-service-registry.ts:79-175 | Every segment between awaits keeps services, identities, startups and close() consistent |
| `ServiceRegistry.NormalIdsAreNumbers` | apps/api/src/staking-ledger/lifecycle-staking-ledger-service-registry.ts:28-47 | An id is taken exactly if it is, trimmed, one to twenty digits of a number below 2^32, and stands for that number |
| `ServiceRegistry.NormalIdsAreCanonical` | apps/api/src/staking-ledger/lifecycle-staking-ledger-service-registry.ts:28-47 | Normalized ids are equal exactly for equal numbers, and normalizing again changes nothing |
| `LifecycleRegistry.LifecycleStakingLedgerServiceRegistry.GetService` | apps/api/src/staking-ledger/lifecycle-staking-ledger-service-registry.ts:79-90 | A caller gets a startup in flight for its normalized id exactly when the registry is open and the id is valid |
| `LifecycleRegistry.LifecycleStakingLedgerServiceRegistry.AfterStart` | apps/api/src/staking-ledger/lifecycle-staking-ledger-service-registry.ts:104-121 | Every segment of the object takes the one step of the state machine it stands for and keeps its invariant; this one decides between caching, a late close and cleaning up |
| `JoinPaths.BuildJoinOptionsForEntity` | packages/processor/src/processor-crud-api-server.ts:175-205 | On any relation graph, cycles included, the walk ends and lists exactly the texts of relation paths along which no entity repeats except possibly the last |
| `JoinPaths.JoinOptionsBuilder.Walk` | packages/processor/src/processor-crud-api-server.ts:182-201 | The recursive walk adds to the shared options exactly what is reachable without repeating a seen entity |
| `JoinPaths.WalksAreJoinPaths` | packages/processor/src/processor-crud-api-server.ts:182-201 | The rule with a growing seen set walks exactly the paths without repeats |
| `JoinPaths.StepsTakeRelations` | packages/processor/src/processor-crud-api-server.ts:182-201 | A step of a path takes a relation of the graph from the root or from where the relation before leads |
| `JoinPaths.PathTextIsDotted` | packages/processor/src/processor-crud-api-server.ts:182-201 | The option of a path is its property names joined by dots |
| `SignatureMerge.Merge` | apps/backoffice/features/operations.ts:138-165 | Merging succeeds exactly for one operation without conflicting slots, whatever the lengths of the lists, and otherwise names the first field or slot in conflict |
| `SignatureMerge.EvaluationIsUnion` | apps/backoffice/features/operations.ts:138-165 | Merging any collection of even packages succeeds exactly when they agree, and gives the slotwise union, losing no signature |
| `SignatureMerge.SwappingIsExact` | apps/backoffice/features/operations.ts:150-163 | Any two packages merge in both orders or in none, with equal signatures exactly if their lists are equally long and no slot is empty text in one and signed in the other |
| `SignatureMerge.OrderMattersExactlyWhenUneven` | apps/backoffice/features/operations.ts:138-165 | For every collection of packages, validated or not: all orders and groupings have one outcome exactly if the packages are pairwise even or fail in every order |
| `SignatureMerge.OrderAndGroupingDoNotMatter` | apps/backoffice/features/operations.ts:138-165 | Any two orders, groupings or repetitions of the same even packages both fail or give the same operation and signatures |
| `SignatureMerge.ValidPackagesAreEven` | apps/backoffice/features/operations.ts:167-214 | Validated packages are even |
| `SignatureMerge.MergingAgainChangesNothing` | apps/backoffice/features/operations.ts:138-165 | Merging an even package again changes nothing |
| `SignatureMerge.EmptySignatureBreaksOrder` | apps/backoffice/features/operations.ts:150-163 | Two five-slot packages, one with an empty signature, that give different signatures in the two orders |
| `ParticipantRotation.InspectParticipantRotation` | apps/backoffice/features/operations.ts:266-350 | The review allows building exactly for five distinct proper keys that are not the current ones in their order |
| `ParticipantRotation.ValidateParticipantRotation` | apps/backoffice/features/operations.ts:352-385 | Validation passes exactly the sets the review allows |
| `ParticipantRotation.CountKeys` | apps/backoffice/features/operations.ts:293-300 | The counts map holds how often every key occurs |
| `ParticipantRotation.AcceptableInKeys` | apps/backoffice/features/operations.ts:266-350 | In terms of the entries themselves: five keys other than the empty one, no two the same, and not the current keys place by place |
| `ParticipantRotation.ValidKeysAreRetainedOrNew` | apps/backoffice/features/operations.ts:319-326 | Every valid key counts as retained or as new, never both |
| `Thresholds.ThresholdsInRange` | apps/web/e2e/utils/lifecycle-expectations.ts:9-18 | For every amount and positive balance nothing divides by zero, participation is 2000 to 5000 and approval 5100 to 7000 basis points |
| `Thresholds.ThresholdsAreMonotone` | apps/web/e2e/utils/lifecycle-expectations.ts:9-18 | Both thresholds are nondecreasing in the amount and nonincreasing in the balance |
| `Thresholds.ThresholdsAreClose` | apps/web/e2e/utils/lifecycle-expectations.ts:9-18 | For every ratio each threshold is within three basis points of the formula without floors |
| `Thresholds.ParticipationIsShareOfCurrency` | apps/web/e2e/utils/lifecycle-expectations.ts:11-17 | The required participation is its share of the total currency rounded down, between a fifth and a half of it |
| `Thresholds.RatioIsCappedShare` | apps/web/e2e/utils/lifecycle-expectations.ts:9-10 | The ratio is the amount in ten-thousandths of the balance rounded down, and at most the whole |
| `Thresholds.ThresholdsAtTheEnds` | apps/web/e2e/utils/lifecycle-expectations.ts:9-14 | Without an amount the thresholds are 2000 and 5100 basis points, from the whole balance on 5000 and 7000 |
| `Thresholds.QuotientTruncates` | apps/web/e2e/utils/lifecycle-expectations.ts:9-19 | bigint division leaves less than the divisor, on the side of the dividend |
| `Thresholds.ThrowsExactlyAt` | apps/web/e2e/utils/lifecycle-expectations.ts:9-14 | For all integers the computation throws exactly for a zero balance or a capped ratio of -526 or -1111 |
| `Thresholds.NegativeAmountsCanThrow` | apps/web/e2e/utils/lifecycle-expectations.ts:9-14 | Negative amounts that divide by zero exist for both curves |
| `Thresholds.BondIsATenth` | apps/web/e2e/utils/lifecycle-expectations.ts:19 | The amount with bond is eleven tenths of the amount, rounded down |
| `Nanomina.RoundTripExactlyWhenNonnegative` | apps/cli/src/commands/mina-ledger-parity.ts:241-256 | Parsing a printed amount returns it for every nonnegative value of any size, and fails for every negative one |
| `Nanomina.ParsedAmountsPrintCanonically` | apps/cli/src/commands/mina-ledger-parity.ts:241-256 | Printing a parsed amount gives the canonical nine-decimal text of the same amount, unchanged if it was canonical |
| `Nanomina.PartsTruncate` | apps/cli/src/commands/mina-ledger-parity.ts:248-256 | The two printed parts make up the amount, with a rest of less than one MINA on its side |
| `Nanomina.CanonicalAmountsAreUnique` | apps/cli/src/commands/mina-ledger-parity.ts:252-256 | An amount has one canonical text |
| `Nanomina.ParsesExactlyThePattern` | apps/cli/src/commands/mina-ledger-parity.ts:241-246 | Parsing accepts exactly trimmed digits with an optional dot and one to nine digits |

## Left out

- PostgreSQL and TypeORM: SQL text, isolation levels below the advisory locks, and errors
  other than integer columns out of range. In `Consumer` any transaction may abort at any
  time, and a worker may miss the reply to a commit.
- The advisory locks are taken as mutual exclusion; a step of `Consumer` is a whole
  transaction. A thrown handler error is recorded without the lock in the source; its
  record is one step here, so two overlapping writes of one failure row are not modelled.
- The rejection table: its conflict clause, occurrence counts, column ranges, observation
  hashes and resolution. Rejections are kept as source position, height and reason.
- Order of the rejections of mixed blocks; their set is exact.
- Row objects: assigning a block event index in place is modelled on an array of rows, and
  the object identity of a row by its position in the response.
- `localeCompare` on transaction hashes is the code-unit order, a strict total order.
- Parsing of timestamps that are not numeric text is an unknown function; clocks, updated_at
  values, retry delays and heartbeats are absent. Only whether a row is dated is modelled.
- Numbers in JSON that are not plain integers are kept as their printed text. undefined inside
  an array, which no JSON document holds, is left out.
- Legacy paging by `(updatedAt, id)` and unknown-type paging.
- Rewinds of the offset and the before/after processing hooks: offset claims hold between rewinds.
- Handlers are an arbitrary answer per attempt; what they write is not modelled.
- A worker of `Consumer` may also fetch a page while a failure is blocked, which the source
  does not do; the theorems cover those runs as well.
- Start, stop and timer bookkeeping of indexer and processor, runtime status rows, and the
  archive client with its pending snapshot selection.
- The normalised batch is an argument of the ingestion method; `BatchBuilder.Build` makes it from a response.
- Service start and close in the registry are outcomes of steps; sqlite files and snapshot
  contents are absent.
- Base58 keys, hashes and signatures are unknown functions or opaque text; packages carry their
  operation fields as JSON text.
- Property names in join paths are kept as they are; the graph itself, which is read from
  decorator metadata, is an argument.
- Contracts, provers, Merkle trees, user interfaces, wallets and command-line wiring.
