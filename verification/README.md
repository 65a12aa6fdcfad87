# A model of cs-core, verified

cs-core keeps chat messages on a device: it stores and indexes them, backs them up, moves old ones to
an archive, and talks to a gateway that may fail.  This project models six of its components in Dafny
and proves what they promise, over every input and every run.

* **Search** (`EditDistance`, `QGrams`, `Tokenizer`, `FuzzySearch`, `Ranking`, `QueryEngine`).  The
  two-row edit distance computes the length of a shortest edit path, which is a metric.  The index of
  grams finds every text with a token close enough to a token of the query; the bound is the best one.
  `execute_search` adds snippets, filters, removes repeats, ranks and truncates.
* **Message store** (`Cbor`, `Journal`, `StateMachines`, `MessageStore`, `StoreRows`, `StoreInvariants`,
  `StoreReplay`, `StoreRecords`, `Deletion`, `Delivery`, `LocalStore`).  `MessageStore.Step` says what a call does to the
  tables as a value; the class `LocalStore.Db` performs the statements one by one, rolls back when one
  fails, and is proved to do the same.  Over runs: the indexes agree with the bodies, the event
  journal rebuilds the skeletons, deletion is final, delivery is exactly once, and rows, assets, outbox
  and conversations are those of the calls that made them.
* **Backup** (`ManifestChain`, `Backup`, `BackupSafety`, `BackupChain`, `BackupRecords`,
  `BackupCoordinator`, `Transport`, `StreamBackup`).  One backup is eight steps, three of them listings;
  between any two of them messages may arrive, other backups may run, the process may be killed, and each
  upload may be refused or lose its reply.
* **Archive** (`EpochKeys`, `Archive`, `ArchiveSafety`, `ArchiveRecords`).  Segments sealed with rotating
  keys, queued and listed in manifests; replies may get lost and the process may start again.
* **Caches** (`ShardCache`, `MediaCache`) and **framing** (`PatternC`).
* **Transport** (`CircuitBreaker`).  The breaker and the retry loop over any number of calls, with the
  clock as an input.

Code that updates state is modelled by classes and loops, each proved against a function of the old
state; the theorems are about those functions.  Cryptography, compression, serialisation and hashing
are functions passed in, with their laws in a predicate `Lawful`.

`dafny verify dfyconfig.toml` checks everything.

## What does not hold

Where the code does not do what it is documented to do, the model follows the code and a lemma says
exactly when it does.

* An edit of a message without a body row indexes text that no body has
  (`StoreInvariants.EditKeepsIndexesIff`); messages with media only are such
  (`StoreInvariants.BodylessEditIsReachable`).
* `mark_sent` has no savepoint and can fail half done (`StoreInvariants.MarkSentFailsDirtyIff`).
* A page of messages fails exactly when one of them is invalid, or is new where it stands and cannot be
  ingested (`Delivery.PageFailsIff`).  An invalid one stops its page for good, since the page is fetched
  again from the same cursor (`Delivery.InvalidBlocksForever`).
* A message whose body was offloaded can no longer be edited or deleted
  (`Deletion.OffloadedStaysOffloaded`).
* The search limits only its full-text half to the conversation of the query
  (`QueryEngine.ForeignHitReturnedIff`).
* Fuzzy similarity divides a distance in characters by a length in bytes, so a text that has nothing in
  common with the query is kept when the longer of the two in bytes has more bytes than the longer in
  characters has characters (`FuzzySearch.DroppedIff`).
* Fuzzy search keeps its best fifty hits before the filters are applied, so a close message that passes
  them can be missed though fewer than fifty are returned (`QueryEngine.ExpectedHitReturnedIff`).
* `verify_chain` is documented to ask the first manifest for a zero hash; it does so only for
  generations other than zero (`ManifestChain.StartsAtZeroIff`), and it does not look at the numbering
  (`ManifestChain.AnyNumberingAccepted`).
* Backups form a chain exactly when each manifest is stored in its turn (`BackupChain.ChainHoldsIff`).
  Two overlapping backups, a lost reply to a manifest upload, or a restart that does not find the last
  generation break it (`BackupChain.OverlapForks`, `LostReplyForks`, `RestartContinuesIff`).  `CoreImpl`
  always starts with a fresh coordinator: nothing calls `save_state` or `load_state`.
* Once a row is marked as backed up, later edit and deletion stamps of it are never backed up
  (`BackupSafety.LateChangesNeverBackedUp`).  The backup that marks it does not have those that fall
  between its listing of the rows and their marking either (`BackupSafety.ChangeDuringBackupIsLost`); only
  an overlapping backup that lists the rows in between would.
* Marking rows while a streaming backup runs makes it skip every second page
  (`StreamBackup.StreamWhileMarking`), unless there are at most 200 rows (`StreamBackup.MarkingSkipsIff`).
* A segment over the cap of the archive is uploaded before the cap is checked, and no manifest ever
  lists it (`ArchiveSafety.OrphanIsNeverListed`).
* The archive chain breaks exactly when a manifest is stored after a lost reply or a restart that found
  manifests (`ArchiveSafety.ChainHoldsIff`).  A restart loses what is pending
  (`ArchiveSafety.ConservationIff`) and the keys of all epochs but the one the clock shows
  (`ArchiveSafety.ReopenForgetsKeys`).
* An archive year has thirteen months, the last of five days, which shares its epoch with the next
  January (`EpochKeys.EpochsShared`).
* Overwriting a file of the media cache costs the cache the size of the old file for good
  (`MediaCache.OverwriteLosesBudget`).  A media cache opened on a directory with files does not count them:
  the directory may grow to twice the budget (`MediaCache.FullDirectoryDoubles`).
* A Pattern C stream cut between two frames decrypts without an error (`PatternC.TruncationNoticedIff`).
* Text of 2^32 bytes or more does not survive its CBOR encoding (`Cbor.TextRoundTripIff`).
* A breaker with threshold zero never lets a request through (`CircuitBreaker.NeverSticksIff`).

## Model

| member | source | states |
|---|---|---|
| `EditDistance.Levenshtein` | crates/cs-core/src/search/fuzzy_search.rs:151-176 | the two-row loop with its swaps returns `Distance` |
| `EditDistance.DistanceIsShortestEditPath` | crates/cs-core/src/search/fuzzy_search.rs:150-176 | the distance is the number of steps of a shortest path of single insertions, deletions and substitutions; paths are defined without the recurrence |
| `EditDistance.DistanceZeroIffEqual` | crates/cs-core/src/search/fuzzy_search.rs:151-176 | distance zero exactly for equal strings |
| `EditDistance.DistanceSymmetric` | crates/cs-core/src/search/fuzzy_search.rs:151-176 | the distance is symmetric |
| `EditDistance.DistanceTriangle` | crates/cs-core/src/search/fuzzy_search.rs:151-176 | the triangle inequality |
| `EditDistance.DistanceBounds` | crates/cs-core/src/search/fuzzy_search.rs:96-103 | between the difference of the lengths and the longer length |
| `QGrams.QGramLemma` | crates/cs-core/src/search/tokenizer.rs:62-81 | of the windows of one string, counted with repeats, at least length - q + 1 - q * distance occur in the other |
| `QGrams.CloseStringsShareWindow` | crates/cs-core/src/search/fuzzy_search.rs:59-85 | strings of q * distance + q or more characters share a window |
| `QGrams.WindowBoundIsTight` | crates/cs-core/src/search/fuzzy_search.rs:59-85 | with one character fewer there are, for every q and k, strings at distance k or less that share none |
| `Tokenizer.Tokenize` | crates/cs-core/src/search/tokenizer.rs:84-113 | the loop over `current` and `current_script` returns `Tokens` |
| `Tokenizer.TokensAreMaximalRuns` | crates/cs-core/src/search/tokenizer.rs:84-113 | the tokens are the maximal runs of one script without whitespace: all of them, each once, in order |
| `Tokenizer.ScriptIff` | crates/cs-core/src/search/tokenizer.rs:42-59 | the blocks of the scripts are disjoint: a character has a script exactly if it is in a block of that script |
| `Tokenizer.BigramsIffCjk` | crates/cs-core/src/search/tokenizer.rs:61-113 | a token has no whitespace, and is indexed by bigrams exactly if it is Chinese, Japanese or Korean, which then all of its characters are and otherwise none |
| `Tokenizer.GramsAreWindows` | crates/cs-core/src/search/tokenizer.rs:62-81 | the grams of a token are the windows of its folded text, of two characters for the scripts of Chinese, Japanese and Korean, of three for the others |
| `FuzzySearch.Retrieve` | crates/cs-core/src/search/fuzzy_search.rs:59-85 | candidates are live messages that share a gram with the query, and all of them for every gram that the limit does not cut short |
| `FuzzySearch.CloseMessageIsMatched` | crates/cs-core/src/search/fuzzy_search.rs:33-85 | the index never misses a message whose own index rows are exact and that has a token close to one of the query: equal when folded, or with more windows surviving between the two than the limit of the gram queries cuts short |
| `FuzzySearch.LongTokensAreClose` | crates/cs-core/src/search/fuzzy_search.rs:59-85 | if none is cut short, tokens are close when one of them is long enough for their distance |
| `FuzzySearch.CloseMessageIsMatchedAfterRun` | crates/cs-core/src/search/fuzzy_search.rs:33-85 | the same of every live message with a text in the store that any run of calls has built |
| `FuzzySearch.SimilarityBounds` | crates/cs-core/src/search/fuzzy_search.rs:96-103 | similarity is symmetric, in [0, 1], and one exactly for equal texts that are not empty |
| `FuzzySearch.SimilarityIsExact` | crates/cs-core/src/search/fuzzy_search.rs:96-103 | one minus the similarity, times the longer byte length, is the distance |
| `FuzzySearch.SimilarityOrder` | crates/cs-core/src/search/fuzzy_search.rs:96-103 | of two texts the one with the smaller distance for its length is the more similar: distances compared across the longer byte lengths, ties too |
| `FuzzySearch.RanksIffCloser` | crates/cs-core/src/search/fuzzy_search.rs:127-138 | a hit ranks before another exactly if its distance is smaller in that comparison, or the same and its message no older |
| `FuzzySearch.DroppedIff` | crates/cs-core/src/search/fuzzy_search.rs:96-108 | a text is dropped exactly when nothing survives and bytes and characters of the longer text agree |
| `FuzzySearch.Search` | crates/cs-core/src/search/fuzzy_search.rs:23-139 | at most `limit` hits, one per message, each live, sharing a gram and with the fields of its row; hits come in the order of their distances for their lengths, then of recency; a close message with exact index rows that scores is returned or is beaten by a full list of hits no farther |
| `Ranking.BestOf` | crates/cs-core/src/search/fuzzy_search.rs:127-138 | sorting and truncating keeps the best: what is left out is behind everything kept, and only when the limit is reached |
| `Ranking.SortIsStable` | crates/cs-core/src/search/query_engine.rs:129-134 | hits of one score and time stay in the order in which they were |
| `QueryEngine.ExecuteSearch` | crates/cs-core/src/search/query_engine.rs:47-139 | the loops that fill in snippets, filter and remove repeats return `Merge` of the full-text hits and the best fifty fuzzy hits, these among them all that `Search` promises; the results are in order, distinct, at most fifty, each of a live message, with its snippet and what the query asks for; the first full-text hit of a message that passes stands for it whatever fuzzy search found |
| `QueryEngine.ExpectedHitReturnedIff` | crates/cs-core/src/search/query_engine.rs:60-139 | a close message that passes the filters is returned if it was among the best fifty fuzzy hits, or beaten by fifty results; if it was not, it is not returned; with fewer than fifty results it is exactly then |
| `QueryEngine.ForeignHitIsReachable` | crates/cs-core/src/search/query_engine.rs:56-66 | a message is found by its own text from any conversation |
| `QueryEngine.MergeIsSound` | crates/cs-core/src/search/query_engine.rs:96-139 | every result was found and passes the filters; results are ranked, at most fifty, one per message |
| `QueryEngine.MergeIsComplete` | crates/cs-core/src/search/query_engine.rs:96-139 | the first hit of a message past the filters is returned, or fifty others are and none ranks behind it |
| `QueryEngine.TextHitStands` | crates/cs-core/src/search/query_engine.rs:54-60 | a full-text hit that passes with its snippet, the first of its message to do so, is the only result of that message, and is returned or beaten by fifty others |
| `QueryEngine.PassesIffAnswers` | crates/cs-core/src/search/query_engine.rs:96-124 | a hit passes exactly if sender, both ends of the date range and the kind of content are as the query asks, links and media judged by the stored text and row |
| `QueryEngine.ForeignHitReturnedIff` | crates/cs-core/src/search/query_engine.rs:56-66 | a fuzzy hit from another conversation that passes the filters: if no more than fifty hits were found it is returned exactly when fuzzy search runs; beyond that it is returned or fifty others are, none behind it |
| `Cbor.Buffer.PushUintWithMajor` | crates/cs-core/src/message/processor.rs:952-969 | appends the head of the item and nothing else |
| `Cbor.Buffer.PushInt` | crates/cs-core/src/message/processor.rs:939-946 | appends the item of the integer |
| `Cbor.Buffer.PushText` | crates/cs-core/src/message/processor.rs:921-937 | appends the item of the text, its length truncated to 32 bits |
| `Cbor.HeadRoundTrip` | crates/cs-core/src/message/processor.rs:952-969 | a head decodes to its major type and argument, whatever follows |
| `Cbor.HeadIsShortest` | crates/cs-core/src/message/processor.rs:952-969 | no head with the same meaning is shorter |
| `Cbor.BigEndianAt` | crates/cs-core/src/message/processor.rs:952-969 | arguments are written with the most significant byte first |
| `Cbor.IntRoundTrip` | crates/cs-core/src/message/processor.rs:939-950 | every i64 comes back, with nothing left over |
| `Cbor.TextRoundTripIff` | crates/cs-core/src/message/processor.rs:921-937 | text comes back exactly when it is shorter than 2^32 bytes |
| `Cbor.IntPrefixFree` | crates/cs-core/src/message/processor.rs:939-950 | no integer item begins another |
| `Cbor.TextPrefixFree` | crates/cs-core/src/message/processor.rs:921-937 | no text item begins another |
| `Journal.EncodeEventPayload` | crates/cs-core/src/message/processor.rs:873-887 | the pushes write the payload of a creation event |
| `Journal.EventPayloadRoundTrip` | crates/cs-core/src/message/processor.rs:873-887 | the payload decodes to message, conversation, sender and time |
| `Journal.EditPayloadRoundTrip` | crates/cs-core/src/message/processor.rs:889-898 | the payload decodes to message and edit time |
| `Journal.DeletePayloadRoundTrip` | crates/cs-core/src/message/processor.rs:900-909 | the payload decodes to message and scope |
| `Journal.MediaDeletePayloadRoundTrip` | crates/cs-core/src/message/processor.rs:911-919 | the payload decodes to asset and message |
| `StateMachines.DeletedIsTerminal` | crates/cs-core/src/local_store/state_machines.rs:70-91 | a path of the state diagram that enters a deleted state ends in it |
| `StateMachines.TerminalIff` | crates/cs-core/src/local_store/state_machines.rs:70-91 | the states without a way out are the deleted ones and `Unavailable`; the one without a way in is `DeliveryStoreOnly` |
| `LocalStore.Db.PersistIngestedMessage` | crates/cs-core/src/message/processor.rs:243-412 | validation, duplicate check, savepoint and statements do what `IngestStep` says, whichever statement fails |
| `LocalStore.Db.PersistOutboxEntry` | crates/cs-core/src/message/processor.rs:418-569 | the same for an outbox entry and `OutboxStep` |
| `LocalStore.Db.MarkSent` | crates/cs-core/src/message/processor.rs:577-615 | two statements without a savepoint do what `MarkSentStep` says |
| `LocalStore.Db.EditMessage` | crates/cs-core/src/message/processor.rs:621-718 | an edit replaces body, full-text row and fuzzy rows, or nothing |
| `LocalStore.Db.DeleteMessage` | crates/cs-core/src/message/processor.rs:721-818 | a delete stamps the row, takes out the index rows and records the events, or does nothing; `StoreRecords.CallRecords` says which events |
| `LocalStore.Db.IngestRemoteMessages` | crates/cs-core/src/core_impl.rs:114-140 | the loop over a page counts new and duplicate messages and stops at the first error |
| `LocalStore.Db.OffloadBodies` | crates/cs-core/src/core_impl.rs:319-331 | every body of the plan becomes `RemoteArchiveOnly`, nothing else changes |
| `StoreInvariants.StepKeepsIndexes` | crates/cs-core/src/message/processor.rs:243-818 | every call but the edit of a message without a body keeps: one full-text row and exactly the grams of its text for each live message, none for any other id |
| `StoreInvariants.RunKeepsIndexes` | crates/cs-core/src/message/processor.rs:243-818 | so does every run without such an edit, from any store where that holds |
| `StoreInvariants.IndexesAgreeIff` | crates/cs-core/src/message/processor.rs:243-818 | after any run from the empty store that holds of all messages exactly when no live message without a body has an edit stamp |
| `StoreInvariants.RowsExactIff` | crates/cs-core/src/message/processor.rs:243-818 | and of each message exactly when it is not such a one |
| `StoreInvariants.EditKeepsIndexesIff` | crates/cs-core/src/message/processor.rs:654-718 | an edit that goes through keeps the agreement exactly when there is a body |
| `StoreInvariants.BodylessEditIsReachable` | crates/cs-core/src/message/processor.rs:155-190 | a valid message with media only has no body, and editing it breaks the agreement |
| `StoreInvariants.FailedCallChangesNothing` | crates/cs-core/src/message/processor.rs:243-263 | a call that fails leaves the store as it was |
| `StoreInvariants.MarkSentFailsDirtyIff` | crates/cs-core/src/message/processor.rs:577-615 | `mark_sent` fails with a changed store exactly when its second statement fails |
| `StoreReplay.JournalRebuildsSkeletons` | crates/cs-core/src/message/processor.rs:392-409 | decoding and folding the journal of any run gives the skeletons: ids, conversation, sender, creation, edit and deletion times, scope |
| `Journal.ReplayIgnores` | crates/cs-core/src/message/processor.rs:800-815 | events that change no header do not change the replay |
| `Deletion.StepFollowsDiagram` | crates/cs-core/src/local_store/state_machines.rs:70-91 | every change of a body state is an edge of the diagram, and no row disappears |
| `Deletion.RunFollowsDiagram` | crates/cs-core/src/local_store/state_machines.rs:70-91 | the states of a message over a run are a path of the diagram |
| `StoreInvariants.RunKeepsRowsAgree` | crates/cs-core/src/message/processor.rs:757-783 | over every run the deletion time is set exactly in the deleted states |
| `Deletion.DeletionIsFinal` | crates/cs-core/src/message/processor.rs:730-783 | no later run changes the row of a deleted message or brings a body back |
| `Deletion.DeleteSucceedsIff` | crates/cs-core/src/message/processor.rs:730-783 | when a delete goes through |
| `Deletion.RunIndexesOnlyLive` | crates/cs-core/src/message/processor.rs:757-783 | after every run, also of edits of messages without a body, no index row is of a deleted or unknown message |
| `Deletion.OffloadedStaysOffloaded` | crates/cs-core/src/local_store/db.rs:612-636 | an offloaded message is never again edited, deleted or brought back by these calls |
| `Deletion.OffloadedIsReachable` | crates/cs-core/src/core_impl.rs:319-331 | an archived message that is planned for eviction becomes one |
| `StoreRecords.CallCreates` | crates/cs-core/src/message/processor.rs:265-365 | an ingest or a text sent creates the row and body it should, field by field, and no other call makes a message appear |
| `StoreRecords.RowsAreBorn` | crates/cs-core/src/message/processor.rs:265-818 | over every run a message has the conversation, sender, times, kind and reply link it was created with |
| `StoreRecords.AssetsAreOwned` | crates/cs-core/src/message/processor.rs:322-341 | over every run an asset has one row at most, of the last message that was ingested with it |
| `StoreRecords.CallRecords` | crates/cs-core/src/message/processor.rs:392-818 | a call that goes through appends its events and no others, with its message, conversation and time; their payloads decode to what the call did; a delete records the asset rows of its message, each once, in table order |
| `StoreRecords.DeletedMediaAreOwned` | crates/cs-core/src/message/processor.rs:797-815 | after any run a delete records an asset exactly if the message was the last to be ingested with it, and once |
| `StoreRecords.ConversationsShowLast` | crates/cs-core/src/local_store/db.rs:671-684 | over every run a conversation shows the last message ingested or sent into it, and when that was created |
| `StoreRecords.OutboxShowsLast` | crates/cs-core/src/message/processor.rs:446-615 | over every run the outbox row of a message is that of its last entry, sent when it was last marked |
| `StoreRecords.OffloadedWasVerified` | crates/cs-core/src/local_store/db.rs:612-636 | over every run an offloaded message was verified in the archive, and has its body row still |
| `Delivery.ExactlyOnce` | crates/cs-core/src/core_impl.rs:114-140 | however deliveries are cut into pages and repeated, the store is that of ingesting the first delivery of each message once, in order |
| `Delivery.PageIngestsFirsts` | crates/cs-core/src/core_impl.rs:114-140 | a page counts every message as new or duplicate and ingests the first deliveries |
| `Delivery.FirstsAreFirst` | crates/cs-core/src/message/processor.rs:820-828 | what counts as a first delivery |
| `Delivery.FirstsAreOnce` | crates/cs-core/src/message/processor.rs:820-828 | each unknown message has one |
| `Delivery.RedeliveryIsNoOp` | crates/cs-core/src/core_impl.rs:114-140 | a page that went through, delivered again, changes nothing and counts duplicates only |
| `Delivery.PageFailsIff` | crates/cs-core/src/core_impl.rs:119-140 | a page fails exactly when some message of it is invalid, or is new where it stands and cannot be ingested |
| `Delivery.RetriesAreExactlyOnce` | crates/cs-core/src/core_impl.rs:114-140 | whatever pages are fetched and wherever storage fails, no message is ingested twice, and if each was in some page that went through, each unknown one is ingested once |
| `Delivery.InvalidStopsPage` | crates/cs-core/src/core_impl.rs:130-138 | what comes before an invalid message is kept, what comes after is not ingested |
| `Delivery.InvalidBlocksForever` | crates/cs-core/src/core_impl.rs:130-138 | once all before it has gone through, fetching that page again never gets further |
| `ManifestChain.VerifyChain` | crates/cs-core/src/restore/manifest_verifier.rs:7-32 | accepts exactly `Accepts`, and reports the first broken link |
| `ManifestChain.PrefixAccepted` | crates/cs-core/src/restore/manifest_verifier.rs:7-32 | every prefix of an accepted list is accepted |
| `ManifestChain.SuffixAcceptedIff` | crates/cs-core/src/restore/manifest_verifier.rs:12-18 | when a suffix is |
| `ManifestChain.AppendAcceptedIff` | crates/cs-core/src/restore/manifest_verifier.rs:20-29 | when one more manifest is |
| `ManifestChain.LastDetermines` | crates/cs-core/src/restore/manifest_verifier.rs:20-29 | equally long accepted lists with the same last manifest are equal, or two of their manifests collide |
| `ManifestChain.GenesisDetermines` | crates/cs-core/src/restore/manifest_verifier.rs:12-29 | so are lists of any length that start at the zero hash, or some manifest hashes to zero |
| `ManifestChain.StartsAtZeroIff` | crates/cs-core/src/restore/manifest_verifier.rs:12-18 | acceptance implies a zero hash at the start exactly for generations other than zero |
| `ManifestChain.AnyNumberingAccepted` | crates/cs-core/src/restore/manifest_verifier.rs:20-29 | some accepted list has any given generations |
| `Backup.OpenOwnSegment` | crates/cs-core/src/backup/segment_builder.rs:14-56 | a built segment opens to what went into it |
| `BackupCoordinator.Coordinator.PrepareBackup` | crates/cs-core/src/backup/coordinator.rs:68-103 | the payload is built at the generation and hash the coordinator stands at, which does not move |
| `BackupCoordinator.Coordinator.FinalizeBackup` | crates/cs-core/src/backup/coordinator.rs:106-117 | two events, one generation on, the hash of the payload |
| `BackupCoordinator.Coordinator.RunBackup` | crates/cs-core/src/backup/coordinator.rs:45-65 | all phases in one call; nothing moves unless both uploads are acknowledged |
| `BackupCoordinator.Coordinator.SaveState` | crates/cs-core/src/backup/coordinator.rs:126-129 | the row holds generation and hash |
| `BackupCoordinator.LoadState` | crates/cs-core/src/backup/coordinator.rs:134-143 | a new coordinator with what was saved, or a fresh one |
| `BackupCoordinator.Core.RunIncrementalBackup` | crates/cs-core/src/core_impl.rs:243-308 | the call takes the steps of `Backup.Run` in order, and stops at the first failure; the journal keeps exactly the events of the last thirty days, in order, if the backup succeeds and prunes, and all of them otherwise |
| `Backup.PrunedKeepsRecent` | crates/cs-core/src/local_store/db.rs:1105-1112 | pruning keeps exactly the events not older than the cutoff, as often as they were there, in their order |
| `BackupCoordinator.Core.MarkBackedUp` | crates/cs-core/src/local_store/db.rs:1045-1061 | all rows of the list are committed, or none |
| `BackupSafety.StepKeepsSafe` | crates/cs-core/src/core_impl.rs:243-308 | every step of every backup keeps: what is marked can be restored, what is under way opens to its snapshot |
| `BackupSafety.NothingIsForgotten` | crates/cs-core/src/core_impl.rs:243-308 | after any run a row is in the listing of the next backup, or committed and restorable from a manifest on the gateway |
| `BackupSafety.BackupCapturesListings` | crates/cs-core/src/backup/snapshot.rs:32-41 | once the manifest of a backup is up, the gateway restores the conversations, the unmarked rows and the bodies, each as they were when they were listed, whatever happens in between and afterwards |
| `BackupSafety.OnlyArrivalsUnmarked` | crates/cs-core/src/backup/snapshot.rs:32-144 | when a backup has marked its rows, every unmarked row has arrived since it listed them |
| `BackupSafety.LateChangesNeverBackedUp` | crates/cs-core/src/local_store/db.rs:892-932 | a marked row is in no later listing |
| `BackupSafety.ChangeDuringBackupIsLost` | crates/cs-core/src/core_impl.rs:252-292 | a row that is first edited or deleted after it was listed is marked all the same: the gateway has it without the stamp, and no later listing has it |
| `BackupChain.ChainHoldsIff` | crates/cs-core/src/backup/coordinator.rs:68-117 | over every run, overlaps, lost replies, restarts and stale loads included, the generations are 0, 1, 2, ... exactly when each manifest carries the number of those already stored; then the list is accepted and starts at the zero hash |
| `BackupChain.ChainHolds` | crates/cs-core/src/core_impl.rs:243-308 | backups that run one after the other publish such a list, whatever uploads are refused, whatever arrives between the phases, and wherever the process is killed, but between a manifest and its finalization, to resume from a state saved after the last finalization |
| `BackupChain.LoadFindsCoordinator` | crates/cs-core/src/backup/coordinator.rs:126-143 | over every run, as long as the coordinator has not advanced since it was saved, loading finds its generation and hash |
| `BackupChain.RestartContinuesIff` | crates/cs-core/src/backup/coordinator.rs:134-143 | the backup after a restart continues the chain exactly when the restart finds a generation that counts all manifests |
| `BackupChain.RestartForks` | crates/cs-core/src/core_impl.rs:70 | the backup after a restart without loading starts again at generation zero, and the list is accepted only if the last hash was zero |
| `BackupChain.PublishedIsReachable` | crates/cs-core/src/core_impl.rs:243-281 | one backup leads to a list to restart after |
| `BackupChain.OverlapForks` | crates/cs-core/src/core_impl.rs:259-289 | two backups built before either is finalized publish the same generation twice |
| `BackupChain.OverlapIsReachable` | crates/cs-core/src/core_impl.rs:243-265 | two backups that both list their tables first get there from the start |
| `BackupChain.LostReplyForks` | crates/cs-core/src/core_impl.rs:278-281 | so do a backup whose reply got lost and the next one |
| `BackupChain.SegmentUpIsReachable` | crates/cs-core/src/core_impl.rs:243-277 | a backup gets as far as sending its manifest at the tip |
| `BackupRecords.ManifestsTell` | crates/cs-core/src/backup/coordinator.rs:68-103 | over every run, each published manifest has one segment, on the gateway, with the digest of its plaintext and its size |
| `BackupRecords.JournalTellsOfManifests` | crates/cs-core/src/backup/coordinator.rs:106-117 | as long as each manifest is stored in its turn, the journal of the coordinator tells of the segments and generations of the published manifests, in order |
| `StreamBackup.StreamBackupBatches` | crates/cs-core/src/backup/snapshot.rs:52-120 | the loop terminates; the pages put together are the two listings; there are max(1, ceil(max(n, m) / 200)) batches of at most 200 rows each; a callback that fails has seen a beginning |
| `StreamBackup.NextPage` | crates/cs-core/src/local_store/db.rs:957-1031 | `LIMIT` and `OFFSET` continue where the pages before ended |
| `StreamBackup.StreamWhileMarking` | crates/cs-core/src/backup/snapshot.rs:76-108 | the same loop with a callback that marks the skeletons of its batch: it streams every body, and of the skeletons only every second page |
| `StreamBackup.MarkingSkipsIff` | crates/cs-core/src/backup/snapshot.rs:76-108 | which is all of them exactly when there are at most 200 |
| `EpochKeys.EpochOfDay` | crates/cs-core/src/archive/epoch_keys.rs:82-92 | the epoch of a day of a year |
| `EpochKeys.EpochsShared` | crates/cs-core/src/archive/epoch_keys.rs:82-92 | which days share an epoch |
| `EpochKeys.EpochIsMonotone` | crates/cs-core/src/archive/epoch_keys.rs:82-92 | the epoch never goes back |
| `EpochKeys.EpochKeyManager.GetEpochKey` | crates/cs-core/src/archive/epoch_keys.rs:36-48 | the loop over the stored keys returns `EpochKey` |
| `EpochKeys.EpochKeyManager.Rotate` | crates/cs-core/src/archive/epoch_keys.rs:51-58 | the current key is wrapped and stored under its epoch, then the epoch advances |
| `EpochKeys.EpochKeyManager.PruneOldEpochs` | crates/cs-core/src/archive/epoch_keys.rs:67-73 | the last max(1, keep) entries stay |
| `EpochKeys.RotateKeepsContiguous` | crates/cs-core/src/archive/epoch_keys.rs:51-58 | the stored keys stay those of the epochs just below the current one |
| `EpochKeys.PruneKeepsNewest` | crates/cs-core/src/archive/epoch_keys.rs:67-73 | and pruning removes exactly the oldest |
| `EpochKeys.KeyOfEpoch` | crates/cs-core/src/archive/epoch_keys.rs:36-48 | an epoch has a key exactly when it is current or stored, and it is the key derived for it |
| `Archive.BuildSegment` | crates/cs-core/src/archive/segment_builder.rs:8-78 | the loop builds `SegmentOf` |
| `Archive.SegmentRoundTrip` | crates/cs-core/src/archive/segment_builder.rs:81-94 | a segment opens to its entries in order, each body to its text |
| `Archive.ArchiveCoordinator.ArchiveBatch` | crates/cs-core/src/archive/coordinator.rs:42-83 | upload, journal, cap check and queue, in this order |
| `Archive.ArchiveCoordinator.FinalizeEpoch` | crates/cs-core/src/archive/coordinator.rs:86-144 | a manifest of all pending segments; nothing moves unless its upload is acknowledged |
| `Archive.ArchiveCoordinator.MaybeRotate` | crates/cs-core/src/archive/coordinator.rs:147-158 | one rotation when the clock is ahead: the epoch moves by one exactly if the call reports it |
| `ArchiveRecords.CatchUp` | crates/cs-core/src/archive/coordinator.rs:147-158 | n calls bring the epoch on by n, but not past the clock, with a key stored for each epoch in between and nothing else changed |
| `ArchiveRecords.BatchAfterRotations` | crates/cs-core/src/archive/coordinator.rs:42-158 | a batch after them is built with the epoch they have reached |
| `ArchiveRecords.ManifestsTell` | crates/cs-core/src/archive/coordinator.rs:86-123 | over every run each listed segment is on the gateway, the reference has the digest and size of its frame, and the frame those of the plaintext it opens to |
| `ArchiveRecords.JournalTellsOfUploads` | crates/cs-core/src/archive/coordinator.rs:60-158 | over every run the journal tells of the manifests numbered from zero, the epochs rotated out one after the other, and the epoch and size of each segment; until it falls behind the list also the number of segments of each published manifest |
| `ArchiveSafety.ConservationIff` | crates/cs-core/src/archive/coordinator.rs:31-144 | over any run, restarts included, the listed segments followed by the pending ones are the returned ones in order, exactly when the books are balanced: no restart found anything pending but what a lost reply had listed, and after each lost reply a restart came before anything else was returned or stored |
| `ArchiveSafety.QuietRunIsBalanced` | crates/cs-core/src/archive/coordinator.rs:86-144 | which they are without lost replies and restarts, whatever uploads are refused |
| `ArchiveSafety.PendingIsBounded` | crates/cs-core/src/archive/coordinator.rs:70-80 | never more than a hundred pending |
| `ArchiveSafety.OverCapIsOrphaned` | crates/cs-core/src/archive/coordinator.rs:60-80 | an upload is left without an entry in the queue exactly when the cap is reached |
| `ArchiveSafety.OrphanIsNeverListed` | crates/cs-core/src/archive/coordinator.rs:60-144 | such a segment stays on the gateway and is never returned, queued or listed, however the run goes on |
| `ArchiveSafety.CapIsReached` | crates/cs-core/src/archive/coordinator.rs:70-80 | a hundred batches fill the queue |
| `ArchiveSafety.ChainHoldsIff` | crates/cs-core/src/archive/coordinator.rs:31-144 | over any run the manifests are numbered 0, 1, 2, ... and accepted exactly when none is stored after a lost reply or a restart that found manifests |
| `ArchiveSafety.ChainHolds` | crates/cs-core/src/archive/coordinator.rs:86-144 | until then the coordinator also stands at the end of the list, which starts at the zero hash |
| `ArchiveSafety.LostReplyForks` | crates/cs-core/src/archive/coordinator.rs:124-141 | the retry after a lost reply lists the same segments twice and breaks the chain |
| `ArchiveSafety.ReadableIff` | crates/cs-core/src/archive/epoch_keys.rs:31-73 | after any run every returned segment is on the gateway and reads back as archived, exactly when the key of its epoch has been neither pruned nor left behind by a restart |
| `ArchiveSafety.ReopenForgetsKeys` | crates/cs-core/src/archive/epoch_keys.rs:16-23 | after a restart exactly the segments of the epoch that the clock shows can be read |
| `ArchiveSafety.UnprunedIsReadable` | crates/cs-core/src/archive/coordinator.rs:42-158 | without pruning and restarts everything stays readable |
| `ShardCache.ShardCache.Get` | crates/cs-core/src/search/shard_cache.rs:32-47 | a hit returns the frame and moves its stamp to the counter |
| `ShardCache.ShardCache.Insert` | crates/cs-core/src/search/shard_cache.rs:50-78 | a full cache loses its oldest entry, unless the key is there |
| `ShardCache.TraceIsValid` | crates/cs-core/src/search/shard_cache.rs:24-94 | over every trace stamps differ, are behind the counter, and the size is at most max(1, max_entries) |
| `ShardCache.LargerCacheIncludesSmaller` | crates/cs-core/src/search/shard_cache.rs:32-78 | over every trace the larger of two caches has every entry of the smaller with the same frame and stamp, and answers at least as many gets |
| `ShardCache.TraceRefinesList` | crates/cs-core/src/search/shard_cache.rs:32-78 | the cache is a list that moves to the front and drops from the back |
| `MediaCache.MediaCache.Store` | crates/cs-core/src/media/cache.rs:31-45 | eviction if it does not fit, then the write and the counter |
| `MediaCache.MediaCache.EvictOldestUntilFit` | crates/cs-core/src/media/cache.rs:47-76 | removes files oldest first until the counter is at the target |
| `MediaCache.EvictsMinimalPrefix` | crates/cs-core/src/media/cache.rs:47-76 | what it removes is a minimal prefix of the files by age |
| `MediaCache.StoreKeepsNewest` | crates/cs-core/src/media/cache.rs:31-76 | the new file is there with its size and time, every other file as it was or evicted; none is evicted if there is room, none before an older one, and in the end the counter is in budget or the file alone |
| `MediaCache.StoreDrifts` | crates/cs-core/src/media/cache.rs:31-45 | an overwrite puts the counter ahead of the disk by the size of the old file, and a store never sets it back |
| `MediaCache.RunIsBounded` | crates/cs-core/src/media/cache.rs:31-92 | after any run that ends in a store, from any directory and counter, the bytes on disk are at most the file stored or the budget, less the lead of the counter at the start or more by its lag |
| `MediaCache.OpenedDiskIsBounded` | crates/cs-core/src/media/cache.rs:15-92 | from a directory with files, at most max(max_bytes, size just stored) and their size |
| `MediaCache.FullDirectoryDoubles` | crates/cs-core/src/media/cache.rs:15-45 | and one store into a full directory gets to twice the budget |
| `MediaCache.DiskIsBounded` | crates/cs-core/src/media/cache.rs:31-92 | from an empty directory, at most max(max_bytes, size just stored) |
| `MediaCache.OverwriteLosesBudget` | crates/cs-core/src/media/cache.rs:31-92 | what an overwrite costs is never regained |
| `PatternC.EncryptObject` | crates/cs-core/src/crypto/convergent.rs:99-156 | the chunk loop returns `Encrypted` |
| `PatternC.DecryptObject` | crates/cs-core/src/crypto/convergent.rs:160-214 | the cursor loop returns `Decrypted` |
| `PatternC.RoundTripIff` | crates/cs-core/src/crypto/convergent.rs:160-214 | what one chunk size encrypted another decrypts exactly when it is no smaller than the longest chunk and fits the length field |
| `PatternC.RoundTrip` | crates/cs-core/src/crypto/convergent.rs:99-214 | with one chunk size that fits, every plaintext comes back |
| `PatternC.CapacityIsExact` | crates/cs-core/src/crypto/convergent.rs:108-124 | the output is as long as what is reserved for it |
| `PatternC.ChunkIsSealedAt` | crates/cs-core/src/crypto/convergent.rs:125-155 | chunk j is at j frames into the stream, sealed under the nonce of index j, behind that nonce and its length |
| `PatternC.DecryptsIff` | crates/cs-core/src/crypto/convergent.rs:160-214 | a stream decrypts exactly if it is cut into frames that all open, and to their chunks in order; it fails to open exactly if such frames are followed by one that does not |
| `PatternC.DecryptConcat` | crates/cs-core/src/crypto/convergent.rs:160-214 | a concatenation of streams decrypts to the concatenation of their plaintexts |
| `PatternC.TruncationNoticedIff` | crates/cs-core/src/crypto/convergent.rs:160-214 | a truncated stream decrypts exactly when the cut is between frames, and then to a beginning of the plaintext |
| `CircuitBreaker.IsOpenAgreesWithState` | crates/cs-core/src/transport/circuit_breaker.rs:56-102 | a request is refused exactly in the state Open |
| `CircuitBreaker.CircuitBreaker.RecordFailure` | crates/cs-core/src/transport/circuit_breaker.rs:38-49 | the counter wraps at 2^32; at the threshold the time is noted |
| `CircuitBreaker.CircuitBreaker.AllowRequest` | crates/cs-core/src/transport/circuit_breaker.rs:56-79 | refuses exactly when `IsOpen` |
| `CircuitBreaker.CircuitBreaker.State` | crates/cs-core/src/transport/circuit_breaker.rs:82-102 | returns `StateOf` |
| `CircuitBreaker.SendsAreSpaced` | crates/cs-core/src/transport/circuit_breaker.rs:38-74 | over every run, on any clock, the counter is the failures since the last success, and a request after a full streak starts at least the recovery timeout after the failure before it |
| `CircuitBreaker.OpenAfterRunIff` | crates/cs-core/src/transport/circuit_breaker.rs:56-74 | when the breaker refuses after a run, on a positive clock: the streak is full and the recovery timeout has not passed since the last failure |
| `CircuitBreaker.NeverSticksIff` | crates/cs-core/src/transport/circuit_breaker.rs:56-74 | it lets a request through at some time exactly when its threshold is positive |
| `CircuitBreaker.OutageIsProbedSlowly` | crates/cs-core/src/transport/circuit_breaker.rs:38-74 | after the first `threshold` failures of an outage every further request costs a recovery timeout |
| `CircuitBreaker.KdriveTransport.SendWithRetry` | crates/cs-core/src/transport/kdrive_bridge.rs:123-176 | the loop does what `Retry` says to breaker, requests and sleeps |
| `CircuitBreaker.CallIsRun` | crates/cs-core/src/transport/kdrive_bridge.rs:123-176 | a call is a run of attempts of which all but the last go on, after their delay, and the last decides the response |
| `CircuitBreaker.CallSends` | crates/cs-core/src/transport/kdrive_bridge.rs:123-176 | at most max_retries + 1 requests, one sleep per retry, and never the error the loop starts with |
| `CircuitBreaker.CallRetriesExactly` | crates/cs-core/src/transport/kdrive_bridge.rs:123-176 | what is sent again is what got no reply, a 429 or a 5xx, until attempts run out; the last reply decides the response, by its status; sleeps start at the base delay and double up to thirty seconds |
| `CircuitBreaker.SleepIsBounded` | crates/cs-core/src/transport/kdrive_bridge.rs:153-170 | at most thirty seconds of sleep per retry |
| `CircuitBreaker.CallsAreSpaced` | crates/cs-core/src/transport/kdrive_bridge.rs:123-176 | the spacing holds across any number of calls through one breaker |

## Left out

Parts of the repository:

* The bindings, the configuration, HTTP, device registration and key derivation strings: plumbing, or easy.
* SQLite and its full-text `MATCH`: the tables are modelled, and the hits of `MATCH` are a parameter.
* The restore pipeline: it opens segments with another key than backup seals them with, so it is no inverse.
* `knowledge`, `models`, semantic and cold search, offline queue, quotas and hydration: stubs or easy.
* `send_media`: it stores a caption without indexing it, so it is not among the calls of a run.
* The budget check at the end of `ingest_remote_messages`: the offloading that it may start is a call of its own.

Stated less than one might want:

- FuzzySearch.CloseMessageIsMatched: says nothing of tokens all of whose shared grams may be ones that more than 200 live messages contain, because the query for such a gram returns any 200 of them.
- ArchiveSafety.ChainHolds: asks that no reply was lost and no restart found manifests, because it says more than the list; ChainHoldsIff is the exact condition for the list.
- BackupChain.ChainHolds: asks for backups one after the other, replies that arrive, and restarts that load a state saved in time, because these are what the callers control; ChainHoldsIff is without these conditions.

What the model simplifies:

* Concurrency: calls on the store, the caches and the breaker run one after the other.  Overlapping backups are modelled.
* How a snippet is cut from a text is a parameter of the search; the source slices bytes.
* Message and conversation ids are canonical UUIDs: the source searches by the parsed id, and what does not parse becomes the nil id.
* `u64` counters (generations, stamps, bytes) are unbounded; the `u32` failure counter and the 32-bit lengths are not.
* Floating point scores are reals, and lowercasing maps each character on its own.
* Statements whose errors are ignored (fuzzy rows, conversation activity) succeed, and a call reads the clock once.
* File operations of the media cache succeed.
* The archive state of a message is set to verified by its environment.
* The plan of the storage budget is any list of evictable ids; its byte counts and media tiers are not modelled.
* The wrapped keys that `finalize_epoch` collects are not in the manifest, because `build_manifest` drops them.
* The gateway returns the segment id that it was given; segment ids are never drawn twice.
* Serialising a manifest and hashing it do not fail.
* A retry delay that overflows a `Duration`, for a base delay of centuries, panics in the source.
