# Verified models of aexp

Dafny models of the parts of aexp that carry protocols, state machines, codecs and bookkeeping, with proofs about every
input, every run or every reachable state. `dafny verify dfyconfig.toml` checks all of it.

- `RunFeed`, `FeedProtocol`, `FeedServer`, `ActiveFeed`: the run-change feed. A client builds a replica of the run table
  from a snapshot, deltas and an event stream while other processes write between any two reads. Every interleaving
  keeps each run of the replica equal to the server row or covered by a change still to be delivered.
- `RemoteTree`, `Eviction`: managed eviction of dataset copies, on the file trees of physical hosts. As long as
  placements lie apart, no sequence of calls, failing ones included, loses the last live copy of a revision that was
  ever evicted.
- `Materialization`, `DestinationPath`: the record state machine behind dataset caches, its manager, and where on a
  resource a cache may go.
- `LogCodec`, `Splitters`: the tagging stream of the run wrapper and the scanners that read logs back, under any chunking.
- `SSHKeys`, `SSHPool`: the connection pool behind its read-write mutex, stepped thread by thread.
- `ShellQuote`: the shell printers against a reader for POSIX words (Shell Command Language, sections 2.2.1 to 2.2.3 of
  POSIX.1-2017 XCU).
- `BlockScalar`, `TrainConfig`: the train section of the project configuration, printed and read back.
- `Matrix`, `MatrixCheck`, `MatrixGrid`: setting one cell of an experiment matrix, the table that shows it, and the
  grid check of the server.
- `Chunking`, `CollectionTree`, `Publication`, `Validation`, `RevisionNames`, `RevisionFaults`, `Sampling`, `Selection`, `Canonicalize`: publishing a
  literature corpus as immutable revisions, checking one, and choosing what to index.
- `EventCache`: the local cache of event logs.
- `Outcomes`, `Text`, `Bytes`, `Seqs`, `Ordering`, `Arithmetic`: shared vocabulary.

Where the source works in place, a class or a method with loops is proved against a specification function, and the
laws are proved about that function. What the environment decides (the store, remote disks, transfer jobs, dialled
clients, hashes, JSON) is an argument, so every law holds whatever it decides.

## Where the code does less than it might seem

Each of these is a lemma with the exact condition.

- A listing of changes filtered by time may have gaps when there is no cursor to continue from; with a cursor the filter
  is not applied (`FeedProtocol.ListingIsGapFreeIff`).
- `buildExecCommand` passes a single argument on unquoted (`ShellQuote.BuildExecCommandRoundTripIff`).
- A printed multi-line command loses common indentation and the blanks of blank lines; a one-line command loses outer
  quotes and what looks like a comment, and a lone block marker is read as nothing
  (`TrainConfig.TrainSectionRoundTripIff`).
- A corpus row with a character such as U+0085 or U+2028, which JSON leaves unescaped, publishes but does not pass the
  check (`Validation.RowsReadBackIff`); a page label can hold one, since only texts and titles are cleaned.
- Rows that share digest and source name can make the canonical list depend on their order
  (`Canonicalize.CanonicalIgnoresOrderIff`). The revision check rules them out for a corpus that is indexed, since it
  asks for different base names (`Canonicalize.CheckedRowsIgnoreOrder`).
- A window of log lines that starts beyond the cached ones replaces the cache, and is renumbered from 1
  (`EventCache.WindowKeepsAnyLogIff`, `EventCache.RepeatIsNoOpIff`).
- A destination of a dot and a slash is the root of the resource (`DestinationPath.DestinationStaysInside`).
- Nothing keeps placements apart: an eviction costs every placement at the source, inside it or around it on the same
  host its bytes or its revision, under whatever resource and path it is registered (`Eviction.CopySurvivesIffApart`,
  `Eviction.NestedPlacementsLoseACopy`).
- Materializing a dataset at the place of its authoritative record demotes that record to a cache, so its bytes stay but
  justify no eviction any more (`Eviction.DemotionKeepsAuthoritativeIff`).
- Removing a host from the connection pool also removes entries whose key path or proxy contains its marker
  (`SSHKeys.RemovalMeetsIff`).

## Model

| member | source | states |
|---|---|---|
| RunFeed.MutationEvolves | internal/store/schema.sql:175-187 | a mutation keeps the log strictly increasing and explaining every row, and every row it changes has an entry beyond the old end of the log |
| RunFeed.MutationMeans | internal/store/schema.sql:175-187 | a write shows in its own row only and adds one entry for it behind all others; deleting an absent row does nothing |
| RunFeed.AfterSplits | internal/store/sqlite.go:844-855 | entries beyond a cursor distribute over appending to the log |
| RunFeed.AfterIsSuffix | internal/store/sqlite.go:844-855 | in a strictly increasing log the entries beyond a cursor are exactly one suffix of it |
| RunFeed.AfterContinues | internal/api/server.go:1408-1418 | continuing from the last sequence number of a delivered prefix lists exactly what follows that prefix |
| RunFeed.ApplyMeans | web/src/runSync.ts:48-57 | a client takes a delivered row, drops a deleted run, drops or keeps a run that comes without a row, and moves to the number of the entry |
| RunFeed.ListingMeans | internal/store/sqlite.go:836-872 | a listing is the first entries, 200 unless 1 to 1000 are asked for, of those beyond the cursor and, by time only when the cursor is 0, not older than the time given |
| RunFeed.LatestIsLargest | internal/store/sqlite.go:870-874 | the cursor of a log is its largest number, and 0 while it is empty |
| RunFeed.ApplyKeepsSync | web/src/runSync.ts:48-57 | applying one delivered entry keeps the replica in sync: each run equals the server row or has an entry beyond the new cursor, although the row delivered is the current one and may be missing |
| RunFeed.ApplyAllKeepsSync | web/src/runSync.ts:48-57 | applying a whole delta keeps the replica in sync and moves the cursor to its last entry |
| RunFeed.CaughtUpReplicaIsTable | internal/api/server.go:1389-1420 | a replica in sync with nothing beyond its cursor equals the run table |
| FeedProtocol.ListingIsGapFreeIff | internal/store/sqlite.go:839-852 | a listing is a prefix of the entries beyond the cursor for every log exactly when it has a cursor or no time filter |
| FeedProtocol.ListingIsComplete | internal/store/sqlite.go:836-856 | a listing holds all entries beyond the cursor if they fit the effective limit, and that many otherwise |
| FeedProtocol.StepKeepsInv | internal/api/server.go:1358-1473 | every step of a snapshot, a delta or an event stream, with writers before and after it, keeps the client in sync and what is in flight sound and gap-free |
| FeedProtocol.RunsKeepSync | internal/api/server.go:1358-1473 | the same over every run of interleaved steps |
| FeedProtocol.AtAnyTime | internal/api/server.go:1358-1473 | at any time something may be written, or a request given up with the client left as it is |
| FeedProtocol.SnapshotIsARun | internal/api/server.go:1358-1376 | a snapshot gets through whatever is written between its reads: the client has the rows of the second read and the cursor of the first |
| FeedProtocol.QuietPollIsARun | internal/api/server.go:1389-1420 | a delta with no write in between is a run of the machine: the listing, a read of each row it names, the delivery |
| FeedProtocol.StreamGoesOn | internal/api/server.go:1449-1473 | a stream reads and delivers entry by entry, and lists on behind the last one sent |
| FeedProtocol.ClientsConverge | internal/api/server.go:1358-1420 | in every interleaving from a client without state: each run equals the server row or an undelivered change for it lies beyond the cursor, so a caught-up replica equals the table |
| FeedProtocol.QuietPollAdvances | internal/api/server.go:1403-1419 | one delta with no write in between moves the client past exactly the entries listed and keeps it in sync |
| FeedProtocol.QuietPollsReachTable | internal/api/server.go:1389-1420 | with the writers quiet, enough deltas to cover what is pending make the replica equal to the table |
| FeedProtocol.CursorAfterRowsLosesWrites | internal/api/server.go:1360-1365 | had the snapshot read its cursor after its rows, a write in between would be lost: the replica is out of sync although nothing lies beyond its cursor |
| FeedProtocol.AdoptingIsSafeIff | web/src/App.tsx:362-366 | resuming a snapshot replica from the larger of its own cursor and another keeps every such replica in sync exactly when the other cursor is not ahead |
| FeedServer.RunServer.HandleListRunSummaries | internal/api/server.go:1358-1376 | whatever other writers do between its reads, the page with its cursor is in sync with the table at the end, and the cursor lies between the log ends before and after |
| FeedServer.RunServer.HandleListActiveRunSummaries | internal/api/server.go:1315-1338 | the page of active runs with its cursor: each run is on it exactly as it is active at the end, or a change for it lies beyond the cursor |
| ActiveFeed.ApplyActiveKeepsSync | web/src/runSync.ts:49-57 | applying one delivered entry puts the run on the list of active runs, or takes it off, so that the list stays in sync although the row delivered is the current one |
| ActiveFeed.ActiveListConverges | web/src/runSync.ts:48-57 | a snapshot of active runs brought up to the end of the log is exactly the list of active runs |
| FeedServer.RunServer.HandleListRunChanges | internal/api/server.go:1389-1420 | the delta is a gap-free run of entries beyond the cursor, each with a sound current row, and next_seq is the last of them, or the cursor itself when there are none |
| FeedServer.RunServer.WriteChanges | internal/api/server.go:1449-1473 | one replay of the stream extends what was sent by the next entries of the log without gap or duplicate: 200 of them, or all that were logged before the call |
| FeedServer.RunServer.HandleRunChangeStream | internal/api/server.go:1422-1473 | the ids sent on one connection are exactly the next entries beyond the query cursor, or beyond the Last-Event-ID header when that is 0, in order, for any arrival of writes; n replays that succeed send 200 n of them or all that were logged when the connection began |
| FeedServer.OneConnectionExtends | web/src/runChanges.ts:42-74 | what a client accepts from one more connection takes its entries from the old high-water mark to the new one, exactly |
| FeedServer.ReconnectsDeliverExactlyOnce | web/src/runChanges.ts:42-74 | over any connections that do not resume ahead of the client, the entries applied are exactly the log from the first cursor to the last, each once and in order |
| Eviction.PlanSucceedsIff | internal/filespace/eviction.go:25-82 | a plan is made exactly when the chosen source can be read live and some other authoritative record claims the revision and its live tree has it |
| Eviction.SelectionIsAsked | internal/filespace/service.go:257-282 | the placement chosen is the earliest listed one on the resource named, or the default when only that is there; with no resource named the earliest of the best role; it is refused exactly when there is none |
| Eviction.PlanMeans | internal/filespace/eviction.go:25-95 | a plan names that placement, the revision its bytes have now and the earliest record that justifies the eviction |
| Eviction.PlanIsAsked | internal/filespace/eviction.go:25-95 | and whatever placement, live revision and earliest keeper are as asked, they are the plan |
| Eviction.PlanRefusedFor | internal/filespace/eviction.go:25-82 | which refusal comes of what: no placement on the resource, no resource, a path outside, a failing look, nothing there, no live copy |
| Eviction.RemovedWhereAsked | internal/filespace/eviction.go:97-142 | a successful call removed the tree of the placement asked for, on the resource named, and marked its record and no other |
| Eviction.EvictAnswers | internal/filespace/eviction.go:97-142 | which answer a call gives, and that it succeeds exactly when the plan is confirmed and the bytes are removed and recorded |
| RemoteTree.PutElsewhere | internal/filespace/remote.go:98-143 | a change at one location leaves every location apart from it as it was |
| RemoteTree.RemovalShows | internal/filespace/remote.go:98-143 | a removal leaves nothing inside the removed tree and makes every directory around it another one |
| RemoteTree.PutShows | internal/filespace/remote.go:98-143 | what is written at a place with no file on the way is what lies there |
| Eviction.KeeperFound | internal/filespace/eviction.go:57-82 | the keeper of a plan is listed, is not the source, holds the revision live, and no earlier placement does |
| Eviction.TouchingNeedsKeeper | internal/filespace/eviction.go:57-127 | a call that gets as far as touching bytes has another placement of the path with the same live revision at another location |
| Eviction.HoldsUnlessSource | internal/filespace/eviction.go:97-142 | with placements apart, a record that pointed at live bytes still does after a call, with its role, unless it is the source of the call |
| Eviction.EvictKeepsLiveCopies | internal/filespace/eviction.go:97-142 | with placements apart, no call, however it ends, costs any path a revision that has a live copy, or a live authoritative one |
| Eviction.EvictedRevisionSurvives | internal/filespace/eviction.go:97-142 | after a call that touched anything the revision still has a live authoritative copy |
| Eviction.SuccessMeansGone | internal/filespace/eviction.go:97-142 | a call that reports success left nothing at the source of the confirmed plan, nothing else apart from it touched, and marked exactly its record; any other call changed no record unless nothing is left at the source |
| Eviction.NothingEvictedIsLost | internal/filespace/eviction.go:97-142 | over any run of evictions with their failures, probes, new placements, records saved with other roles and transfers, every revision ever evicted from a path keeps a live copy there, and a live authoritative one as long as no authoritative record is demoted |
| Eviction.EvictedStaysLive | internal/filespace/eviction.go:97-142 | whatever one call evicts, whether it succeeds or fails half way, still has a live copy under its path after any run behind it |
| Eviction.LiveCopiesStay | internal/filespace/eviction.go:97-142 | a live copy outlives any run, an authoritative one any run without demotions |
| Eviction.DemotionKeepsAuthoritativeIff | internal/dataset/service.go:343-360 | saving an authoritative record as a cache, as recording a materialization at its place does, costs a revision its authoritative copy exactly when no other authoritative record holds it; its bytes stay |
| Eviction.StaleRecordIsNoKeeper | internal/filespace/eviction.go:57-79 | a stale record that claims present bytes does not justify an eviction, because keepers are stat-ed and hashed live |
| Eviction.AliasedPlacementsLoseTheLastCopy | internal/filespace/eviction.go:57-79 | two placements at one place break the safety: a concrete space where the last copy goes |
| Eviction.NestedPlacementsLoseACopy | internal/filespace/remote.go:98-143 | so do placements inside one another: evicting a cached part of a data set changes the data set, which was the only copy of its revision |
| Eviction.CopySurvivesIffApart | internal/filespace/eviction.go:97-142 | of all records that hold bytes, a successful removal costs exactly those at the source, inside it or around it on the same host |
| Eviction.KeeperSurvivesIffApart | internal/filespace/eviction.go:57-127 | the keeper of a plan outlives the removal exactly when neither it nor the source lies inside the other |
| Eviction.FirstByPriorityIsEarliest | internal/filespace/service.go:276-282 | the chosen placement has the best priority and is the earliest that has it |
| Eviction.RemovalIsLocal | internal/filespace/remote.go:98-143 | however a removal ends, live bytes apart from it stay as they are, only bytes of the expected revision are touched, and success leaves nothing at the place |
| Eviction.RemovalLeaves | internal/filespace/remote.go:98-143 | which removals succeed, and what each outcome leaves at the place and beside it |
| Eviction.FileSpaceService.PlanEviction | internal/filespace/eviction.go:25-95 | for every failure of the environment the loop over placements returns the plan for the placement asked for, as `PlanMeans` and `PlanIsAsked` tell it, or the refusal of `PlanRefusedFor` |
| Eviction.FileSpaceService.EvictPlacement | internal/filespace/eviction.go:97-142 | after every refusal and partial failure the disks, records and answer are those the safety lemmas, `RemovedWhereAsked` and `EvictAnswers` are about |
| Materialization.ReadyMeansPinned | internal/dataset/service.go:136-334 | in every interleaving of requests, manager passes, evictions and job progress, with saves delayed at will, a Ready record carries the pinned revision of its dataset, and a recorded cache placement that of the dataset whose materialization recorded it |
| Materialization.StepKeepsSound | internal/dataset/service.go:136-334 | one step of that machine keeps every record, every cache placement and every save still under way sound |
| Materialization.OutcomesSound | internal/dataset/service.go:188-334 | whatever a look at the destination shows, materializing and verifying never decide on a Ready record with another revision |
| Materialization.MaterializeMeans | internal/dataset/service.go:148-225 | a record becomes ready exactly when the pinned revision is found at the destination, or nothing is there and the created job is complete; each other look gives its own error or a transfer |
| Materialization.VerifyMeans | internal/dataset/service.go:274-334 | a verified record is ready exactly when the pinned revision is found; another revision, a missing tree and a failing look each leave their own state and error |
| Materialization.ReconcileMeans | internal/dataset/service.go:227-269 | the record follows its job: ready exactly when it is complete, failed with its error exactly when it failed, was blocked or was cancelled, verifying exactly when it verifies or promotes, transferring otherwise |
| Materialization.ReconcileSkips | internal/dataset/service.go:227-240 | without a job, dataset or resource a reconciliation changes nothing |
| Materialization.EvictedMeans | cmd/aexp/dataset_cmd.go:220-226 | the record of an evicted cache keeps its place and its transfer, is failed, and names no revision |
| Materialization.ReadyIsBacked | internal/dataset/service.go:136-334 | over any run a ready record comes from a job that was complete or from a look that found the pinned revision at its destination |
| Materialization.ReconcileSettlesIff | internal/dataset/service.go:227-269 | reconciling a record takes it out of flight exactly when its job has ended and its dataset and resource are there |
| Materialization.PassSettles | internal/dataset/manager.go:62-79 | after an error-free pass an in-flight record is still in flight exactly when its job is gone or unfinished or its dataset or resource is gone |
| Materialization.PassReconcilesEach | internal/dataset/manager.go:62-79 | a pass reconciles each record that is transferring or verifying with a job, once, and leaves the others as they are |
| Materialization.BeginsAndLands | internal/dataset/service.go:188-334 | what a request decides lands, with its cache placement, when its save does |
| Materialization.RequestsAreBegun | internal/dataset/service.go:136-334 | each request begins the save of the record it decides on |
| Materialization.ReconcileIsARun | internal/dataset/service.go:227-269 | a reconciliation that is not interrupted is the one the manager makes |
| Materialization.OnePassSettlesEverything | internal/dataset/manager.go:62-79 | once every referenced job exists and has ended, one error-free pass leaves nothing in flight and any later pass changes nothing |
| Materialization.DatasetService.Materialize | internal/dataset/service.go:136-225 | the new records and caches and the answer that `MaterializeMeans` tells, for every probe of the destination, created job and failing save |
| Materialization.DatasetService.ReconcileMaterialization | internal/dataset/service.go:227-269 | the new records and caches that `ReconcileMeans` and `ReconcileSkips` tell, with and without failing saves |
| Materialization.DatasetService.Verify | internal/dataset/service.go:274-334 | the new records and caches and the answer that `VerifyMeans` tells, for every probe and failing save |
| Materialization.DatasetService.ManagerPass | internal/dataset/manager.go:62-79 | the loop reconciles each listed record as `ReconcileMeans` tells, and leaves the records of which `PassSettles` and `OnePassSettlesEverything` speak |
| DestinationPath.DestinationStaysInside | internal/dataset/service.go:362-384 | the destination is the root followed by the segments of the result, which has no parent segment; it is the root itself exactly when every segment asked for is empty or a dot |
| DestinationPath.AbsoluteRequestIff | internal/dataset/service.go:367-373 | an absolute request is taken exactly when it lies strictly below an absolute root, segment by segment, with no forbidden character below it; the destination is then the request, cleaned; the root itself is unsafe and anything else escapes |
| DestinationPath.RelativeRequestIff | internal/dataset/service.go:374-383 | a relative request is taken exactly when it is no lone dot and has no parent segment and no forbidden character; the destination is the root followed by its other segments |
| DestinationPath.DefaultDestinationIff | internal/dataset/service.go:363-383 | without a request the destination is below the root where datasets, id and version lead, unless they lead nowhere, out of it or through a forbidden character |
| DestinationPath.ParentTakesBack | internal/dataset/service.go:368-383 | cleaning lets a parent segment take back the segment before it, and drops it at the root |
| DestinationPath.DotSlashIsTheRoot | internal/dataset/service.go:374-383 | a dot followed by a slash is taken and yields the root itself, although a dot alone is refused |
| DestinationPath.ParseOfRender | internal/dataset/service.go:382-383 | cleaning is idempotent: a cleaned path reads back as the same segments |
| DestinationPath.PrefixIffBelow | internal/dataset/service.go:369 | comparing cleaned texts by prefix and slash is comparing segments |
| LogCodec.EncoderIsTagged | internal/executor/wrapper.go:33-60 | for every input the encoder output is the declarative form: split on CRLF, CR or LF, tag each line, end it with a line feed, tag a non-empty rest |
| LogCodec.OneLineIsTagged | internal/executor/wrapper.go:33-60 | one line, however it ends, becomes its tag in brackets, a space, its bytes and a line feed |
| LogCodec.BeforeEOFMeans | internal/executor/wrapper.go:35-38 | reading stops at the first empty read |
| LogCodec.EncodeAppend | internal/executor/wrapper.go:33-60 | the encoder state carries everything across a chunk boundary, a split CR and LF included |
| LogCodec.EncodeChunk | internal/executor/wrapper.go:39-54 | one chunk extends the encoding of everything before it, whatever state it was cut in |
| LogCodec.LogFile.WriteAll | internal/executor/wrapper.go:55-59 | short writes are repeated until all bytes are appended, or a failure leaves a prefix |
| LogCodec.PrefixStream | internal/executor/wrapper.go:34-60 | whatever the chunking, the file receives the tagged form of the whole input, or a prefix of it when a write fails |
| LogCodec.LogRoundTrip | internal/executor/ssh_pool.go:479-493 | reading the file back through the log splitter, under any chunking, gives exactly the tagged lines and the tagged rest |
| Splitters.RunSplitLogTokens | internal/executor/ssh_pool.go:479-489 | the loop stops at the first break byte, or takes the rest at the end of the input |
| Splitters.RunSplitCommandRecords | internal/executor/ssh_pool.go:407-421 | the loops stop at the first break byte and advance over the whole run of breaks behind it |
| Splitters.TrimIsIdentityInSplit | internal/executor/ssh_pool.go:491-493 | trimming carriage returns changes nothing at either call site |
| Splitters.LogScanIgnoresChunks | internal/executor/ssh_pool.go:479-489 | a scanner with the log splitter yields the lines of the whole input, wherever chunk boundaries fall |
| Splitters.RecordScanIgnoresChunks | internal/executor/ssh_pool.go:407-421 | a scanner with the record splitter yields the non-empty lines of the whole input, apart from empty records, wherever chunk boundaries fall |
| Splitters.SplittersAgree | internal/executor/ssh_pool.go:407-421 | both splitters yield the same non-empty tokens in the same order, each under its own chunking |
| Splitters.RecordsDependOnChunks | internal/executor/ssh_pool.go:407-421 | empty records do depend on the chunking: two concrete chunkings of the same bytes |
| SSHKeys.KeyContainsMarker | internal/executor/ssh_pool.go:139-141 | every key for a host and port contains the marker that a removal by host looks for, whatever the other parts |
| SSHPool.RunsKeepInv | internal/executor/ssh_pool.go:58-137 | every interleaving of threads keeps the lock discipline, the shared state and what readers hold consistent |
| SSHKeys.RemovalMeetsIff | internal/executor/ssh_pool.go:262-272 | a removal by host meets an entry exactly when it is for that host and port, or its key path or proxies contain the marker |
| SSHKeys.ProxyIsMetToo | internal/executor/ssh_pool.go:262-272 | a proxy command that names another host is met: a concrete entry of one host removed for another |
| SSHPool.SectionIsOwnWork | internal/executor/ssh_pool.go:74-136 | while a thread holds the write lock, what is shared changes by its own steps only, whatever other threads do |
| SSHPool.GetSectionIsGetLocked | internal/executor/ssh_pool.go:74-136 | in every interleaving, what a lookup does between taking the lock and giving it back is what `GetLocked` does with some dial |
| SSHPool.AfterGetMeans | internal/executor/ssh_pool.go:74-136 | a lookup hands out the client its key had, or else the one dialled, and that is the one the key has afterwards; other keys keep theirs |
| SSHPool.LookupKeepsItsKey | internal/executor/ssh_pool.go:58-136 | from its start to its return a lookup is for the key it was started with, whatever other threads do |
| SSHPool.HitReturns | internal/executor/ssh_pool.go:62-71 | a client found under the read lock is handed out at once and nothing but that lock is given back |
| SSHPool.LookupGetsThrough | internal/executor/ssh_pool.go:58-136 | with the lock free a lookup on its own ends, leaves the key with the client it had or with the one dialled, and gives the lock back |
| SSHPool.RemovalGetsThrough | internal/executor/ssh_pool.go:240-272 | so does a removal, which takes out exactly what it matches |
| SSHPool.AfterRemoveMeans | internal/executor/ssh_pool.go:240-272 | a removal takes out by host every key with the marker, by key that key, or all, and closes the clients of exactly those |
| SSHPool.RemoveSectionIsRemoveLocked | internal/executor/ssh_pool.go:240-272 | and what a removal does is what `RemoveLocked` does, in whatever order the entries go |
| SSHPool.PoolIsConsistent | internal/executor/ssh_pool.go:58-137 | in every interleaving: with the write lock free the open clients are exactly the values of the map, one per key; dials of a key never exceed its removals by more than one; a removal ends with no entry for that host and port, or that key, or any; what a lookup hands out is the client its own key has |
| SSHPool.StepKeepsLocks | internal/executor/ssh_pool.go:240-272 | one step of any thread keeps at most one writer and no reader beside it |
| SSHPool.ConnPool.GetLocked | internal/executor/ssh_pool.go:74-136 | the section after the second check: an entry there already is returned, a new client is entered only when the dial succeeds, as `AfterGetMeans` tells |
| SSHPool.ConnPool.RemoveLocked | internal/executor/ssh_pool.go:240-272 | exactly the matching entries leave the map and exactly their clients are closed |
| ShellQuote.JoinShellArgs | cmd/aexp/main.go:7663-7669 | the loop prints every argument in single quotes, joined by blanks |
| ShellQuote.ShellJoin | cmd/aexp/main.go:650-656 | the loop prints every argument, quoted unless it is safe, joined by blanks |
| ShellQuote.SafeCharacters | cmd/aexp/main.go:658-668 | which characters are safe, one by one |
| ShellQuote.RunBuildExecCommand | cmd/aexp/main.go:11785-11794 | the command for any argument list and mode |
| ShellQuote.JoinShellArgsRoundTrip | cmd/aexp/main.go:7663-7669 | a POSIX word reader gives back exactly the arguments, for every list of strings |
| ShellQuote.ShellJoinRoundTrip | cmd/aexp/main.go:650-668 | the same for the printer that leaves safe arguments unquoted |
| ShellQuote.NestedRoundTrip | cmd/aexp/main.go:7663-7669 | an argument that is itself a joined command reads back twice |
| ShellQuote.DoubleQuotedReads | cmd/aexp/main.go:650-668 | the word reader, which the second printer leads into double quotes, reads any text escaped for them as that text |
| ShellQuote.ReadsAsItselfIff | cmd/aexp/main.go:11774-11783 | unquoted text reads as one word equal to itself exactly when it is not empty and has no character special to the shell |
| ShellQuote.BuildExecCommandRoundTripIff | cmd/aexp/main.go:11785-11798 | outside shell mode a list reads back exactly when it is not a single argument, or that argument reads as itself |
| ShellQuote.ShellModeIsUnquoted | cmd/aexp/main.go:11774-11787 | in shell mode the arguments are passed on as they are, one after the other with a blank between them |
| BlockScalar.CollectProjectBlockScalar | cmd/aexp/main.go:5997-6031 | the index loops find the longest block and dedent it by its least indentation; a block of blank lines gives nothing and the index before it |
| BlockScalar.AppendProjectTrainConfig | cmd/aexp/main.go:2618-2635 | what is appended for safe, unsafe, one-line and multi-line commands; `TrainConfig.TrainSectionRoundTripIff` and `TrainConfig.CommentedReadsAsNothing` say what the reader makes of it |
| BlockScalar.CallerProgresses | cmd/aexp/main.go:5272-5274 | the returned index is never below start - 1 and never past the input |
| BlockScalar.NoLineIsShorterThanIndent | cmd/aexp/main.go:6024-6028 | every line that is not blank starts with the block indentation, so the branch for shorter lines is never taken |
| BlockScalar.MinIndentIsLeast | cmd/aexp/main.go:5998-6014 | the block indentation is the least of the lines that are not blank, and one of them has it |
| BlockScalar.SplitPrinted | cmd/aexp/main.go:2621-2629 | the printed text splits into the header, the indented lines of the command and a line that ends the block |
| BlockScalar.ReadBack | cmd/aexp/main.go:5997-6031 | reading what was printed gives the value of the unindented lines, and the index of the last line of the block |
| BlockScalar.BlockScalarRoundTripIff | cmd/aexp/main.go:2618-2630 | a multi-line command survives printing and reading, up to trailing newlines, exactly when a line that is not blank starts in column 0 and no line consists of white space only |
| TrainConfig.StripProjectConfigComment | cmd/aexp/main.go:5961-5981 | the loop with its two quote flags cuts at the first number sign outside quotes that is first or behind a blank |
| TrainConfig.StripCommentMeans | cmd/aexp/main.go:5961-5981 | what is left of a line ends in front of the first number sign that no quote is open at and that is first or behind a blank, without the blanks in front of it |
| TrainConfig.FieldValue | cmd/aexp/main.go:5258-5274 | a field is read as its text before any comment, trimmed and without outer quotes, or as the block behind it |
| TrainConfig.OneLineRoundTripIff | cmd/aexp/main.go:2627 | a command of one line reads back exactly when it has no white space around it, no comment in it, no quotes around it, and is not the marker of a block |
| TrainConfig.BlockFieldRoundTripIff | cmd/aexp/main.go:2621-2626 | a command of several lines is announced by its header and reads back under the condition of the block |
| TrainConfig.TrainSectionRoundTripIff | cmd/aexp/main.go:2618-2630 | of the section printed for a safe command, the command field reads back up to trailing newlines exactly under those conditions |
| TrainConfig.CommentedReadsAsNothing | cmd/aexp/main.go:2632-2634 | from the section printed for an unsafe or blank command nothing is read |
| Matrix.FindLabelIsFirst | cmd/aexp/main.go:4804-4809 | the row or column found is the first whose trimmed label matches up to case, and none is found exactly when none matches |
| Matrix.EnsuringAgainIff | cmd/aexp/main.go:4804-4834 | asking again finds the same entry and adds nothing, exactly when the label was known or survives trimming |
| Matrix.AbsorbedFields | cmd/aexp/main.go:4836-4868 | which of the replaced cells the written cell has its id, texts, run and card from |
| Matrix.AbsorbedData | cmd/aexp/main.go:4861-4863 | its data is that of the last replaced cell with any |
| Matrix.ExactlyOneCell | cmd/aexp/main.go:4848-4870 | afterwards exactly one cell sits at the written position even if duplicates existed, and every other position holds the cells it held, in order |
| Matrix.CellDisplay | cmd/aexp/main.go:4893-4903 | the lookup shows the first cell at the position, and nothing when there is none |
| Matrix.DisplayShowsWrittenIff | cmd/aexp/main.go:4893-4903 | the lookup shows the written value exactly when a run id column does not show another run, and the value is not blank or nothing stands in for it |
| Matrix.ResolvedMeans | cmd/aexp/main.go:4701-4738 | whatever is asked, what gets through has labels, a value that is not blank, an existing run if any, and in a run id column the run as its value |
| Matrix.SetThenShows | cmd/aexp/main.go:4739-4741 | in every grid, the value that got through is what the table then shows at its row and column |
| Matrix.SetMeans | cmd/aexp/main.go:4701-4741 | told from the request: which one is refused for what; otherwise the table shows, at the first row and column whose trimmed labels match those asked for or at new last ones, the value asked for, or the run when it is blank or the column holds runs; run and card are those asked for, looked up, or kept; every other cell stays |
| Matrix.ShownMeans | cmd/aexp/main.go:4893-4903 | a cell shows its run in a run id column, otherwise the first of value, statement, title, note and run that is not blank |
| Matrix.RunIdColumnIff | cmd/aexp/main.go:4914-4916 | a run id column is one whose trimmed label folds to run_id, with a blank standing for an underscore |
| Text.TrimSpaceBares | cmd/aexp/main.go:4702-4706 | trimming takes the white space around a text and nothing else |
| MatrixCheck.CheckIff | internal/api/server.go:3825-3896 | the check passes exactly the grids with ids and labels, distinct ids, and cells whose rows, columns and runs exist |
| MatrixCheck.FaultIsFirst | internal/api/server.go:3825-3896 | the fault reported is the first: rows before columns before cells, and of each the first that lacks an id or label, repeats an id, or refers to what is not there |
| MatrixCheck.RewritingMeans | internal/api/server.go:3825-3870 | white space around ids and labels goes, the matrix is named, blank data becomes an empty object; everything else stays |
| MatrixCheck.CheckedIsStable | internal/api/server.go:3825-3896 | checking the rewritten grid gives the same answer and rewrites nothing more |
| MatrixCheck.EnsuringKeepsSound | cmd/aexp/main.go:4804-4834 | adding a row or column with a fresh id keeps the axis sound and its ids |
| MatrixCheck.UpsertKeepsSound | cmd/aexp/main.go:4836-4871 | replacing cells keeps ids distinct and references valid |
| MatrixCheck.SetKeepsSound | cmd/aexp/main.go:4739-4741 | a grid the server accepts is still accepted after any set command that gets through |
| MatrixGrid.Grid.EnsureRow | cmd/aexp/main.go:4804-4818 | the row returned is the one `FindLabelIsFirst` characterises, or a new last row; no other row changes |
| MatrixGrid.Grid.EnsureColumn | cmd/aexp/main.go:4820-4834 | the column returned is the one `FindLabelIsFirst` characterises, or a new last column; no other column changes |
| MatrixGrid.Grid.UpsertCell | cmd/aexp/main.go:4836-4871 | the filter that writes over the array it reads leaves exactly the other cells in order and the written one, in place while there is room |
| MatrixGrid.Grid.Set | cmd/aexp/main.go:4701-4741 | the new grid and the cell, or the error and an unchanged grid, exactly as the request asks, as `Matrix.SetMeans` tells it |
| MatrixGrid.Grid.Validate | internal/api/server.go:3825-3896 | it reports the fault of `FaultIsFirst` and none exactly for the sound grids of `CheckIff`; without one every part is rewritten, with one each part is rewritten or as it was |
| Chunking.ChunkText | integrations/zotero_lightrag/publish_corpus.py:101-109 | the cursor loop ends, for overlaps of the size and more too, and yields the chunks that `ChunkAt` locates |
| Chunking.ChunkAt | integrations/zotero_lightrag/publish_corpus.py:101-109 | chunk i starts at i strides; all have full size but the last, which reaches the end |
| Chunking.NeighboursOverlap | integrations/zotero_lightrag/publish_corpus.py:101-109 | neighbours share exactly the effective overlap: the smaller of the overlap and the size less one |
| Chunking.ChunksRebuildText | integrations/zotero_lightrag/publish_corpus.py:101-109 | the first chunk followed by the others without their shared characters is the text |
| Chunking.ChunkCount | integrations/zotero_lightrag/publish_corpus.py:101-109 | the number of chunks is 1 + ceil((n - size) / stride) when n exceeds the size |
| Chunking.ChunksOverlap | integrations/zotero_lightrag/publish_corpus.py:101-109 | each chunk starts the overlap before the end of the one before, or one character after its start when the overlap is no smaller than the size |
| Chunking.PageIsCut | integrations/zotero_lightrag/publish_corpus.py:112-115 | a page is cut at multiples of 1180 characters into chunks of 1400, so that neighbours share 220 |
| Chunking.PageChunks | integrations/zotero_lightrag/publish_corpus.py:112-115 | the loops yield the entries that `KeysIncrease` and `EntriesOfPage` describe, for any text and cleaning |
| Chunking.KeysIncrease | integrations/zotero_lightrag/publish_corpus.py:112-115 | page and chunk numbers come in strictly increasing lexicographic order |
| Chunking.EntriesOfPage | integrations/zotero_lightrag/publish_corpus.py:112-115 | the entries of a page are exactly the chunks of its text, numbered from 0 |
| CollectionTree.AllPages | integrations/zotero_lightrag/publish_corpus.py:118-127 | the paging loop ends and returns what the server lists |
| CollectionTree.ItemKey | integrations/zotero_lightrag/publish_corpus.py:177-178 | the key of a record is its own unless that is missing or empty, and otherwise that of its data |
| CollectionTree.ListingIsCompleteIff | integrations/zotero_lightrag/publish_corpus.py:118-127 | the whole listing comes back exactly when the server sends pages as long as asked for or the listing fits one of its pages |
| CollectionTree.ReadTree | integrations/zotero_lightrag/publish_corpus.py:181-195 | on any finite, possibly cyclic child relation the worklist ends and returns each collection reachable from the root exactly once, nearer ones first; an empty root key gives nothing |
| CollectionTree.VisitKeepsInv | integrations/zotero_lightrag/publish_corpus.py:186-194 | visiting a new key keeps the two-level order of the worklist, reachability, and that every child of a visited key is visited or waiting at its distance |
| CollectionTree.SiblingsInOrder | integrations/zotero_lightrag/publish_corpus.py:194 | the children of a collection are taken in the order of their keys |
| CollectionTree.FinishedWalk | integrations/zotero_lightrag/publish_corpus.py:186-195 | an empty worklist means the visited keys are exactly the reachable ones, at their shortest distances |
| Publication.OutputRoot.PublishCorpus | integrations/zotero_lightrag/publish_corpus.py:394-420 | directories and answer are those of `PublishMeans` and, under names that tell hashes apart, of `RevisionNames.DifferentHashesDifferentDirectories`; documents and provenance are taken out of the payload, when both are there, even when the call then fails |
| Publication.AnswerMeans | integrations/zotero_lightrag/publish_corpus.py:413-418 | an existing revision is found again exactly when its manifest can be read and carries the hash; otherwise the call fails, and says which it was |
| Publication.LineBreaksAre | integrations/zotero_lightrag/validate_revision.py:41 | the characters that splitlines breaks at, one by one |
| Validation.RunValidate | integrations/zotero_lightrag/validate_revision.py:24-51 | the loops pass exactly the directories of `RevisionFaults.DirectoryPassesIff`, and otherwise name a fault that is there, of artifacts the first missing, missized or altered one |
| Validation.ArtifactsHoldIff | integrations/zotero_lightrag/validate_revision.py:33-40 | no fault of an artifact is met exactly when all are there with their size and digest |
| RevisionFaults.DirectoryPassesIff | integrations/zotero_lightrag/validate_revision.py:24-51 | any directory passes exactly when its manifest seals itself, its artifacts are there as described, and its rows are as many as counted, all with provenance and under different base names |
| RevisionFaults.PassedSummary | integrations/zotero_lightrag/validate_revision.py:51 | and the summary names that revision and hash and the numbers of rows and provenance entries |
| RevisionFaults.ReportedFaultIsThere | integrations/zotero_lightrag/validate_revision.py:24-50 | every fault that is reported is there |
| Validation.LinesAre | integrations/zotero_lightrag/validate_revision.py:41 | rows are what lies between line breaks, without the empty ones |
| Validation.RowsReadBackIff | integrations/zotero_lightrag/validate_revision.py:41 | the rows file reads back as the rows exactly when no encoded row holds a character that splitlines breaks at; otherwise reading fails |
| Validation.SeparatorBreaksRow | integrations/zotero_lightrag/validate_revision.py:41 | a concrete row with a line separator in its source name: published, it does not pass |
| Validation.StagedPassesIff | integrations/zotero_lightrag/validate_revision.py:24-51 | a published revision passes the check exactly when its payload has no seal key, the right count, full provenance, distinct base names and no such character in a row |
| Validation.SameHashSameFiles | integrations/zotero_lightrag/publish_corpus.py:409-420 | one manifest hash pins down all three files |
| Validation.PublishMeans | integrations/zotero_lightrag/publish_corpus.py:394-420 | a call adds one directory, or finds the very files it would write, or fails with a conflict; no other directory changes; `RevisionNames.RevisionNamesIff` says which directory |
| RevisionNames.RevisionNamesIff | integrations/zotero_lightrag/publish_corpus.py:409-412 | two hashes name one directory exactly when their first 20 characters agree |
| RevisionNames.DifferentHashesDifferentDirectories | integrations/zotero_lightrag/publish_corpus.py:394-420 | over any calls whose hashes differ within the first 20 characters, from an empty root, no call conflicts, each answers with its own name, and there is one directory with its files for each hash |
| Validation.RevisionsNeverChange | integrations/zotero_lightrag/publish_corpus.py:394-420 | over any calls every revision that is there stays as it is |
| Validation.EveryRevisionPasses | integrations/zotero_lightrag/publish_corpus.py:394-420 | over any calls with good payloads every revision passes the check under its own name |
| Validation.PublishAgain | integrations/zotero_lightrag/publish_corpus.py:398-418 | publishing equal contents again finds the revision and changes nothing; the payload of the first call is refused |
| Sampling.RoundsToNearest | integrations/zotero_lightrag/index_revision.py:62 | rounding gives a nearest integer, and the even one of two; that determines it |
| Sampling.PositionsAreEven | integrations/zotero_lightrag/index_revision.py:58-62 | as many positions as wanted and available, strictly increasing and in range, from 0 to n - 1 when at least two, each nearest to its even share; a single one is in the middle |
| Selection.SelectRows | integrations/zotero_lightrag/index_revision.py:32-64 | the grouping and sampling loops give the selection that `SelectionIsBalanced` describes, or the first row that cannot be attributed |
| Selection.PickTakesEachOnce | integrations/zotero_lightrag/index_revision.py:57-63 | a paper gives min(k, n) chunks, none twice, and all of them when enough are wanted |
| Selection.ReadingOrderMeans | integrations/zotero_lightrag/index_revision.py:48-56 | reading order is by page, then by chunk, each 0 where it is not known, then by source name |
| Selection.SelectionRefusedFor | integrations/zotero_lightrag/index_revision.py:39-47 | complete indexing takes every row; otherwise the first chunk without provenance or paper is reported, and the selection succeeds when there is none |
| Selection.SelectionIsBalanced | integrations/zotero_lightrag/index_revision.py:42-63 | the selection holds every annotation and, of each paper, exactly the even sample of its chunks in reading order, and no other row |
| Canonicalize.CanonicalizeRows | integrations/zotero_lightrag/index_revision.py:22-29 | the loop over the sorted rows gives the list that `OneRowPerText` and `LeastRowIsKept` describe |
| Canonicalize.OneRowPerText | integrations/zotero_lightrag/index_revision.py:22-29 | one row per distinct stripped text, none lost and none twice |
| Canonicalize.LeastRowIsKept | integrations/zotero_lightrag/index_revision.py:25-28 | each is the least row of its text under digest and source name |
| Canonicalize.CanonicalIgnoresOrder | integrations/zotero_lightrag/index_revision.py:22-29 | the same list for every permutation of rows that the key tells apart |
| Canonicalize.CanonicalIgnoresOrderIff | integrations/zotero_lightrag/index_revision.py:22-29 | all permutations of a list give the same result exactly when any two rows with one digest and source name, each the least of its text, are equal once stripped |
| Canonicalize.CheckedRowsIgnoreOrder | integrations/zotero_lightrag/validate_revision.py:48-50 | rows with different base names, which the check asks for, come in any order |
| Canonicalize.TiedRowsKeepTheFirst | integrations/zotero_lightrag/index_revision.py:25-28 | a witness: of two rows with one key and one text the first is kept, so the order shows exactly when they differ otherwise |
| Canonicalize.CanonicalTwice | integrations/zotero_lightrag/index_revision.py:22-29 | the result is its own canonical form |
| Ordering.SortIsStable | integrations/zotero_lightrag/index_revision.py:25 | sorting keeps the order of rows that tie |
| Ordering.SortSorts | integrations/zotero_lightrag/index_revision.py:25 | sorting gives the same rows, as often, in order |
| EventCache.ReadContents | internal/eventcache/eventcache.go:153-170 | the scanner loop yields the lines of the file |
| EventCache.WriteContents | internal/eventcache/eventcache.go:172-189 | the writer loop yields every line with a line feed |
| EventCache.TrimEndStores | internal/eventcache/eventcache.go:92-98 | what is stored of a line is the line without the line breaks at its end, and a line that ends in none is stored whole |
| EventCache.MergedLine | internal/eventcache/eventcache.go:99-114 | a merged cache holds, line by line, the window where it reaches and the earlier lines elsewhere |
| EventCache.ReplacedLines | internal/eventcache/eventcache.go:105-110 | a window out of reach, or without a cache, is all that is kept |
| EventCache.StoredLinesReadBack | internal/eventcache/eventcache.go:92-133 | lines without inner line feeds are read back as they were stored |
| EventCache.ReadsBackIff | internal/eventcache/eventcache.go:153-189 | reading undoes writing exactly when no line holds a line feed or ends in a carriage return |
| EventCache.WindowExtendsPrefix | internal/eventcache/eventcache.go:99-114 | a window that starts no later than behind the cached lines leaves a prefix as long as the longer of the two |
| EventCache.PrefixSurvivesIff | internal/eventcache/eventcache.go:99-114 | for one log, the cache stays a prefix exactly when the window starts in reach, or the log repeats itself there |
| EventCache.WindowKeepsAnyLogIff | internal/eventcache/eventcache.go:99-114 | a window keeps the cache a prefix of the log, whatever the log holds, exactly when it starts no later than the line behind the cached ones |
| EventCache.RepeatIsNoOpIff | internal/eventcache/eventcache.go:99-114 | writing a window twice is writing it once, exactly when it was merged, starts at line 1, or starts beyond its own length |
| EventCache.CacheStaysPrefix | internal/eventcache/eventcache.go:75-133 | over any growth of the log, reachable windows and snapshots, the file reads back as a prefix of the trimmed log and never gets shorter |
| EventCache.CacheFollowsFromEmpty | internal/eventcache/eventcache.go:75-133 | from no cache at all, after every run cached line k followed by line breaks only is line k of the log |
| EventCache.WhatIsSeenIsCached | internal/eventcache/eventcache.go:75-133 | a run that has just seen a window has cached the log at least to its end, and one that has just taken a snapshot all of it |
| EventCache.WindowInReachCompletes | internal/eventcache/eventcache.go:75-133 | any window that starts in reach and goes to the end of the log may be seen and completes the cache, and so does a snapshot |
| EventCache.StepKeepsInv | internal/eventcache/eventcache.go:75-133 | one such step leaves a prefix of exactly the larger of the old length and the end of the window |
| EventCache.ObservingAgain | internal/eventcache/eventcache.go:75-115 | seeing the same window again changes nothing in the file |
| EventCache.Cache.Read | internal/eventcache/eventcache.go:54-73 | the last N lines with their true positions in the file |
| EventCache.Cache.Write | internal/eventcache/eventcache.go:75-115 | the file holds the merge of what it held and the window, whose lines are stored up to the line breaks at their end; nothing happens without lines |
| EventCache.Cache.WriteSnapshot | internal/eventcache/eventcache.go:121-133 | the file holds exactly the lines of the snapshot, each up to the line breaks at its end |

## Left out

- Cobra commands, HTTP routing, authentication, WebSocket handlers, the React views and other plumbing.
- FeedServer.RunServer.HandleListRunSummaries: the page is the whole table; filters, the page limit and the separate count are left out, since a client that follows changes from a partial page has a partial replica.
- FeedServer.RunServer.HandleListActiveRunSummaries: the page is all active runs; the page limit and the separate count are left out.
- List pages of the web client that only replace runs they already hold and are fetched again.
- Malformed `updated_since` values, integer parsing of query parameters, heartbeats, tickers, response flushing, and the timestamps of responses.
- More than one request of one client in flight at a time in `FeedProtocol`; other clients are independent of it.
- Text framing of server-sent events: a delivered event is its change and row.
- Eviction.NothingEvictedIsLost: one call is one atomic step, so two calls that interleave are not covered; placements are registered, and transfers write, apart from the placements there are; nobody else writes to managed places. What happens without that is `Eviction.CopySurvivesIffApart`.
- Eviction.RemovalIsLocal: moving the tree aside, hashing and deleting it are one step with three outcomes, success, refusal, and an interruption that leaves any part at the place and any part beside it.
- Where a placement lies on which host, with parent links resolved, is a function of the environment; symbolic links inside a payload, which are refused, and file modes and times are not part of a tree.
- `Eviction.CopySurvivesIffApart` takes different directories to have different revisions; a regular file whose bytes are the manifest of a directory has that directory's revision.
- Materialization.ReadyMeansPinned: speaks of the revision in the record, not of live bytes; a job that is already completed when it is created makes a record Ready without a look at the destination.
- Materialization.DatasetService.Materialize: the destination path is an argument, computed in `DestinationPath`; parsing of references, the fallback source of datasets without a logical path, timestamps and byte counts are left out.
- Ingest, freeze and release of datasets, the transfer planner and worker: only the job states they lead to.
- The awk fallback of the wrapper, which does not normalise carriage returns.
- Scanner buffer limits: tokens and lines longer than the buffer end a scan in the source; here there is no limit.
- SSH handshakes, sessions, proxies and key lookup: a dial either gives a client never seen before or fails. A stale session is a removal by host and another Get, so it is among the runs of threads that do these in any order.
- SSHKeys.RemovalMeetsIff: host names hold no at sign or bar, and user names no at sign.
- Shell expansion, substitution, operators and comments: the word reader gives up on unquoted characters special to the shell.
- `normalizeProjectConfigLines`, nesting and what fields mean: one field is read from the lines as printed.
- Case folding in matrix labels is a parameter; `Matrix.SetThenShows` asks that only the space folds to the space.
- Generated ids in `MatrixCheck.SetKeepsSound` are fresh; the store's own uniqueness constraint on cells is not modelled.
- Chunking.ChunkText: takes the text as already cleaned, and sizes of at least one character; cleaning is a parameter of `Chunking.PageChunks`.
- CollectionTree.ReadTree: the library does not change while it is read; of the result only the order by distance is stated, not that among siblings.
- SHA-256, MD5 and JSON are functions of the environment: collision free, decoding undoes encoding, and no part of an encoded row up to a point inside it decodes.
- Two publishers racing for one directory, and the temporary directory of a call.
- `build_revision`: which documents a library yields; publishing takes any payload.
- Sampling.PositionsAreEven: quotients are exact rationals, so rounding errors of floating-point division are not modelled.
- Run ids that give the same cache file name share one cache; `EventCache` is about one file. I/O errors of the cache, and lines with inner line feeds in `EventCache.CacheStaysPrefix`, are left out.
