# A verified model of the offline core

This project models, in Dafny, the parts of the application that keep state over
time and must stay right whatever happens in between: crashes, concurrent tabs,
lost or late messages, other users, the change of days and weeks. Code that
changes things step by step is modelled as methods and classes that do the same
steps, and each is tied to a specification; protocols between several parties
are state machines whose invariants hold in every run.

    dafny verify dfyconfig.toml

## The modules

**Extent file store.** `ExtentLayout` says what a set of stored extents means
under a head, with or without a journal. `DiskModel` holds the two object stores
as one value and the invariant between any two transactions. `FileStore` is the
store itself: every transaction is one call, and a script of outcomes decides
for each whether it commits, aborts or is the last before the browser dies, so a
contract that holds for all scripts holds for every crash point. `StoreRuns`
composes calls into runs and shows that they are runs of a map from ids to
bytes. `SharedReads` looks at the second half of a read, under the shared lock.
`GenerationProtocol` lets replacements, deletions, readers, crashes and orphan
collectors interleave, with locks as guards; a collector takes none.

**Bundle transfer.** `BundleTransfer` follows a batch of resources from the
server's framing through a network that splits it anywhere, the byte reader and
the frame loop into the file store.

**Offline post window.** `PostModel` is the server: an append-only list of
versions, the r-th of which has revision r, and the rows it sends of them, which
depend on more than the revision. `PostWindow` has what each transaction does to
the cached rows and their proof of coverage, as functions, and `PostCollisions`
when a save is aborted because two rows of one revision differ.
`WindowInvariant` states what the cache may claim about the server,
`WindowSteps` that each transaction keeps it, `WindowMoves` which rows, ends,
flags and revisions a page or a live event leaves, and `WindowProtocol` what a
revision pull relies on while everything else moves. `WindowRuns` has whole runs
and the steps that disturb a pull; `WindowMisfits`, `WindowBreaks` and
`WindowPublishes` that exactly these steps can break the window, and
`WindowRaces` three such runs.
`PostRepository` is the imperative repository, proved against these functions,
and `RevisionPull` the pull loop against a server that moves on between the
pages.

**Credits.** `CreditTables` has the tables, sums over their rows and the
calendar; `CreditLedger` what each transaction does; `CreditSafety` the
conservation laws; `CreditProtocol` whole runs, solvency, quotas and the exact
conditions under which something can fail; `CreditMovements` exactly what each
transaction moves, and that a user's top-ups are what was paid in;
`CreditDatabase` the transactions carried out on the tables, with their
rollbacks.

**Article lists, settings, recovery, throttling, contours.** `ArticleCoverage`
(coverage over keyset pages), `SettingsSync` (last writer wins across devices),
`RecoveryLifecycle` (the recovery coordinator), `PromiseTails` (the throttle and
the per-file lock), `CooldownAllocator` (retry windows), `ContourStitching`
(trails of a multigraph). `Basics` holds what they share.

## What the proofs brought to light

- Rows of one revision do not always show the same, and a save compares all they
  show. A reply carries a preview of the post it answers, which may be edited
  (`PostCollisions.EditedParentCollides`); lists cut long posts and events do not
  (`CutRowCollides`). Such rows abort the whole save; `SaveThrowsIff` says exactly
  when.
- A revision pull saves the rows of each page as they came and commits them with
  names put in. So its commit is aborted as soon as one changed row touches the
  window and its page was saved (`PostCollisions.MaterializedCollidesIff`,
  `RevisionPull.SyncConversationPostRevisions`), and the revision is not published.
- The pull of an open chat starts at the revision the chat has shown, not at the
  one the window knows. If something the window needs changed in between, it can
  publish a revision the window does not hold
  (`WindowRaces.LateReadBreaksWindow`); `WindowBreaks.ReadIsSafeIff` gives the
  exact condition, and starting no later than the known revision always meets it.
- A page of an open chat publishes the revision of the conversation, although it
  brings only some of what changed, so the window may claim an edit it does not
  hold and never pull it (`WindowRaces.PagePublishBreaksWindow`);
  `WindowPublishes.PublishIsSafeIff` gives the exact condition, and a latest page
  that starts the window meets it (`NewWindowMayPublish`).
- A live event that starts a post window while a pull is in flight can make the
  window claim a revision it does not hold (`WindowRaces.StaleStartBreaksWindow`).
  `WindowBreaks.StartIsSafeIff` gives the exact condition; the event of a new post
  not older than what the pull covers always meets it (`WindowRuns.CreationFits`).
- A read first recovers the file under an exclusive lock and then reads under a
  shared one. If a shrink in another tab fails half way between the two, the
  read loop meets a missing extent or stops progressing; `ReadableIff` says
  exactly which heads are affected.
- The grace time of the orphan collector is exact: whatever the state, a file with
  extents is safe to publish if and only if the grace time has not passed
  (`GenerationProtocol.GraceTimeIsExact`).
- The search of the cooldown allocator never ends if the pool reports an infinite
  ready time while another user already holds one
  (`CooldownAllocator.SearchEndsIff`, `SecondWaitsForever`).
- When a plan ends or an allowance is lowered while credits are reserved against
  it, a later settlement may collect less than its charge
  (`CreditProtocol.ExpiryIsExact`, `ChargeIsCollectedIff`, `LateChargeIsLost`).
- A settlement can only fail if the key of a top-up equals one of its ledger keys
  (`CreditProtocol.SettlementFailsIff`); the protocol's schema, which asks for a
  UUID, excludes that.
- News that reaches a device late can take it back to an older value of a setting
  (`SettingsSync.LateNewsGoesBackIff`, `LateNewsGoesBack`).
- An empty chunk at the end of a bundle response counts as trailing data and makes
  a right body one that is not accepted (`BundleTransfer.EmptyTailIsFatal`,
  `FetchResourceBatch`).
- The throws for an invalid journal, an oversized extent and a missing boundary
  extent, the missing-extent throw of a write or of a read of a recovered file,
  "did not advance" and the clamp of reserved credits at zero are unreachable.

## Model

| member | source | states |
|---|---|---|
| `ExtentLayout.Rescaled` | client/data/files.ts:549-563 | reading a complete generation under another size is exactly cutting its bytes or padding them with zeros, so opening a size journal is the whole visible effect of a size change |
| `ExtentLayout.JournalIsConsistent` | client/data/files.ts:549-563 | the extents of a complete file satisfy the invariant of the journalled head that is put over them |
| `ExtentLayout.Padded` | client/data/files.ts:571-583 | replaying one extent of a grow keeps the journal replayable and the meaning of the file, and an extent is never longer than required |
| `ExtentLayout.GrownIsComplete` | client/data/files.ts:570-585 | once every extent has its target length, exactly the extents of the target size are there |
| `ExtentLayout.Cut` | client/data/files.ts:587-604 | the boundary extent of a shrink is there, is long enough, and cutting it keeps the meaning of the file |
| `ExtentLayout.Dropped` | client/data/files.ts:605-620 | deleting any batch of extents past the target keeps the journal replayable and the meaning of the file |
| `ExtentLayout.DroppedTailIsComplete` | client/data/files.ts:587-620 | after the cut and the drops exactly the extents of the target size are left |
| `ExtentLayout.StoredByte` | client/data/files.ts:207-215 | in a complete file the byte at an offset is found in extent offset / size at offset % size |
| `ExtentLayout.StoredRange` | client/data/files.ts:207-220 | a range inside one extent is found there contiguously |
| `ExtentLayout.Overwritten` | client/data/files.ts:288-309 | rewriting part of one extent splices exactly these bytes into the file at their offset and keeps the extents complete |
| `ExtentLayout.SpliceContinues` | client/data/files.ts:288-309 | splicing a prefix of the data and then the rest is splicing the longer prefix |
| `ExtentLayout.StagedMore` | client/data/files.ts:694-717 | one turn of the writer's loop keeps extents and tail a complete layout of exactly the bytes received so far |
| `DiskModel.OneFileMovesOn` | client/data/files.ts:173-198 | a step that changes one file's head and generation leaves every other file's bytes alone and updates the abstract map at one key |
| `DiskModel.ReplayStep` | client/data/files.ts:565-621 | a replay transaction keeps the invariant of the whole store and changes no file |
| `DiskModel.OpenJournal` | client/data/files.ts:549-563 | putting the journalled head turns the file into its resized bytes and nothing else |
| `DiskModel.CloseJournal` | client/data/files.ts:529-547 | putting the completed head after a replay changes no file |
| `DiskModel.ForgetChecksum` | client/data/files.ts:281-287 | dropping the checksum before a write changes no file, and only then may bytes change |
| `DiskModel.WriteStep` | client/data/files.ts:288-309 | one extent of a write splices its bytes into one file only |
| `DiskModel.PublishStep` | client/data/files.ts:634-645 | putting the new head replaces the file in one step and records the bytes its checksum stands for |
| `FileStore.ExtentFileStore.RecoverHead` | client/data/files.ts:529-547 | however often and wherever it is cut short, no file changes; when it completes, the head is complete; "invalid journal" cannot happen |
| `FileStore.ExtentFileStore.ApplyGrow` | client/data/files.ts:570-585 | the grow loop keeps every file and ends with exactly the extents of the target; "oversized extent" cannot happen |
| `FileStore.ExtentFileStore.ApplyShrink` | client/data/files.ts:587-620 | the shrink keeps every file and ends with exactly the extents of the target; "missing boundary extent" cannot happen |
| `FileStore.ExtentFileStore.MutateSize` | client/data/files.ts:549-563 | for every crash point: the old files, or the files with this one resized |
| `FileStore.ExtentFileStore.Grow` | client/data/files.ts:234-256 | for every crash point and failing transaction: unchanged, padded with zeros, or newly empty; success means padded; a smaller size is refused and changes nothing |
| `FileStore.ExtentFileStore.Shrink` | client/data/files.ts:258-267 | for every crash point and failing transaction: unchanged or cut to the target; success means cut; a missing file or a larger size is refused and changes nothing |
| `FileStore.ExtentFileStore.Write` | client/data/files.ts:269-310 | for every crash point exactly a prefix of the data is written at its offset and no byte outside the range changes; success means all of it |
| `FileStore.ExtentFileStore.WritePiece` | client/data/files.ts:288-309 | each turn of the write loop makes progress and splices exactly the bytes that fall into one extent |
| `FileStore.ExtentFileStore.Delete` | client/data/files.ts:313-323 | the file is still there or gone, never in between; on success its extents are gone too and the size freed is the size it had |
| `FileStore.ExtentFileStore.DeletePhysical` | client/data/files.ts:116-129 | removes every extent below the count of a generation no head names, in bounded transactions, and touches no file |
| `FileStore.ExtentFileStore.Read` | client/data/files.ts:200-223 | a read is the slice of the file's bytes for all offsets and lengths, and fails only for a missing file or past the end |
| `FileStore.ExtentFileStore.ReadUnlocked` | client/data/files.ts:502-521 | the loop over extents always progresses and collects exactly the requested range |
| `FileStore.ExtentFileStore.Stream` | client/data/files.ts:388-451 | the chunks of a stream, none empty and none larger than the chunk size, concatenate to exactly the bytes from the offset on, as many as asked for or as there are |
| `FileStore.ExtentFileStore.Replace` | client/data/files.ts:342-376 | all or nothing: the whole new content under its checksum, or the old file; a source shorter or longer than announced, or broken, leaves the old file and no extent of the new generation; on success no extent of the previous generation is left |
| `FileStore.ExtentFileStore.Stage` | client/data/files.ts:623-653 | writing and publishing a generation under a fresh physical id changes the file in one step, and earlier published bytes stay on record |
| `FileStore.ExtentFileStore.NextPhysicalId` | client/data/files.ts:147-151 | a new physical id is named by no head and has no extents |
| `FileStore.GenerationWriter.Write` | client/data/files.ts:694-717 | however the bytes arrive, extents and tail hold exactly what was received; more than announced is refused |
| `FileStore.GenerationWriter.Fill` | client/data/files.ts:355-372 | a source is accepted exactly when it delivers the announced number of bytes |
| `StoreRuns.Perform` | client/data/files.ts:173-530 | every call of the store, cut short anywhere, is an allowed step of a map from ids to bytes |
| `StoreRuns.PerformAll` | client/data/files.ts:173-530 | every run of calls, crashes, failing transactions and restarts is a run of a map from ids to bytes |
| `StoreRuns.ResizeAcrossCrashes` | client/data/files.ts:234-267 | after a size change and any number of restarts that crash again in recovery, the file is old, resized or newly empty, and once recovery completes exactly the extents of its size are left |
| `SharedReads.ReadableIff` | client/data/files.ts:200-223 | under the shared lock all bytes the head promises are stored if and only if the head carries no shrink journal whose replay has begun to remove bytes |
| `SharedReads.ReadShared` | client/data/files.ts:204-222 | the read loop after recovery fails or stops progressing only for such a head, and every byte it returns below the effective size is the file's |
| `SharedReads.HalfShrunkIsUnreadable` | client/data/files.ts:587-620 | a concrete half-replayed shrink whose head promises a byte that is no longer stored |
| `SharedReads.ShrinkWithoutClosing` | client/data/files.ts:549-563 | a shrink whose last transaction does not commit leaves such a head, for any file and any smaller size |
| `GenerationProtocol.StepKeepsInv` | client/data/files.ts:342-376 | whatever writer, reader, collector or crash moves, live files stay whole, and what a file stands for changes only at a publish, a deletion or a rewrite, all at once |
| `GenerationProtocol.RunKeepsInv` | client/data/files.ts:454-500 | the invariant holds in every run in which each publish takes less than the grace time |
| `GenerationProtocol.ReadersSeeWholeFiles` | client/data/files.ts:388-451 | a reader at any point of any such run has read a prefix of what its file stands for and never misses an extent |
| `GenerationProtocol.CollectedNeverGoesLive` | client/data/files.ts:454-500 | what the collector deletes is not live and never becomes live later in the run |
| `GenerationProtocol.CollectedIsExpired` | client/data/files.ts:465-498 | the collector only touches generations that are older than the grace time and named by no head |
| `GenerationProtocol.GraceTimeIsExact` | client/data/files.ts:9-14 | in whatever state a file with extents is about to be published, publishing it is safe, whatever collectors and others do around it, if and only if the grace time has not passed since its physical id was made |
| `GenerationProtocol.SlowReplacement` | client/data/files.ts:623-650 | such a state is reached by a replacement that takes that long |
| `BundleTransfer.LittleEndianRoundTrip` | client/interact/bundles.ts:318-330 | a number that fits its width is read back as it was written |
| `BundleTransfer.BytesRoundTrip` | client/interact/bundles.ts:318-330 | bytes that are read as a number are written as they were |
| `BundleTransfer.BytesOfNumbers` | client/interact/bundles.ts:318-330 | the least byte of a number comes first |
| `BundleTransfer.HexIsInjective` | client/interact/bundles.ts:240-244 | comparing hexadecimal content ids is comparing the ids |
| `BundleTransfer.HexDigitsAre` | client/interact/bundles.ts:240-244 | two lower-case digits a byte, the high one first |
| `BundleTransfer.FramedRoundTrip` | server/http/routes/articleBundleResources.ts:60-71 | the frames the server writes parse back to exactly the payloads, with nothing left over |
| `BundleTransfer.BodyRoundTrip` | server/http/routes/articleBundleResources.ts:13-26 | the whole body answers the request it was made for |
| `BundleTransfer.AnswerIsBody` | client/interact/bundles.ts:313-343 | conversely, only the body the server sends for some payloads of the announced sizes answers a request |
| `BundleTransfer.BodyLayout` | server/http/routes/articleBundleResources.ts:13-26 | where magic, version, count and each id, size and payload stand in the body, byte by byte |
| `BundleTransfer.ResponseByteReader.Refill` | client/interact/bundles.ts:168-174 | fetching the next chunk loses and repeats no byte |
| `BundleTransfer.ResponseByteReader.Read` | client/interact/bundles.ts:165-187 | for every split of the body into chunks, exactly the next bytes, or a failure exactly when the body is too short |
| `BundleTransfer.ResponseByteReader.Take` | client/interact/bundles.ts:189-202 | the stream over the next bytes concatenates to exactly them, and breaks exactly when the body ends before |
| `BundleTransfer.ResponseByteReader.Finish` | client/interact/bundles.ts:204-215 | succeeds if and only if no byte and no chunk, not even an empty one, follows and the connection ends in order |
| `BundleTransfer.StoreNext` | client/interact/bundles.ts:324-338 | a frame is stored whole under its file, or rejected with all files unchanged exactly when it is not the expected whole frame |
| `BundleTransfer.FetchResourceBatch` | client/interact/bundles.ts:313-343 | unless the store fails, a body is accepted if and only if its bytes answer the request and its last chunk is not empty and the connection was not cut; after a rejection the files hold the leading whole and expected frames |
| `BundleTransfer.EmptyTailIsFatal` | client/interact/bundles.ts:204-215 | one more empty chunk adds no byte and makes any body one that is not accepted |
| `BundleTransfer.UpdatedHolds` | client/interact/bundles.ts:333-338 | storing under distinct content ids keeps every payload |
| `BundleTransfer.TransferBatch` | client/interact/bundles.ts:289-344 | what the server sends, split in any way, is rejected only for an empty last chunk or a cut connection; unless the store fails each resource file ends as exactly its payload and all other files stay |
| `PostModel.ChangedRevisionsAreExact` | server/data/posts.ts:222-236 | the revisions listed for a range are its present ones, ascending, all of them |
| `PostModel.PresentIsCurrent` | server/data/posts.ts:41-47 | the present version of a post is the one no later version follows |
| `PostModel.ListedRowIs` | server/data/posts.ts:142-154 | a list cuts a text longer than 1000 and marks it, and cuts the preview of the post answered, as it is now, to 200 only if the text is not cut |
| `PostModel.NamesAreTheAuthors` | client/interact/posts.ts:28-45 | the names put into a row are the known ones of its two authors, and nothing else changes |
| `PostModel.ChangeRaisesSum` | server/data/conversations.ts:131-153 | every created or edited post strictly raises the revision sum |
| `PostModel.ChangeMovesSum` | server/data/conversations.ts:131-153 | a new post adds its revision to the sum, an edit adds its own and takes away the one it supersedes |
| `PostModel.SumIsMonotone` | server/infra/db.ts:1341-1357 | equal sums of two server states mean that nothing was created or edited in between |
| `PostModel.CurrentWas` | server/infra/db.ts:1341-1357 | a revision that is still present later was present all along |
| `PostWindow.Appended` | client/data/repository.ts:1623-1626 | the rows a pull appends are exactly its rows past a window that reaches the newest, in order of sequence |
| `PostWindow.OldestOf` | client/repo/coverage.ts:156-161 | the oldest written row |
| `PostWindow.NewestOf` | client/repo/coverage.ts:156-161 | the newest written row |
| `WindowInvariant.SaveFirstIs` | client/data/repository.ts:1397-1452 | the loop of a save that is not aborted loses no row, replaces none by an older version and stores every admissible row |
| `WindowInvariant.OverlaySave` | client/data/repository.ts:1370-1477 | a save that does not extend the coverage keeps the coverage and brings every admissible row up to date, or changes nothing if it is aborted |
| `WindowInvariant.ExtendingSave` | client/repo/coverage.ts:149-179 | a save that extends the coverage and is not aborted spans exactly the old window and the incoming rows and keeps its flags and known revision |
| `WindowSteps.OverlayKeepsSound` | client/data/repository.ts:1370-1477 | an overlay keeps the window's claims about the server |
| `WindowSteps.ExtendKeepsSound` | client/data/repository.ts:1455-1472 | an extension keeps the claims if everything newly spanned is among its rows or newer than the known revision |
| `WindowSteps.PageKeepsSound` | client/data/repository.ts:1511-1572 | a root, before or after page of the present server, in whatever form its rows come, keeps the claims, replaces a disconnected window and ignores a fragment; so does one whose save is aborted |
| `WindowSteps.BeforePageReachesOldest` | client/data/repository.ts:1547-1571 | a last page before a stored post, even an empty one, marks the oldest post as reached exactly unless its save is aborted |
| `WindowSteps.EvictKeepsSound` | client/repo/coverage.ts:185-199 | evicting a prefix keeps the claims and gives up having reached the oldest post |
| `WindowSteps.ClearKeepsSound` | client/data/repository.ts:159-184 | clearing the window keeps the claims |
| `WindowSteps.LiveAppendKeepsSound` | client/repo/coverage.ts:101-116 | a live event past a window that reaches the newest extends it and keeps the claims |
| `WindowSteps.LiveCreateKeepsSound` | client/repo/coverage.ts:149-179 | a live event starts a window with known revision zero, which claims nothing yet |
| `WindowSteps.ServerKeepsSound` | server/infra/db.ts:1341-1357 | a change on the server falsifies no claim, because it takes a revision above the known one |
| `WindowSteps.AdvanceKeepsSound` | client/data/repository.ts:1574-1602 | publishing a revision keeps the claims when the window is exact up to it |
| `WindowMoves.SavedRows` | client/data/repository.ts:1397-1452 | the loop of an extending save loses no row, stores every incoming one unless a newer version is there, stores nothing else, and writes nothing exactly if all rows are older than the stored ones |
| `WindowMoves.PageMoves` | client/data/repository.ts:1511-1572 | unless its save is aborted: a latest page that shares a post with the window is added to it, keeping all rows, the known revision and the sum, with exact ends and flags; one that shares none leaves exactly its own posts at known revision zero; a page next to a stored cursor is added, any other changes nothing |
| `WindowMoves.EventMoves` | client/data/repository.ts:1487-1509 | a live event appends past a window that reaches the newest, starts a window where there is none, is stored where its post is stored or belongs inside, and changes nothing otherwise |
| `WindowProtocol.PageIsExact` | client/repo/revision.ts:74-81 | a page of changed rows holds a row of every present version up to the next cursor |
| `WindowProtocol.PageContinuesPull` | client/interact/conversations.ts:43-54 | a page of a pull, laid over the window as it came or not at all, leaves nothing up to the cursor uncollected |
| `WindowProtocol.ReadKeepsInvIff` | client/hooks/useChatPosts.ts:461-477 | a pull that starts at any revision keeps the invariant if and only if nothing the window needs was changed between its known revision and that one |
| `WindowProtocol.PublishKeepsInvIff` | client/interact/posts.ts:187-189 | the revision that a page publishes keeps the invariant if and only if nothing the window needs was left out up to it and a commit under way appends nothing before what the window then knows |
| `WindowProtocol.CommitBegins` | client/data/repository.ts:1612-1626 | when the commit reads the coverage, everything past the window's end that the pull is about is among the rows to append |
| `WindowProtocol.RowsAreAppended` | client/data/repository.ts:1622-1633 | after the append the window is exact up to the pull's revision, even if it was replaced or cleared meanwhile |
| `WindowRuns.StepKeepsInv` | client/data/repository.ts:1370-1635 | every step of server, pages and the revisions they publish, events, evictions and the transactions of a pull, which may start anywhere, keeps the invariant in any interleaving, as long as the step fits the pull in flight |
| `WindowRuns.StartKeepsInvIff` | client/data/repository.ts:1487-1509 | a live event that starts a window while a pull is in flight keeps the invariant if and only if it fits the pull |
| `WindowRuns.NewestAlwaysFits` | client/data/repository.ts:1487-1509 | an event with the server's newest post in its present version always fits |
| `WindowRuns.CreationFits` | client/interact/remoteLifecycle.ts:249-262 | the event of a new post that is not older than what the pull in flight covers always fits |
| `WindowRuns.RunKeepsInv` | client/data/repository.ts:1370-1635 | the invariant holds in every run whose steps fit |
| `WindowRuns.WindowAgreesWithServer` | client/data/repository.ts:1370-1635 | in every run whose steps fit, a server post inside the window with a present revision up to the known one is stored at exactly that revision and shows that version |
| `WindowRuns.GuardedWindowAgrees` | client/data/repository.ts:1487-1635 | the same for every run of a device that checks its steps: new posts not older than the pull start windows, and pulls and pages do not go beyond the known revision |
| `WindowRuns.UpToDateWindowEquals` | client/data/repository.ts:1574-1602 | a window that knows the server's revision holds exactly the server's present posts of its interval |
| `WindowRuns.SkippedPullLosesNothing` | client/interact/conversations.ts:39-42 | when the stored sum equals the server's, the window already knows that revision, so skipping the pull is sound |
| `WindowMisfits.CommitAgreesIff` | client/data/repository.ts:1612-1635 | wherever a pull began, its commit leaves the window in agreement with the server if and only if nothing was left out between the known revision and the beginning of the pull |
| `WindowBreaks.StartIsSafeIff` | client/data/repository.ts:1487-1509 | a live event that starts a window during a pull fits if and only if every later run of fitting steps leaves the window in agreement with the server |
| `WindowBreaks.ReadIsSafeIff` | client/hooks/useChatPosts.ts:452-477 | a pull may start at a revision if and only if every later run of fitting steps leaves the window in agreement with the server |
| `WindowPublishes.PublishIsSafeIff` | client/interact/posts.ts:187-189 | under exactly that condition every later run of fitting steps leaves the window in agreement with the server |
| `WindowPublishes.NewWindowMayPublish` | client/interact/posts.ts:178-189 | a latest page that starts or replaces the window may publish any revision of the server, unless a commit for less is under way |
| `WindowRaces.StaleStartBreaksWindow` | client/data/repository.ts:1612-1635 | a concrete run in which an old event starts a window during a commit and the window then claims a revision it does not hold |
| `WindowRaces.LateReadBreaksWindow` | client/hooks/useChatPosts.ts:452-477 | a concrete run in which a chat pulls from the revision it has shown, beyond the known one, and the window then claims a revision it does not hold |
| `WindowRaces.PagePublishBreaksWindow` | client/interact/posts.ts:178-189 | a concrete run in which a chat loads the posts after an edited one, publishes the revision of its conversation and the window then claims the edit it does not hold |
| `PostRepository.ConversationCache.ExtendedCoverage` | client/repo/coverage.ts:149-179 | the loop over the written rows computes the next coverage |
| `PostRepository.ConversationCache.SaveTransaction` | client/data/repository.ts:1380-1475 | one transaction: every admissible row and the coverage, or, when a row is invalid or collides, nothing |
| `PostRepository.ConversationCache.IndexedRows` | client/data/repository.ts:206-212 | the rows in the order of their sequences, all of them |
| `PostRepository.ConversationCache.DeleteBatch` | client/data/repository.ts:198-263 | one eviction transaction takes a bounded prefix up to the first protected row and shrinks the coverage to the retained rows, or drops it |
| `PostRepository.ConversationCache.DeleteConversationPostPrefix` | client/data/repository.ts:186-270 | the batches together evict one prefix that does not depend on the batch size and report whether a protected row went |
| `PostRepository.ConversationCache.TrimConversationPosts` | client/data/repository.ts:1698-1727 | a trim takes all but the newest 200 rows, or all before the first recent one, up to the first protected row |
| `PostRepository.TrimSpares` | client/data/repository.ts:1718-1726 | a trim takes no recent and no protected row |
| `PostRepository.TrimIsExact` | client/data/repository.ts:1698-1727 | exactly those rows are left that are among the newest 200, or not before the first recent one, or not before the first protected one |
| `PostRepository.ConversationCache.SavePosts` | client/data/repository.ts:1370-1477 | a save is aborted exactly by a row without a sequence or one that collides, and then changes nothing; otherwise the result is the saved window, trimmed |
| `PostRepository.ConversationCache.ApplyPostVersion` | client/data/repository.ts:1487-1509 | the window becomes what `EventMoves` says of the event, trimmed; it is aborted exactly when the row collides with the stored row of its revision |
| `PostRepository.ConversationCache.ReconcilePostPage` | client/data/repository.ts:1511-1572 | the window becomes what `PageMoves` says of the page, trimmed; it is aborted exactly when the save of the page is, and a replaced window then stays dropped |
| `PostRepository.ConversationCache.AdvancePostRevision` | client/data/repository.ts:1574-1602 | the known revision becomes the greater of the two, the sum is kept unless given, and nothing else changes |
| `PostRepository.ConversationCache.ReconcilePostRevisions` | client/data/repository.ts:1612-1635 | overlay, append, publish, in this order, each on the window the one before left; an aborted save ends the commit before the revision is published |
| `PostCollisions.InvalidRowAborts` | client/data/repository.ts:1399-1440 | a row without a sequence, or one that disagrees with the stored row of its revision, aborts the whole save |
| `PostCollisions.SaveThrowsIff` | client/data/repository.ts:1398-1440 | rows of different posts are saved, unless one of them meets a stored row of its revision that shows something else |
| `PostCollisions.EditedParentCollides` | server/data/posts.ts:41-63 | after the post it answers was edited, a stored reply collides with its own row as the server now has it, for any reply and edit |
| `PostCollisions.CutRowCollides` | server/data/posts.ts:142-154 | a stored long post that an event brought in full collides with its row in a list |
| `PostCollisions.MaterializedCollidesIff` | client/interact/posts.ts:171-197 | rows that were laid over the window as they came abort the second save, with names in them, if and only if one of them touched the window |
| `PostRepository.AfterPrefix` | client/data/repository.ts:228-246 | deleting the first rows of the index leaves the others in order and is a legal prefix eviction |
| `RevisionPull.CompleteGrows` | client/repo/revision.ts:72-81 | a page keeps the collected rows complete up to the cursor although the server moved on |
| `RevisionPull.CompleteAtEnd` | client/repo/revision.ts:64-82 | the collected rows contain a row of every version still present in the range, only rows present when the pull began, once each and ascending |
| `RevisionPull.MaxRevision` | client/repo/revision.ts:78 | the greatest revision of a page |
| `RevisionPull.CollectRevisionRange` | client/repo/revision.ts:64-82 | terminates while posts are created and edited between the pages, with the complete, ascending, duplicate-free rows of the range, with names put in; "did not advance" cannot happen; an aborted save of a page is passed over; a page size below one is refused |
| `RevisionPull.CommitKeepsSound` | client/data/repository.ts:1612-1635 | the transactions of a commit, with trims in between, publish a revision the window really has |
| `RevisionPull.CommitThrowsIff` | client/data/repository.ts:1622-1633 | a commit is aborted exactly by a row that collides with the window as the commit finds it; the rows it appends never collide |
| `RevisionPull.SyncConversationPostRevisions` | client/interact/conversations.ts:22-62 | a round that is not aborted leaves a window that knows the revision the server announced, and equals the server's posts of its interval if the server stood still since; it is aborted exactly when a changed row meets a stored row of its revision that shows something else; a failed round falsifies nothing |
| `CreditTables.WeekIsMondayToSunday` | server/data/ai.ts:642-653 | two days share a week key exactly when they lie in the same Monday-to-Sunday week, and day 4 of the epoch is a Monday |
| `CreditTables.WeeksFollowDays` | server/data/ai.ts:642-653 | week keys never go back |
| `CreditTables.KeysDiffer` | server/data/ai.ts:829-841 | ledger keys of one kind name their operation, and keys of two kinds never meet |
| `CreditSafety.TopUpKeepsInv` | server/data/ai.ts:750-793 | a top-up keeps the books |
| `CreditSafety.ReserveKeepsInv` | server/data/ai.ts:795-843 | a reservation keeps the books |
| `CreditSafety.HeldCovers` | server/data/ai.ts:925-930 | reserved credits cover every active reservation, so the clamp at zero never acts |
| `CreditSafety.CollectConserves` | server/data/ai.ts:925-979 | a settlement keeps reserved equal to the active reservations and top-up equal to the ledger and to top-ups less their usage |
| `CreditSafety.CollectSettlesOnce` | server/data/ai.ts:931-950 | every settled operation has exactly its usage row, and no active one has any |
| `CreditSafety.CollectTotals` | server/data/ai.ts:951-979 | every ledger row records the user's top-up credit after it |
| `CreditSafety.SettleIsCollect` | server/data/ai.ts:869-982 | a settlement collects an active reservation, or changes nothing but the registration |
| `CreditSafety.FinishedRunIsSettled` | server/data/ai.ts:472-499 | the reservation of the run that ends is the one its settlement finds |
| `CreditProtocol.StepKeepsInv` | server/data/ai.ts:750-982 | every transaction keeps the books and leaves no ended run with credits held |
| `CreditProtocol.RunKeepsInv` | server/data/ai.ts:750-982 | the books hold in every run, with days, weeks, policies and plans changing |
| `CreditProtocol.CreditsAreConserved` | server/data/ai.ts:750-982 | in every run and for every user: top-up is not negative, reserved is the sum of active reservations, top-up is the sum of ledger deltas and the top-ups less their usage |
| `CreditProtocol.ChargedExactlyOnce` | server/data/ai.ts:869-982 | in every run an operation is charged exactly once if its reservation was settled and never otherwise |
| `CreditProtocol.AvailableIs` | server/data/ai.ts:716-730 | the balance's available credits are plan and top-up less what is reserved, but not below zero |
| `CreditProtocol.LaterSpendsLess` | server/data/ai.ts:674-692 | what counts as spent starts at zero when the day or week rolls over and stays until then |
| `CreditProtocol.StepKeepsSolvent` | server/data/ai.ts:795-982 | no step that keeps the plan makes a user insolvent |
| `CreditProtocol.SolventThroughout` | server/data/ai.ts:795-982 | in every run, across days and weeks, plan and top-up cover all that is reserved while no step ends the plan or lowers an allowance |
| `CreditProtocol.ExpiryIsExact` | server/data/ai.ts:898-912 | when a plan ends, the user stays solvent if and only if top-up alone covers what is reserved |
| `CreditProtocol.GrantedIffStillSolvent` | server/data/ai.ts:803-822 | a new reservation is granted if and only if the user is still solvent with it |
| `CreditProtocol.ChargeIsCollectedIff` | server/data/ai.ts:888-924 | a settlement collects its whole charge if and only if plan and top-up cover it, the plan pays first, and what is missing means that both are used up |
| `CreditProtocol.LateChargeIsLost` | server/data/ai.ts:885-924 | for every granted first run: charged after its plan has ended nothing is collected, and after the allowances were lowered no more than they are |
| `CreditProtocol.SolventPaysInFull` | server/data/ai.ts:885-924 | a solvent user pays the full charge, cut to what was reserved |
| `CreditProtocol.QuotasHold` | server/data/ai.ts:895-913 | under a policy that is never lowered, no day and no week of any user exceeds its allowance |
| `CreditProtocol.SettlingTwiceIsOnce` | server/data/ai.ts:876-887 | settling again, for any charge, changes nothing |
| `CreditProtocol.ToppingUpTwiceIsOnce` | server/data/ai.ts:761-768 | a key that was used before, for any user or amount, changes nothing but the registration |
| `CreditProtocol.SettlementFailsIff` | server/data/ai.ts:952-979 | a settlement of an active reservation fails if and only if a top-up took one of the ledger keys it needs |
| `CreditProtocol.RepairSettlesAll` | server/data/ai.ts:502-528 | a repair that commits leaves none of the listed ended runs with credits held and strands no other |
| `CreditProtocol.NobodyIsStranded` | server/data/ai.ts:466-499 | because a run ends together with its settlement, no ended run of any run of the code holds credits |
| `CreditMovements.RegisterMoves` | server/data/ai.ts:665-672 | account and default plan, which lasts the days of the policy, are there afterwards, existing ones are kept and nothing else changes |
| `CreditMovements.TopUpMoves` | server/data/ai.ts:750-793 | a new key raises this user's top-up by exactly the amount and appends one row with that amount and key; a used key changes nothing; all others, reservations and usage stay |
| `CreditMovements.ReserveMoves` | server/data/ai.ts:795-843 | which of the four answers a request gets, and that exactly the amount is held, with one reservation and one ledger row, or nothing moves |
| `CreditMovements.SettleMoves` | server/data/ai.ts:869-982 | a settlement collects what was asked, within what was reserved, as far as plan and top-up go and the plan first, takes the reservation back and records exactly that |
| `CreditMovements.SettledFunds` | server/data/ai.ts:888-950 | plan and top-up then offer exactly as much less as was recorded as charged, and those of everybody else what they did |
| `CreditMovements.FinishMoves` | server/data/ai.ts:472-499 | the end of a run is recorded together with the settlement of its reservation |
| `CreditMovements.StartMoves` | server/services/ai/aiService.ts:479-505 | a run begins together with its reservation, or not at all |
| `CreditMovements.PlanLastsItsDays` | server/data/ai.ts:1066-1080 | an assigned plan counts for exactly its days from now on, and a default plan for those of the policy |
| `CreditMovements.TopUpsAreWhatWasPaidIn` | server/data/ai.ts:750-982 | in every run a user's top-up and what was used of it are together the amounts of the top-ups whose key was new |
| `CreditMovements.RepairCharges` | server/data/ai.ts:502-528 | a repair charges a solvent user exactly what the run had recorded, cut to what was reserved |
| `CreditDatabase.BillingTables.EnsureBillingState` | server/data/ai.ts:665-672 | account and default plan exist afterwards, and existing ones are kept |
| `CreditDatabase.BillingTables.TopUpAiCredits` | server/data/ai.ts:750-793 | account and ledger row move together, by exactly the amount if the key is new and not at all if it is not |
| `CreditDatabase.BillingTables.ReserveCredits` | server/data/ai.ts:795-843 | reservation, account and ledger row move together or not at all |
| `CreditDatabase.BillingTables.SettleCredits` | server/data/ai.ts:869-982 | account, reservation, usage and ledger rows move together, and a conflict rolls everything back |
| `CreditDatabase.BillingTables.FinishAndSettleAiRun` | server/data/ai.ts:472-499 | the run's end and its settlement commit or abort together |
| `CreditDatabase.BillingTables.SettleTerminalAiReservations` | server/data/ai.ts:502-528 | settles every ended run that still holds credits, or none; afterwards none holds any |
| `CreditDatabase.StrandedRuns` | server/data/ai.ts:502-516 | exactly the ended runs with an active reservation |
| `ArticleCoverage.PageIsStretch` | server/data/articles.ts:346-394 | in both directions a page is the stretch of up to 50 rows of the list next to its cursor, and hasMore says whether rows remain beyond it |
| `ArticleCoverage.OlderIsTail` | server/data/articles.ts:370-373 | the rows past a cursor are a tail of the sorted list |
| `ArticleCoverage.NewerIsHead` | server/data/articles.ts:370-373 | the rows before a cursor are a head of the sorted list |
| `ArticleCoverage.ConnectedPageExtends` | client/repo/coverage.ts:46-99 | a connected page moves one end to its far end and reaches the end exactly when nothing remains; any other page proves nothing |
| `ArticleCoverage.RootIsSound` | client/repo/coverage.ts:65-75 | a root page starts a proof about exactly its own rows |
| `ArticleCoverage.CursorPageIsSound` | client/repo/coverage.ts:76-99 | a connected page extends the proof, a disconnected one leaves it, and an empty one may prove an end |
| `ArticleCoverage.ArticleList.ReconcileArticlePage` | client/data/repository.ts:1844-1929 | any page keeps every row between newest and oldest cached and the reached ends true; a root page replaces the list, a page at an end of the coverage moves that end, and any other leaves the coverage |
| `ArticleCoverage.FollowPages` | client/repo/coverage.ts:38-99 | following after-pages until hasMore is false sees every row exactly once, in order, and ends with complete coverage |
| `SettingsSync.ServerKeepsLastOfLatest` | server/data/userConfig.ts:27-44 | the conditional upsert keeps the last arrival among those with the greatest timestamp |
| `SettingsSync.StepKeepsInv` | client/interact/versionedSettings.ts:40-103 | writes, flushes, late and repeated patches and events keep every proposal newer than its base |
| `SettingsSync.WriteIsShown` | client/repo/assignment.ts:89-110 | what is written is what the device holds and shows from then on, at the time of the device or one more than the latest it holds; the base is kept and nothing else moves |
| `SettingsSync.WriteReachesServer` | client/interact/versionedSettings.ts:40-70 | a flush sends exactly what was written; if it wins it is what the server then has and the device shows, and if not the server's row stays |
| `SettingsSync.NewsBecomesBase` | client/repo/assignment.ts:77-88 | news of the server always becomes the base, and a proposal outlives it exactly when it is newer |
| `SettingsSync.ServerIsLastOfLatest` | server/data/userConfig.ts:27-44 | in every run the server's timestamp never decreases and its value is the last of the latest |
| `SettingsSync.PendingIsProposal` | client/repo/assignment.ts:57-75 | in every run a proposal is stored exactly when the resolved value is pending |
| `SettingsSync.ProposalsAreNotLost` | client/repo/assignment.ts:77-88 | a proposal gives way only to a newer one of its device or to a server version at least as new |
| `SettingsSync.FlushSynchronizes` | client/interact/versionedSettings.ts:40-56 | a flush that arrives, with its answer, leaves device and server with one value, the device's own exactly when it is not older |
| `SettingsSync.LateNewsGoesBackIff` | client/repo/assignment.ts:77-88 | late news takes a device back exactly when it has no proposal and the news is older than its base |
| `SettingsSync.LateNewsGoesBack` | client/repo/assignment.ts:77-88 | for any two values written one after the other, a run in which a device shows the later one and then the earlier one again |
| `RecoveryLifecycle.RecoveryCoordinator.Enqueue` | client/interact/remoteLifecycle.ts:66-77 | an event starts at once exactly when nothing is being recovered, and waits last in line otherwise |
| `RecoveryLifecycle.RecoveryCoordinator.Schedule` | client/interact/remoteLifecycle.ts:79-86 | from now on events wait, and a timer will see to them |
| `RecoveryLifecycle.RecoveryCoordinator.Stop` | client/interact/remoteLifecycle.ts:88-93 | drops what waits, but not a run that is under way |
| `RecoveryLifecycle.RecoveryCoordinator.Fire` | client/interact/remoteLifecycle.ts:82-102 | at most one run at a time |
| `RecoveryLifecycle.RecoveryCoordinator.StateRefreshed` | client/interact/remoteLifecycle.ts:115-124 | without a token exactly the waiting events are discarded; with one they keep waiting |
| `RecoveryLifecycle.RecoveryCoordinator.StageDone` | client/interact/remoteLifecycle.ts:122-150 | access, proposals, revisions and snapshots in this order, however a stage ended, and then the replay of what waits |
| `RecoveryLifecycle.RecoveryCoordinator.ReplayNext` | client/interact/remoteLifecycle.ts:150-158 | the next event that starts is the first that waits |
| `RecoveryLifecycle.RecoveryCoordinator.EventDone` | client/interact/remoteLifecycle.ts:150-160 | the run ends only when nothing waits any more |
| `RecoveryLifecycle.Live` | client/interact/remoteLifecycle.ts:60-162 | whatever happens between two stops, the events given are those started and those waiting, each once and in order; after runs without a token, exactly what had started at the last of them and what arrived since |
| `RecoveryLifecycle.Drain` | client/interact/remoteLifecycle.ts:104-162 | from any state, a bounded number of steps of the timer and of a run that keeps its token starts everything that waits, in order |
| `PromiseTails.ThrottleKeepsInv` | lib/tomato/client.ts:61-89 | every step keeps at most one operation past waiting and the starts spaced |
| `PromiseTails.ThrottledOneByOne` | lib/tomato/client.ts:61-89 | operations of one layer never overlap, start in order of arrival and at least the interval apart, however they end |
| `PromiseTails.StartsAsSoonAsAllowed` | lib/tomato/client.ts:61-89 | an operation goes on as soon as all before it are over, starts as soon as the interval has passed, and not sooner |
| `PromiseTails.BusyIffUnfinished` | lib/tomato/client.ts:45-50 | the client reports infinity exactly while somebody has arrived and is not done |
| `PromiseTails.LockKeepsInv` | client/data/files.ts:18-36 | entering, acquiring and releasing keep the chain in order |
| `PromiseTails.LockExcludes` | client/data/files.ts:18-36 | although the map entry is dropped, no two callers hold the lock together, and they hold it in order |
| `PromiseTails.AcquiresIff` | client/data/files.ts:18-36 | the lock can be acquired as soon as all who came before are done, and not sooner |
| `PromiseTails.EntryIffBusy` | client/data/files.ts:30-36 | the entry is kept exactly as long as somebody is not done |
| `CooldownAllocator.SearchIsShort` | lib/tomato/quota.ts:47 | the search takes no more steps than there are occupied times |
| `CooldownAllocator.SearchEndsIff` | lib/tomato/quota.ts:47 | the search ends if and only if it does not start at an infinity that is taken |
| `CooldownAllocator.Search` | lib/tomato/quota.ts:43-47 | the first free time, in slot steps from the start |
| `CooldownAllocator.DynamicCooldownAllocator.Allocate` | lib/tomato/quota.ts:26-60 | an unknown or expired user gets interference 0, an early one exactly one more, a patient one one less but not below 0; the time is the first one free, interference slots after the ready time and never sooner, and bounded; times still ahead stay distinct; no answer exactly when the ready time and another user's time are infinite |
| `CooldownAllocator.DynamicCooldownAllocator.Prune` | lib/tomato/quota.ts:66-75 | exactly the users go whose last request is longer ago than the time to live |
| `CooldownAllocator.RetryIsBounded` | lib/tomato/quota.ts:43-47 | the bound on the assigned time |
| `CooldownAllocator.SecondWaitsForever` | lib/tomato/quota.ts:26-60 | two users who meet only busy clients: the second one's search never ends |
| `CooldownAllocator.InfinityMeansBusyElsewhere` | lib/tomato/pool.ts:29-39 | the pool passes on infinity exactly when every client is busy without being leased |
| `CooldownAllocator.SoonestClient` | lib/tomato/pool.ts:29-39 | any other ready time is the earliest of its clients, a leased one counting as ready after the cooldown |
| `ContourStitching.EdgesOf` | client/components/EndfieldLogo.tsx:190-201 | the edges stored under a point id are exactly the segments that touch it, seen from their other end |
| `ContourStitching.BuildAdjacency` | client/components/EndfieldLogo.tsx:190-201 | the adjacency map holds these edges for every id |
| `ContourStitching.NextEdge` | client/components/EndfieldLogo.tsx:210-214 | an unvisited edge if there is one |
| `ContourStitching.ExtendForward` | client/components/EndfieldLogo.tsx:208-218 | extends a trail at its end until nothing unvisited touches that end |
| `ContourStitching.ExtendBackward` | client/components/EndfieldLogo.tsx:220-230 | extends a trail at its front until nothing unvisited touches that front |
| `ContourStitching.StitchSegments` | client/components/EndfieldLogo.tsx:190-234 | the paths are trails that share no segment, together have all of them, and were finished only when both ends were exhausted |
| `ContourStitching.EverySegmentOnce` | client/components/EndfieldLogo.tsx:190-234 | each segment is on exactly one path at exactly one place |
| `ContourStitching.EndsAreLeftBehind` | client/components/EndfieldLogo.tsx:210-232 | no end of a finished path occurs on a later path |
| `ContourStitching.PathsAreApart` | client/components/EndfieldLogo.tsx:190-234 | when at most two segments meet at any point, two paths share no point |
| `ContourStitching.PathsAreComponents` | client/components/EndfieldLogo.tsx:190-234 | when at most two segments meet at any point, a segment is on a path if and only if it is connected with the path's first segment |

## Left out

- FileStore.ExtentFileStore.Read: recovery and reading are one call here; what another tab can do between the two is `SharedReads`.
- FileStore.ExtentFileStore.Stream: delivers all chunks at once; cancellation and the shared lock held while it is open are in `GenerationProtocol` only.
- FileStore.ExtentFileStore.Replace: the source is a value, a list of chunks that may end in an error; a source that is read lazily while the store fails is not modelled. The collector running beside it is in `GenerationProtocol`.
- FileStore.ExtentFileStore.NextPhysicalId: the random part of a physical id is modelled by its uniqueness only.
- FileStore.ExtentFileStore.Begin: only transactions that write can abort or be the last one before a crash; reads of the object stores always succeed.
- GenerationProtocol.RunKeepsInv: the clock of the device never goes back; physical ids and collectors read the same clock.
- GenerationProtocol.GraceTimeIsExact: a file without extents has nothing to lose and is not part of the condition.
- GenerationProtocol.StepKeepsInv: grow, shrink and write are one step under the exclusive lock; their single transactions are in `FileStore`.
- The extent size is the source's 4 MiB, not a parameter.
- Offsets, lengths and sizes are natural numbers; the rejection of anything else by `assertSize` is not modelled.
- `size`, `list`, `deletePrefix`, `readAll`, the cursor and the quota recovery around them: wrappers over the modelled operations.
- BundleTransfer.FetchResourceBatch: the HTTP status, the catalog and the retry after reclaiming storage are not modelled.
- WindowRuns.StepKeepsInv: one conversation, one pull in flight at a time, so not a sync round beside the pull of an open chat; and the fetch of a page together with its save is one step relative to changes on the server.
- WindowRuns.GuardedWindowAgrees: the guards are sufficient; the exact conditions are `WindowBreaks.StartIsSafeIff`, `ReadIsSafeIff` and `WindowPublishes.PublishIsSafeIff`.
- WindowMisfits.CommitAgreesIff: for a commit that is not aborted; when it is aborted, nothing is published.
- PostWindow.SaveOne: a post is its id, sequence and revision, its text or a preview of it, its author, the post it answers with author and preview, and the names of both; stickers, images, whose thumbnails are not compared, deletion and edit times, sizes, access times and the bytes an eviction frees are not modelled. A user's name and handle are one string.
- PostModel.FullRow: the post a reply answers is of the same conversation.
- PostRepository.ConversationCache.DeleteConversationPostPrefix: the rows a retention claim protects are a set given to the call; claims and clocks behind it are not modelled.
- PostRepository.ConversationCache.IndexedRows: no two rows share a sequence, which the server's rows never do; the index's order among equal sequences is not modelled.
- RevisionPull.CollectRevisionRange: stated for the callback of the conversation sync, which overlays every page on a window that keeps its claims.
- RevisionPull.SyncConversationPostRevisions: the round for one conversation, beside a server that changes; live events and evictions by others during it are in `WindowProtocol`.
- The server's writer of posts is not part of this model; it is assumed that every change takes the conversation's next revision, that sequences grow and that posts are never removed.
- CreditLedger.Available: integer micros; the conversion to credits and percentages in floating point is not modelled.
- CreditLedger.TopUp: amounts are not negative, as the protocol's schema demands.
- CreditProtocol.SolventThroughout: the clock does not go back and is the same for the process and the database.
- CreditDatabase.BillingTables.SettleTerminalAiReservations: the ended runs are listed in the order of their reservations; the order of the source's join is not specified.
- Purging users, deleting runs, routing, messages and conversations of AI runs.
- ArticleCoverage.ArticleList.ReconcileArticlePage: one list that does not change while it is paged; the two transactions of the source are one, and memberships in other lists are not modelled.
- SettingsSync.StepKeepsInv: one setting; the unconditional write of server/data/userConfig.ts:46-60 and the furthest-read watermark are not part of the register.
- RecoveryLifecycle.Live: `Stop` begins a new count of events and is not among the happenings of one run; what the stages do is not modelled.
- PromiseTails.ThrottledOneByOne: timers fire not before their time, and settled promises wake their waiters in order.
- CooldownAllocator.DynamicCooldownAllocator.Allocate: integer milliseconds and an infinity; leasing and the queued variant of the pool are not modelled.
- ContourStitching.StitchSegments: coordinates are carried along and not interpreted; the marching-squares cells and the point ids they produce are not modelled.
- Web Locks, IndexedDB, SQLite, HTTP, React components, stores, validation schemas and the launcher.
