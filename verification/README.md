# Hoardbook background engine: a Dafny model

A model of the long-running loops and shared caches of `hb-app`, with proofs of what they keep over
whole runs. The network, the relays, the disk's failures and the cryptography are inputs of the model;
what the program decides between them is what is proved about.

- **Serve loop** (`RateLimit`, `RateWindow`, `RateExact`, `RequestKeys`, `AnsweredMemory`, `ServeLoop*`).
  `AutoApproveLoop` is the object the loop owns: rate limiter, hold queue, answered memory, attempt
  counts, inbox cursor. Each of its methods is proved equal to a function of the old state, and the results are about runs of that
  function: nothing is served while remembered, windows and cooldowns hold, held asks are conserved and
  do not starve. `ServeLoopGrants`, `ServeLoopAnswers` and `ServeLoopMemory` tell all a poll decides from
  its input and its log alone. `ServeLoopCollisions`, `ServeLoopOvertaken` and `RateWindow` say exactly when an ask is
  attempted again, passed over, or a window overfilled; `ServeLoopWitnesses` has runs in which it is.
- **Manifest cache** (`ManifestNames`, `EvictionPlan`, `CacheFiles`, `MigrationPass`, `ManifestCache`,
  `EvictionRecency`, `MigrationSafety`, `MigrationBlocked`). `CacheDir` has one method per operation running alone.
  `ManifestConcurrent` cuts every operation into its disk calls, for any number of threads with one
  lock, failures and crashes; `ManifestRefinement` proves that the directory is one map throughout,
  `ManifestCalls` ties its events to calls, and `ManifestMiskeyed` says exactly when it holds.
  `ManifestAlone` and `ManifestSweeps` say what each operation leaves when nobody interrupts it.
- **Backup** (`ArchivePaths`, `ArchiveRestore`, `ArchiveAccepts`, `ArchiveBackup`, `ArchiveWalk`,
  `ArchiveReadBack`, `ArchiveRoundTrip`, `ArchiveOrder`, `RestoreCommit`). Writer and reader as loops over
  abstract entries, which archives are taken and what a backup holds, the round trip as an
  if-and-only-if, bounds for every hostile archive, and the restore as a machine other programs and
  crashes can interfere with.
- **Fetching** (`PeerWave`, `FetchDriver`, `FetchBudget`, `FetchCandidates`, `FetchHoldings`,
  `FetchRefresh`, `FetchAsks`) and **enumeration** (`EnumerationQueue`, `EnumerationFairness`).
- **Shared client** (`RelaySets`, `RelayPool`, `RelayHistory`, `RelayCalm`), **sealed payload cache**
  (`SealedCache`, `SealedAlone`, `SealedCurrent`, `SealedReturns`) and **request inbox** (`Recency`, `DmQuarantine`, `DmHistory`).

`dafny verify dfyconfig.toml` checks everything.

Where the code does not do what its comments say, the model follows the code:

- `auto_approve.rs:562-566` says no manifest key can equal an access key. One can, when the access
  nonce reads as the end of a manifest key: `AccessKeyCollidesIff`. Nothing is served twice by it, for
  no serve body takes the ask. It is only attempted, and fails, while remembered, if it was held when
  the request was granted: `RememberedIsAttemptedIff`.
- `manifest_cache.rs:509` asks only whether the canonical file exists. A slot holding anything but its
  own entry loses the collection: `MigrationIsSafeIff`.
- `manifest_source.rs:118-131` names one way a change can be missed, a same-length edit inside one clock
  tick. There is another: a file that comes back to a stamp it left, as settings created and deleted
  again do. `CurrentIff` gives the condition.
- The window of 32 serves in 300 seconds does not survive every clock: `WindowKeptIff` says which.
- The loop reads the clock for every request, so an arrival can be served past the oldest held ask:
  `OvertakenIff` says when, `OldestAskIsServed` gives the bound on its wait when it does not happen, and
  `TickingClockStarves` a run in which it happens for ever.
- `fetch_driver.rs:773-775` calls the give-up self-healing. A collection's state is never made again, so
  it lasts as long as the process, whatever the author publishes: `GiveUpSurvivesNewListings`.

Texts stand for their UTF-8 bytes; byte counts are lengths. Instants and sizes are mathematical
integers where the program's arithmetic saturates far above its own caps.

## Model

| member | source | states |
|---|---|---|
| `RateLimit.AutoApproveCaps.Allows` | crates/hb-app/src/auto_approve.rs:176-193 | prunes the window exactly as `Pruned` says and answers `Permits`; nothing else of the limiter changes |
| `RateLimit.AutoApproveCaps.Record` | crates/hb-app/src/auto_approve.rs:196-199 | the pair is stamped and the stamp joins the back of the window |
| `RateLimit.PruneKeeps` | crates/hb-app/src/auto_approve.rs:176-185 | dropping stamps at a later clock loses nothing a later decision could need: the queue stays the tail of the whole serve history, and what fell off is out of every window still open |
| `RateLimit.RecordKeeps` | crates/hb-app/src/auto_approve.rs:186-199 | a permitted serve keeps the history within 32 per window and each pair 60 seconds apart, although only the pruned queue is consulted |
| `RateLimit.WindowBound` | crates/hb-app/src/auto_approve.rs:142-199 | any history the limiter permits has at most 32 serves in every 300-second half-open window, if no serve is stamped zero |
| `RateExact.PermitsIff` | crates/hb-app/src/auto_approve.rs:176-199 | after any decisions at a clock that does not go back, the next is permitted exactly when fewer than 32 serves of the whole history are in the window that ends now and every serve of the pair is 60 seconds old |
| `RequestKeys.ParseReachesWellShaped` | crates/hb-app/src/auto_approve.rs:258-316 | parsing yields exactly the bodies with bounded fields and no blank optional field: every such body is some message's parse |
| `RequestKeys.ParsesIff` | crates/hb-app/src/auto_approve.rs:277-316 | a message is an ask exactly when it carries the `manifest_request` tag, a slug, and no field over its cap; the ask is what its fields spell, a blank optional field being absent |
| `RequestKeys.DedupKeyInjective` | crates/hb-app/src/auto_approve.rs:462-470 | equal dedup keys come from the same sender, author, slug and nonce when the first three hold no bar |
| `RequestKeys.DedupKeyIff` | crates/hb-app/src/auto_approve.rs:462-470 | two asks of plain senders share a dedup key exactly when the senders agree and their authors, slugs and nonces, split at the bars and laid end to end, read the same |
| `RequestKeys.BarredSlugCollides` | crates/hb-app/src/auto_approve.rs:462-470 | two parsed asks that differ only in where a bar falls share a dedup key |
| `RequestKeys.AccessKeyCollidesIff` | crates/hb-app/src/auto_approve.rs:562-569 | an access key equals some parsed manifest ask's dedup key exactly when its nonce can be read as a slug-and-nonce tail, the end of a long author before it or not; the comment at these lines says never |
| `RequestKeys.CollidingAskIsUnservable` | crates/hb-app/src/commands/fulfil.rs:296-300 | the ask such a key belongs to names an author no share code looks like, so no serve body takes it |
| `RequestKeys.AccessKeyApart` | crates/hb-app/src/auto_approve.rs:562-569 | with no bar in asker or nonce an access key is no manifest key, whatever the ask |
| `RequestKeys.PaceKeySeparates` | crates/hb-app/src/auto_approve.rs:376-378 | an own-collection ask and a re-serve share a pace key exactly when sender and slug agree and the author is the text `self` |
| `AnsweredMemory.RememberAnswered` | crates/hb-app/src/auto_approve.rs:449-455 | the key joins the memory, or the memory empties when it grows past its bound, the new key included |
| `AnsweredMemory.ApplyKeepsBounds` | crates/hb-app/src/auto_approve.rs:503-533 | every outcome keeps stored counts below 36 over at most 1024 keys, and the memory at most 4096 keys once written |
| `AnsweredMemory.ServedForgetsCount` | crates/hb-app/src/auto_approve.rs:503-533 | a success erases the ask's count and leaves it remembered, unless remembering it overflowed |
| `AnsweredMemory.RememberingMayForget` | crates/hb-app/src/auto_approve.rs:449-455 | the memory can clear away the very key it was given |
| `ServeLoop.AutoApproveLoop.ApplyServeOutcome` | crates/hb-app/src/auto_approve.rs:503-533 | memory, counts and log become what `ApplyOutcome` says; the limiter, the queue and the cursor are untouched; the result says whether the ask is now remembered |
| `ServeLoop.AutoApproveLoop.RememberSeen` | crates/hb-app/src/auto_approve.rs:449-455 | the loop's own memory after one key |
| `ServeLoop.AutoApproveLoop.Handle` | crates/hb-app/src/auto_approve.rs:1013-1181 | one request: consult, pace, then serve, hold or drop, as `ProcessItem` says |
| `ServeLoop.AutoApproveLoop.Poll` | crates/hb-app/src/auto_approve.rs:871-1181 | one poll, from the fetched wraps: cursor, access pass, replays, arrivals, as `PollOnce` says; a poll that fetched nothing changes nothing. What that decides is told without it by `PollGrantsTheEarned`, `PollAnswersInOrder`, `EveryAttemptTells` and `CursorIsNewest` |
| `ServeLoopGrants.PollGrantsTheEarned` | crates/hb-app/src/auto_approve.rs:913-1009 | each access request of a poll, in order, is attempted once, with the outcome the grant gives, exactly when its sender asks for itself, is not blocked, looks like and parses as a share code, has a fetched teaser whose total is positive and at least ours, and its key is not remembered when its turn comes; after the last of them nobody is granted |
| `ServeLoopGrants.EveryGrantIsEarned` | crates/hb-app/src/auto_approve.rs:921-979 | each grant a poll attempts belongs to such a request among its own messages |
| `ServeLoopGrants.EveryGrantOfARunIsEarned` | crates/hb-app/src/auto_approve.rs:921-979 | so does each grant in the log of any run: a blocked sender, a forged asker or a smaller collection never gets one |
| `ServeLoopAnswers.PollAnswersInOrder` | crates/hb-app/src/auto_approve.rs:871-1181 | everything a poll of any reachable loop adds to the log, at a clock that does not go back: its access requests in order, then the asks it held and those among its messages; an arrival that is remembered leaves nothing, any other ask leaves one event, an attempt exactly when the serves logged so far permit it, with the serve's outcome or failure if no serve body takes it, else held, found already held or dropped at 1024 by what the log says is held; and the queue ends as the log says |
| `ServeLoopMemory.EveryAttemptTells` | crates/hb-app/src/auto_approve.rs:449-533 | in every run, clears included, an attempt leaves its key remembered exactly when it succeeds or is the 36th failure since the counts were cleared and the key last remembered; the memory clears exactly when one key more would make over 4096, the counts over 1024 |
| `ServeLoopLimits.EveryRunIsPaced` | crates/hb-app/src/auto_approve.rs:142-199 | in every run whose clock never goes back, two serves of one pace key are 60 seconds apart, and every 300-second window holds at most 32 serves if the clock is past zero |
| `ServeLoopLimits.EveryRunIsBounded` | crates/hb-app/src/auto_approve.rs:422-455 | in every run, counts stay below 36 over at most 1024 keys and the memory within 4096 keys once written |
| `ServeLoopLimits.CursorNeverPassesNow` | crates/hb-app/src/auto_approve.rs:595-605 | whatever stamps the gift-wraps carry, the fetch cursor never passes the newest clock a poll has read |
| `ServeLoopLimits.CursorIsNewest` | crates/hb-app/src/auto_approve.rs:595-605 | after any polls the cursor is the furthest any fetched gift-wrap has taken it, each to its stamp or to its poll's clock: past none of them short and nowhere none of them reaches |
| `ServeLoopSafety.NoRunServesARememberedAsk` | crates/hb-app/src/auto_approve.rs:1013-1181 | in every run of plain senders, whatever messages arrive, nothing is served or granted while it is remembered, replays included, though replays skip the consult |
| `ServeLoopSafety.SparedAsksAreAttemptedOnce` | crates/hb-app/src/auto_approve.rs:1013-1181 | an ask whose key no access request of the run has is not even attempted while it is remembered |
| `ServeLoopCollisions.RememberedIsAttemptedIff` | crates/hb-app/src/auto_approve.rs:562-569 | some run attempts a manifest ask remembered through an access request of this asker and nonce exactly when the nonce reads as the tail of a manifest key |
| `ServeLoopCollisions.RememberedAttemptsFail` | crates/hb-app/src/auto_approve.rs:1085-1181 | every such attempt fails |
| `ServeLoopSafety.ServedTwiceOnlyAfterAClear` | crates/hb-app/src/auto_approve.rs:449-533 | in every run of plain senders, two successes under one key have an overflow clear of the memory between them |
| `ServeLoopSafety.GiveUpIsExact` | crates/hb-app/src/auto_approve.rs:422-442 | with no overflow, an always-failing ask whose key no access request has is attempted at most 36 times and is remembered exactly from the 36th attempt on |
| `ServeLoopSafety.GivenUpForGood` | crates/hb-app/src/auto_approve.rs:503-533 | however long the run goes on, those 36 attempts are the last |
| `ServeLoopSafety.ReplayIsHeld` | crates/hb-app/src/auto_approve.rs:1050-1083 | a replay that pacing refuses goes back to the queue: it is never dropped at the bound and never found already held |
| `ServeLoopQueue.PollConserves` | crates/hb-app/src/auto_approve.rs:1013-1083 | one poll on any input: asks still held keep their order in front of the newly held ones, whoever is missing was attempted, no replay was dropped, at most 1024 are held, keys distinct |
| `ServeLoopQueue.RunKeepsShape` | crates/hb-app/src/auto_approve.rs:787-796 | in every run the hold queue has distinct keys and at most 1024 asks |
| `ServeLoopWait.OldestAskIsServed` | crates/hb-app/src/auto_approve.rs:1011-1083 | the oldest held ask is attempted by the first draining poll that begins 360 seconds after the newest stamp recorded while it became the oldest, if the readings of a poll that refused it at first all refuse it |
| `ServeLoopWait.OneClockIsSteady` | crates/hb-app/src/auto_approve.rs:1046 | a poll that decides everything at one reading meets that condition, whatever the limiter holds |
| `ServeLoopOvertaken.OvertakenIff` | crates/hb-app/src/auto_approve.rs:1046-1083 | an ask held alone and refused at a poll's first reading: no poll at these readings serves another past it while it would be admitted, whatever arrives, exactly when every later reading refuses it too |
| `ServeLoopWait.ReachableIsStamped` | crates/hb-app/src/auto_approve.rs:176-199 | in a run whose clock never goes back that stamp is at most the last clock read |
| `ServeLoopWitnesses.ZeroClockServesAnyNumber` | crates/hb-app/src/auto_approve.rs:178 | at clock zero any number of asks is served in one window |
| `ServeLoopWitnesses.BackwardClockOverfillsWindow` | crates/hb-app/src/auto_approve.rs:176-199 | a clock that jumps ahead and comes back lets 64 serves into one window |
| `RateWindow.WindowKeptIff` | crates/hb-app/src/auto_approve.rs:176-199 | every run of decisions at given clock readings keeps every 300-second window within 32 serves exactly when no 33 of the readings fit one window with the first pruned by a reading up to the last |
| `RateWindow.RisingCannotOverfill` | crates/hb-app/src/auto_approve.rs:176-199 | readings that never go back and are past zero cannot overfill a window |
| `ServeLoopWindow.RunKeepsWindow` | crates/hb-app/src/auto_approve.rs:1046-1083 | a run of the loop keeps every window within 32 serves unless the readings its decisions took can overfill one |
| `ServeLoopWitnesses.TickingClockStarves` | crates/hb-app/src/auto_approve.rs:1046 | with the clock read again for each request, there are runs of any length in which the oldest held ask is never attempted while arrivals behind it are served |
| `ManifestNames.PreimageInjective` | crates/hb-app/src/manifest_cache.rs:101-108 | length-prefixed parts, however many, are determined by their preimage |
| `ManifestNames.CanonicalInjective` | crates/hb-app/src/manifest_cache.rs:101-108 | different collections never share a file |
| `ManifestNames.LegacyNeverCanonical` | crates/hb-app/src/manifest_cache.rs:831-841 | a name of the three-part scheme is never a name of the two-part scheme |
| `EvictionPlan.Plan` | crates/hb-app/src/manifest_cache.rs:145-163 | the loop's result is `PlanOf` |
| `EvictionPlan.PlanIsMinimal` | crates/hb-app/src/manifest_cache.rs:140-163 | the plan is a least-recent-first prefix: the rest fits the cap or is one entry, no shorter prefix would do, the last in access order stays, nothing goes when all fits |
| `EvictionPlan.CutIsUnique` | crates/hb-app/src/manifest_cache.rs:145-163 | that description leaves a plan no choice |
| `EvictionPlan.EvictsLeastRecent` | crates/hb-app/src/manifest_cache.rs:145-163 | nothing the plan evicts was accessed later than anything it keeps |
| `EvictionRecency.EvictionFits` | crates/hb-app/src/manifest_cache.rs:140-163 | after an eviction pass told of every readable entry, with every file removable, the readable entries fit the ceiling or are a single one |
| `EvictionRecency.OlderGoFirst` | crates/hb-app/src/manifest_cache.rs:145-163 | whatever cannot be removed, an entry goes only when every entry accessed before it goes too or is stuck |
| `EvictionRecency.LastReadStays` | crates/hb-app/src/manifest_cache.rs:140-144 | the entry accessed last of all stays, however small the ceiling |
| `EvictionRecency.ReadOutlives` | crates/hb-app/src/manifest_cache.rs:323-334 | after a read at `now`, later than every other access, an eviction pass to any ceiling leaves the collection that was read, stamped `now` |
| `CacheFiles.AnswerIff` | crates/hb-app/src/manifest_cache.rs:278-321 | a read gets the envelope in its own slot exactly when the entry there is of its npub and slug and, if a fingerprint is pinned, of that fingerprint |
| `ManifestCache.CacheDir.WriteAtomically` | crates/hb-app/src/manifest_cache.rs:230-257 | stage and rename: the slot holds the whole new entry and every other file is as before, or the directory is as before but for the staged file |
| `ManifestCache.CacheDir.Put` | crates/hb-app/src/manifest_cache.rs:208-257 | one collection's lookup becomes the new snapshot, its file the new entry and every other file is as before, or none changes |
| `ManifestCache.CacheDir.GetInner` | crates/hb-app/src/manifest_cache.rs:302-336 | the answer is the stored snapshot if its key, and its fingerprint when pinned, match; a hit leaves the entry stamped with the read's `now` and every other file as before; a miss, a failed write or a failed rename leaves every file but the staged one; no lookup changes, whatever happens to the write-back |
| `ManifestCache.CacheDir.EvictOver` | crates/hb-app/src/manifest_cache.rs:258-271 | exactly the planned files go, but those that cannot be removed |
| `ManifestCache.CacheDir.ClearAll` | crates/hb-app/src/manifest_cache.rs:399-414 | success means the directory is gone; a wipe that is stopped only removed files |
| `ManifestCache.CacheDir.MigrateLegacyDir` | crates/hb-app/src/manifest_cache.rs:484-520 | scan, group, claim and remove, as `MigratePass` says, under any failures |
| `MigrationSafety.PassKeepsEveryCollection` | crates/hb-app/src/manifest_cache.rs:448-520 | under any rename and delete failures, every collection with a readable copy still has one, when no slot is blocked |
| `MigrationSafety.PassTidies` | crates/hb-app/src/manifest_cache.rs:484-520 | after a failure-free pass each collection has exactly one file: the untouched canonical one, or else the legacy copy with the greatest last access |
| `MigrationSafety.SecondPassChangesNothing` | crates/hb-app/src/manifest_cache.rs:470-520 | a second pass changes nothing, whatever order it lists and whatever fails |
| `MigrationBlocked.BlockedSlotLosesCollection` | crates/hb-app/src/manifest_cache.rs:509 | a collection whose slot holds anything but its own entry loses every copy in some failure-free pass |
| `MigrationBlocked.MigrationIsSafeIff` | crates/hb-app/src/manifest_cache.rs:448-520 | a failure-free pass keeps every collection, however the directory is listed, exactly when every slot with legacy copies is free or holds its own entry |
| `ManifestRefinement.StepKeeps` | crates/hb-app/src/manifest_cache.rs:165-520 | every disk call of every operation, by any thread, failing or not, and a crash, keeps the directory equal to the map |
| `ManifestRefinement.EveryRunIsOneMap` | crates/hb-app/src/manifest_cache.rs:165-336 | in every interleaving of put, get, wipe and migration calls each lookup equals the map of the recorded events, reads answer from it, the migration adopts only what it lacks and never takes a collection away |
| `ManifestRefinement.NothingIsRestored` | crates/hb-app/src/manifest_cache.rs:241-257 | a lookup is decided by the last put, adoption, eviction or wipe of its key: no write-back restores a replaced snapshot or revives a removed one |
| `ManifestRefinement.ReadsSeeTheLastEvent` | crates/hb-app/src/manifest_cache.rs:302-336 | a read's answer is the snapshot of the last event of its key before it |
| `ManifestRefinement.EveryMomentHoldsWholeEntries` | crates/hb-app/src/manifest_cache.rs:225-242 | at every moment, a crash included, every slot holds one whole entry of its own collection |
| `ManifestRefinement.MigrationStepKeepsCopies` | crates/hb-app/src/manifest_cache.rs:448-520 | whatever other threads do, no step of a migration takes the last readable copy of a collection whose own slot did not start unreadable |
| `ManifestCalls.PutCountsOnce` | crates/hb-app/src/manifest_cache.rs:208-275 | whatever other threads do meanwhile, a put that reports success added its own event exactly once between its start and its return, one that reports failure none |
| `ManifestCalls.PutEventsArePuts` | crates/hb-app/src/manifest_cache.rs:253 | every put event is the rename of some put's own entry |
| `ManifestMiskeyed.LonePutLands` | crates/hb-app/src/manifest_cache.rs:208-257 | a put nobody interrupts and no call fails lands, whatever is cached |
| `ManifestAlone.LoneGetTouches` | crates/hb-app/src/manifest_cache.rs:302-336 | a get nobody interrupts: a hit stamps the entry with the read and changes no other file, a miss changes nothing |
| `ManifestAlone.LonePutEvicts` | crates/hb-app/src/manifest_cache.rs:208-275 | a put with a ceiling nobody interrupts: the entry lands and exactly the planned files go |
| `ManifestAlone.LonePutFits` | crates/hb-app/src/manifest_cache.rs:258-271 | so the readable entries then fit the ceiling or are a single one |
| `ManifestAlone.ReadOutlivesPut` | crates/hb-app/src/manifest_cache.rs:302-336 | a get later than every other access, then a put of another collection with a ceiling: what was read goes only together with every entry but the new one |
| `ManifestSweeps.LoneClearEmpties` | crates/hb-app/src/manifest_cache.rs:399-414 | a wipe nobody interrupts leaves no directory |
| `ManifestSweeps.LoneMigrationIsThePass` | crates/hb-app/src/manifest_cache.rs:448-520 | a migration nobody interrupts makes of the directory what the pass on its own makes, and marks it done |
| `ManifestMiskeyed.OneMapIff` | crates/hb-app/src/manifest_cache.rs:484-520 | the directory is one map in every run exactly when it starts with no entry under another collection's name |
| `ArchivePaths.SanitizeRel` | crates/hb-app/src/backup.rs:453-479 | the loop accepts a path exactly when `Sanitized` does, with the same components, by the separators and drives of Unix or of Windows |
| `ArchivePaths.AcceptedIsPlain` | crates/hb-app/src/backup.rs:439-479 | on either system every component of an accepted path is one plain name without a separator that survives Windows normalization and names no device or stream |
| `ArchivePaths.AcceptedIff` | crates/hb-app/src/backup.rs:453-479 | a path is accepted exactly when it names something, names no drive, does not start at a root, never climbs, and every name in it survives; it is then those names, in their order |
| `ArchivePaths.AcceptedStaysInside` | crates/hb-app/src/backup.rs:439-516 | an accepted path below any directory, its names separated again by the system's rules, resolves to itself: strictly inside, nothing renamed, no drive, no device |
| `ArchivePaths.SlashRulesClimbOnWindows` | crates/hb-app/src/backup.rs:467-472 | taking a path apart at slashes alone would not do on Windows: there is a text those rules accept that climbs, and the Windows rules refuse |
| `ArchivePaths.ReservedIsADevice` | crates/hb-app/src/backup.rs:490-516 | the refused names are those with a colon and the 22 devices, in any case, alone or with any extension |
| `ArchivePaths.SplitUndoesJoin` | crates/hb-app/src/backup.rs:518-526 | splitting a slash-joined path gives its components back |
| `ArchivePaths.StoredPathReadsBack` | crates/hb-app/src/backup.rs:453-477 | a stored path is read back as itself or refused, exactly when each component survives |
| `ArchivePaths.IdentityMatchesByComponent` | crates/hb-app/src/backup.rs:528-535 | a path matches the identity entry exactly when its two components do, case aside |
| `ArchiveRestore.ExtractArchive` | crates/hb-app/src/backup.rs:191-313 | the reader's loop returns `Extracted`; whatever stops it, what it has written is within the caps and below the directory |
| `ArchiveRestore.HostileArchivesAreBounded` | crates/hb-app/src/backup.rs:40-55 | for every entry list: at most 500 MiB over 10,000 entries and 50,000 path components, every path inside and kept as it is, none written twice, the portable identity never written |
| `ArchiveRestore.EveryEntryIsHonoured` | crates/hb-app/src/backup.rs:222-311 | a successful extraction skipped no entry and dropped no byte, and none was a link or sparse |
| `ArchiveAccepts.AcceptsIff` | crates/hb-app/src/backup.rs:217-311 | the reader takes any list of entries exactly when each is a file or a directory with an accepted path, the counts, declared sizes, bytes and components up to it are within the caps, an identity is valid, its disk call does not fail, and no file's path leads to or through another's or a directory's; what it has then is what the entries say |
| `ArchiveAccepts.RestoresIff` | crates/hb-app/src/backup.rs:191-313 | a restore of any list succeeds exactly when it is taken and an identity in it has its place; every file then holds its entry's bytes, the machine's identity file the last identity, and nothing else is there |
| `ArchiveBackup.CollectFiles` | crates/hb-app/src/backup.rs:393-437 | the recursive walk returns every regular file but the at-rest identity, in order, and stops exactly when what it must archive passes the cap |
| `ArchiveBackup.Backup` | crates/hb-app/src/backup.rs:87-137 | the archive is `BackedUp` |
| `ArchiveWalk.WalkFinds` | crates/hb-app/src/backup.rs:393-437 | the walk finds exactly the regular files of the tree, at any depth, but the one it skips; links and special files are none |
| `ArchiveWalk.BackupHolds` | crates/hb-app/src/backup.rs:87-137 | a backup fails exactly when a present identity cannot be read or the files do not fit with it; else its entries are the portable identity, if there is one, and every other regular file of the profile, whole, under its path, and nothing more, under the passphrase given |
| `ArchiveReadBack.ExtractsIff` | crates/hb-app/src/backup.rs:217-311 | the reader takes a list of stored files exactly when it is within the caps, every name survives and the identity entries are valid, and then keeps all of it |
| `ArchiveRoundTrip.RoundTripsIff` | crates/hb-app/src/backup.rs:87-313 | backup then restore reproduces the files and the identity exactly for the portable profiles: within the byte, entry and component caps, surviving names, a valid identity, no other file passing for the identity entry |
| `ArchiveRoundTrip.OtherPassphraseIsRefused` | crates/hb-app/src/backup.rs:191-211 | with a passphrase other than the one used, or one where none was, nothing is restored |
| `ArchiveOrder.ArchiveIgnoresWalkOrder` | crates/hb-app/src/backup.rs:122-131 | two walks that meet the same files give the same archive |
| `RestoreCommit.RestoreNeverClobbers` | crates/hb-app/src/backup.rs:139-171 | whatever others do to the target, a call of the restore changes it only by removing an empty directory or by putting the complete one where nothing was |
| `RestoreCommit.RestoreIsAllOrNothing` | crates/hb-app/src/backup.rs:319-342 | restoring alone, failing or crashing anywhere, the target is as it was, or was empty and is gone, or is complete, the last exactly when success is reported |
| `RestoreCommit.OccupiedIsRefused` | crates/hb-app/src/backup.rs:149-171 | alone at an occupied target a restore never succeeds and never touches it, and a directory with entries is refused before anything is unpacked |
| `RestoreCommit.ValidationPromisesRestore` | crates/hb-app/src/backup.rs:173-184 | an archive that validates restores into a wiped profile |
| `PeerWave.WaveIs` | crates/hb-app/src/peer_wave.rs:113-131 | a wave exists exactly when some source is ready, asks only ready ones, at most three carriers, and the author whenever ready |
| `PeerWave.CarriersGoInOrder` | crates/hb-app/src/peer_wave.rs:121-127 | a ready carrier with fewer than three ready ones before it is asked, in that place |
| `PeerWave.BackoffDoubles` | crates/hb-app/src/peer_wave.rs:100-111 | two seconds after the first ask, twice as long after each further one |
| `PeerWave.GivesUpIff` | crates/hb-app/src/peer_wave.rs:133-148 | giving up is the answer exactly when every source, the author among them, is exhausted |
| `PeerWave.WaitIsExact` | crates/hb-app/src/peer_wave.rs:133-148 | a wait is positive, before it ends the answer is still to wait for the rest, and when it ends there is someone to ask |
| `FetchDriver.AskState.NoteAttempt` | crates/hb-app/src/fetch_driver.rs:188-201 | the named source, the author first, gains one attempt at this instant; nothing else changes |
| `FetchDriver.AskState.Poll` | crates/hb-app/src/fetch_driver.rs:760-831 | one poll asks the wave and notes every ask |
| `FetchBudget.AskBudget` | crates/hb-app/src/peer_wave.rs:40-72 | however the polls fall, each source is asked at most 3 times and all together at most 3 times each |
| `FetchBudget.AsksAreSpaced` | crates/hb-app/src/peer_wave.rs:74-111 | each ask of a source comes at least its doubling backoff after the one before |
| `FetchBudget.GiveUpIsAbsorbing` | crates/hb-app/src/peer_wave.rs:28-29 | once a state gives up, no later poll of it asks anyone or changes anything |
| `FetchBudget.EverySourceHasItsTurn` | crates/hb-app/src/peer_wave.rs:15-29 | polled patiently and answered by nobody, every source is asked exactly 3 times and then the driver gives up |
| `FetchRefresh.RefreshTier.PollOnce` | crates/hb-app/src/fetch_driver.rs:676-835 | one poll of the refresh tier: every stale holding, author by author, finds its collection's state or makes it, asks the wave and notes it, as `Refreshed` says; which collections that asks for is told without it by `OnlyTheStaleAreAsked` and `TheStaleAreAsked` |
| `FetchAsks.OnlyTheStaleAreAsked` | crates/hb-app/src/fetch_driver.rs:733-760 | each ask a poll sends is of a collection of which a copy is held at another fingerprint than the one its own author lists, and it wants that one |
| `FetchAsks.EveryAskIsOfAStale` | crates/hb-app/src/fetch_driver.rs:733-760 | so is each ask of any run, at one of its polls |
| `FetchAsks.TheStaleAreAsked` | crates/hb-app/src/fetch_driver.rs:760-826 | conversely each such collection with a source that is ready when the poll begins is asked for in that poll, at the fingerprint its author lists |
| `FetchRefresh.EveryCollectionRunsAlone` | crates/hb-app/src/fetch_driver.rs:651-670 | over any polls, each collection's state and asks are a run of that collection alone, started among some poll's contacts: no other collection and no fingerprint has a part in it |
| `FetchRefresh.EveryCollectionIsBudgeted` | crates/hb-app/src/fetch_driver.rs:672-675 | over the whole life of the process, through any listings, a source is asked for a collection at most 3 times and each time a backoff later |
| `FetchRefresh.GiveUpSurvivesNewListings` | crates/hb-app/src/fetch_driver.rs:761-777 | a give-up outlives every later listing, new fingerprints included; the comment at these lines calls it self-healing |
| `FetchCandidates.StartIs` | crates/hb-app/src/fetch_driver.rs:167-182 | every contact but the author and this node is a candidate, the author is none |
| `FetchCandidates.AskBudgetIff` | crates/hb-app/src/fetch_driver.rs:176-201 | the ask budget holds in every run exactly when the contacts that may be asked are distinct |
| `FetchHoldings.StaleIff` | crates/hb-app/src/fetch_driver.rs:97-116 | a holding is stale exactly when its author's listing names another fingerprint for it |
| `FetchHoldings.FindSlugIs` | crates/hb-app/src/fetch_driver.rs:106-116 | the listing entry compared with is the first of its slug, or there is none |
| `FetchHoldings.UnheldIff` | crates/hb-app/src/fetch_driver.rs:128-139 | a collection is wanted exactly when it is listed with a fingerprint and never held |
| `FetchHoldings.TiersAreApart` | crates/hb-app/src/fetch_driver.rs:97-139 | the two tiers never ask for the same collection |
| `FetchHoldings.ArrivalSettles` | crates/hb-app/src/fetch_driver.rs:118-127 | once held at the listed fingerprint, neither tier asks again |
| `FetchHoldings.OversizedIsNotListed` | crates/hb-app/src/fetch_driver.rs:141-169 | the listing both tiers compare against holds every collection but the oversized ones |
| `FetchHoldings.ListingIsInOrder` | crates/hb-app/src/fetch_driver.rs:158-169 | and in their order |
| `RelaySets.SameRelaySetIff` | crates/hb-app/src/net.rs:304-317 | two relay lists count as the same exactly when one is a reordering of the other |
| `RelayPool.SharedRelay.GetOrConnect` | crates/hb-app/src/net.rs:334-356 | an uninterrupted call: a client in the slot that is for the wanted relays, in any order, and alive is returned and nothing changes; else a new client for them is made, stored and returned if they can be reached, and nothing changes if not |
| `RelayPool.SharedRelay.Reset` | crates/hb-app/src/net.rs:406-408 | the slot is empty |
| `RelayPool.OneConnectAtATime` | crates/hb-app/src/net.rs:329-356 | with any number of callers, cancelled at any moment, one connect is in flight at most, and the slot still holds what made it necessary |
| `RelayPool.EveryEventIsJustified` | crates/hb-app/src/net.rs:319-356 | every returned client is for its caller's relays in some order and was seen alive; every connect replaced nothing, a client seen dead, or one for other relays |
| `RelayPool.SomeCallCanMove` | crates/hb-app/src/net.rs:329-356 | while a call is under way some call can move |
| `RelayHistory.SlotIsTold` | crates/hb-app/src/net.rs:329-356 | whatever callers do, the slot holds the client connected last unless it was reset since, no two connects make the same client, and every client handed out was connected before |
| `RelayHistory.LoneCall` | crates/hb-app/src/net.rs:334-356 | a call nobody interrupts hands out the slot's client when it may, else connects, and leaves no guard behind |
| `RelayCalm.ConnectsOnce` | crates/hb-app/src/net.rs:322-356 | with one wanted set, a live pool and no reset, exactly one connect happens once anyone has an answer, and all answers are that client |
| `SealedCurrent.AnswersAreCurrent` | crates/hb-app/src/manifest_source.rs:107-196 | in every interleaving, every answer for a collection is built from what each file held during the call, if the settings never come back to a stamp they left and the draft does not under the same settings stamp |
| `SealedCurrent.EveryAnswerIsCurrent` | crates/hb-app/src/manifest_source.rs:107-196 | in every interleaving of calls and edits, every answer, hit or built, is for its caller's key and built from what each file held at some moment of the call, if no file comes back to a stamp it left |
| `SealedCurrent.QuietHitIsARebuild` | crates/hb-app/src/manifest_source.rs:118-131 | with no edit during the call, a hit equals a rebuild of draft and settings at its stats |
| `SealedAlone.LoneCall` | crates/hb-app/src/manifest_source.rs:107-196 | a call while nothing is edited hits exactly when the cached payload was made with the same browse key under the stamps both files have, and else builds from what both hold and caches that |
| `SealedReturns.ReturnServesTheMiddle` | crates/hb-app/src/manifest_source.rs:102-131 | a file that was edited and came back to an earlier stamp can have its middle version served |
| `SealedReturns.CurrentIff` | crates/hb-app/src/manifest_source.rs:118-142 | whatever is edited, every answer for a collection is current in every interleaving exactly when the settings never come back to a stamp they left and no two calls can take the same pair of stamps around a draft the later one does not see |
| `SealedReturns.CreatedAndDeletedReturns` | crates/hb-app/src/manifest_source.rs:60-64 | settings created and deleted again come back to the stamp of a missing file |
| `EnumerationQueue.ContactStore.HealPendingNeverEnumerated` | crates/hb-app/src/enumeration_queue.rs:45-65 | success, when no stub's save fails, heals every legacy stub and counts them; else it stops at a stub whose save failed, with those before it healed and the rest as they were |
| `EnumerationQueue.HealIsExact` | crates/hb-app/src/enumeration_queue.rs:34-65 | a contact is healed exactly when it was joined through a topic, has no key and no collections, and counts as fetched; only its status changes, the count is of those changed, and twice is once |
| `EnumerationQueue.PickIsFirst` | crates/hb-app/src/enumeration_queue.rs:64-73 | a pending contact is picked whenever there is one, and none is before it by stamp, then name |
| `EnumerationQueue.PickIgnoresListingOrder` | crates/hb-app/src/enumeration_queue.rs:64-73 | the pick does not depend on the order the store lists contacts in |
| `EnumerationQueue.ContactStore.EnumerateNextPending` | crates/hb-app/src/enumeration_queue.rs:91-127 | one tick: nothing without an identity, a listing or a pending contact; else the next one's reading is stored in the store as others left it, or, when the read failed, that contact is stamped anew if the save lands and changed in nothing else; everyone else is as others left them |
| `EnumerationQueue.TickedIs` | crates/hb-app/src/enumeration_queue.rs:79-127 | the same of every tick on values: a contact whose read failed keeps its status, so it stays in the queue |
| `EnumerationFairness.EveryPendingContactIsPicked` | crates/hb-app/src/enumeration_queue.rs:75-127 | whoever is added meanwhile, a pending contact is picked within as many ticks as there are pending contacts ahead of it, the ticks until then that picked none or lost their deferral, and one more |
| `EnumerationFairness.FailedIsPickedAgain` | crates/hb-app/src/enumeration_queue.rs:75-85 | a contact whose read failed is picked again within as many ticks as there are pending contacts ahead of it then, those that picked none or lost their deferral, and one more |
| `TextOrder.NotAfterIff` | crates/hb-app/src/enumeration_queue.rs:64-73 | names are compared byte by byte: where two first differ the smaller byte decides, and a name comes before its continuations |
| `EnumerationFairness.LostDeferralStarves` | crates/hb-app/src/enumeration_queue.rs:115-124 | if no deferral reaches the disk, every tick is lost and the contact behind is never picked |
| `Recency.CappedKeepsNewest` | crates/hb-app/src/dm_quarantine.rs:84-88 | a cap keeps as many as fit, and nobody left out is more recent than one kept |
| `DmQuarantine.MergeIntoRequests` | crates/hb-app/src/dm_quarantine.rs:61-92 | a batch leaves every bucket of the merge, or the 64 most recent; what the merge is, sender by sender, is told by `InboxAfterBatch` |
| `DmHistory.InboxAfterBatch` | crates/hb-app/src/dm_quarantine.rs:61-92 | whoever is in the inbox after a batch was in it or wrote, and has the bucket its own messages make of the one before: the last 50 of what it held and took in, first seen as before or now, last active now exactly if one was taken in; whoever is known and missing, when 64 are kept, was active no later than any of them |
| `DmHistory.ActivityIs` | crates/hb-app/src/dm_quarantine.rs:69-80 | a bucket's last activity is the batch's clock exactly when one of its messages was taken in, else as before; who it is and when it was first seen never change |
| `DmHistory.WhoWritesStays` | crates/hb-app/src/dm_quarantine.rs:79-91 | a sender whose message was taken in stays, if at most 64 wrote in the batch and the clock is ahead of everything recorded before |
| `DmQuarantine.RecordDeclined` | crates/hb-app/src/dm_quarantine.rs:94-106 | the declined senders and one more, or the 1024 most recently declined of them |
| `DmHistory.EveryInboxIsSound` | crates/hb-app/src/dm_quarantine.rs:25-37 | over any history: at most 64 senders, each once, at most 50 messages each, no wrap twice |
| `DmHistory.SendersAreSeparate` | crates/hb-app/src/dm_quarantine.rs:69-82 | each sender's bucket depends on that sender's messages alone |
| `DmHistory.OnlyTheOldestGo` | crates/hb-app/src/dm_quarantine.rs:75-82 | a bucket holds the last 50 of what it held and took in, in arrival order |
| `DmHistory.RedeliveryChangesNothing` | crates/hb-app/src/dm_quarantine.rs:75-77 | wraps still held, delivered again, change neither messages nor activity |
| `DmHistory.DeclineIsRemembered` | crates/hb-app/src/dm_quarantine.rs:91-106 | a sender just declined is remembered at that date whoever is forgotten, when the clock is ahead of every date remembered |
| `DmHistory.DeclinedAfter` | crates/hb-app/src/dm_quarantine.rs:94-106 | at any clock the list has that decline and every other name's last date; only when 1024 are kept is anyone forgotten, and nobody declined later than one who is kept |

## Left out

- Relay connections, fetching, gift-wrap decoding and its deduplication, sending, the serve and grant bodies: a poll is given what they return.
- SHA-256 is taken to be injective (names keep their preimage); encryption, tar framing and JSON are inputs or codecs with the round trips they promise.
- ServeLoop.AutoApproveLoop.Poll: does not model saving the answered memory to disk once per poll, nor the choice of relay client.
- ServeLoopSafety.NoRunServesARememberedAsk: one run of the process; a restart reloads whatever was last saved.
- ManifestRefinement.EveryRunIsOneMap: threads of one process under one lock; other processes writing the same directory are not modelled.
- ManifestRefinement.StepKeeps: a scan is one step per file; listing the directory and the eviction plan's reading of it are one step each.
- EvictionPlan.PlanIsMinimal: file sizes are natural numbers, so an overflowing sum is not modelled.
- ManifestCache.CacheDir.MigrateLegacyDir: collections are visited in an order the listing decides where the program's hash map gives any; the listing itself is arbitrary.
- ArchivePaths.SanitizeRel: a Windows share or verbatim prefix is read as a root, which is refused as a prefix is; names that are not valid UTF-8 are not modelled.
- ServeLoopCollisions.RememberedIsAttemptedIff: whether a text that looks like a share code decodes to one is among a poll's inputs; only the look is modelled.
- ArchiveRoundTrip.RoundTripsIff: backup and restore on the same kind of machine, whose names hold none of its separators, files not growing between walk and read; empty directories and file modes are not part of what is reproduced; the transport key a loaded identity may gain is not modelled.
- ArchiveBackup.Backup: the size of the archive file itself is not modelled.
- ArchiveRestore.HostileArchivesAreBounded: the identity the restore saves at the end, in the machine's own form, comes on top of these bounds.
- FetchDriver.AskState.Poll: one collection's state; the sending of the ask and its choice of body are left out.
- FetchRefresh.RefreshTier.PollOnce: the table holds each state as a value; the discovery tier's asks, redeeming and the eviction of ask traces are left out.
- EnumerationFairness.EveryPendingContactIsPicked: asks that others leave the contact itself alone, stamp whom they add when they add it, and that the clock a tick defers by is ahead of the stamps it found.
- EnumerationQueue.ContactStore.EnumerateNextPending: saving keeps a newer presence stamp and feeds a title index, neither of which is modelled.
- SealedCurrent.EveryAnswerIsCurrent: the building time stamped into an envelope, author verification and the private-collection refusal are not modelled; a build reads each file once.
- RelayPool.EveryEventIsJustified: a client is taken to report the relays it was connected with.
- DmQuarantine.MergeIntoRequests: the order of the buckets within the result is not stated.
- The redeem loop, ticket lifecycle, presence, NAT classification, update logic, logging and the user interface.
