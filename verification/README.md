# Music ingest: a verified model of its state machines

This project models the parts of the music ingest service whose correctness spans several functions or
whole runs, and proves what they are for.

- **Storage relocation** (`StorageRelocation`, `RelocationSafety`, `StorageService`): a journal moves the library
  between two roots one committed step at a time and may be interrupted between any file effect and its commit.
- **Reconciliation** (`Reconciliation*`, `RecordCleanup`): a planner compares database rows with scanned files and
  an applier updates sources, locations, jobs and publications; root removal and record cleanup run beside it.
- **FLAC and ID3 bytes** (`Flac*`): the sanitizer's parser and writer against a grammar of RFC 9639 and ID3v2.4.0,
  and the two inspectors that read the same headers.
- **Job queue** (`JobQueue*`, `JobMeaning`, `JobRepository`): claims, leases, numbered attempts, bounded retries,
  coalescing enqueues.
- **Encoding decisions** (`SourceEncoding*`, `EncodingService`): per-field text recovery with undo, revisions, and
  superseded or carried jobs, over runs mixed with queue operations.
- **Quality policy** (`QualityPolicy`, `QualityMeaning`), **rate limiters** (`RateLimiter*`), **album remap**
  (`AlbumRemap*`).

Code that updates state is modelled by classes and loops, each proved equal to a specification function; the lemmas
are about those functions and about runs of them. The modules called `*Meaning`, `ReconciliationCounts`,
`ReconciliationOutcome` and `ReconciliationWork` say what the functions compute in terms of the inputs alone.
Crashes and failures are inputs of a step. Digests, codecs, clocks, random tokens and ids, decoder verdicts and case
folding are parameters; a digest is assumed free of collisions only where a contract says so. Tables are maps, a
transaction is one atomic step, and bytes are integers below 256; masks and shifts are written as division and
remainder, and `Bits` and `FlacBytes` prove the two equal.

## Where the code falls short of its promise

- A source without location rows gets a stand-in location numbered 0. A scanned file at that path then gets no row,
  so the index is not exact; `ReconciliationIndex.IndexIsExact` and `ReconciliationNoOp.SecondScanIsNoOp` say exactly
  when. From the empty database this takes a root removal with no cleanup after it
  (`ReconciliationRowed.UndisturbedScansAreExact`), and `ReconciliationStranding.ARunCanStrandASource` is such a run.
- Reactivating a source requeues all its stopped jobs, whatever their kind. `ReconciliationJobs.ScanKeepsOneActiveJob`
  says, kind by kind, when that leaves a source two active jobs, and `ReactivationCanDoubleAJob` shows it for the
  refreshes, the one kind of source job the schema allows one of.
- A source the planner marks as replaced is always deleted by the same plan
  (`ReconciliationProperties.ReplacedSourcesAreDeleted`), so its state `replaced` never outlives a scan.
- The sanitizer rejects its own output when the audio ends in another 128-byte tag block (`SanitizerIsExact`,
  `TwoTagsAreRefused`), and the FLAC inspector calls those files the sanitizer accepts malformed whose ID3v2 tag has
  a footer (`InspectorAgrees`, `FooterIsCalledMalformed`).
- The job repository does not fence finishes; `FinishKeepsJob` and `RetryKeepsKeys` say exactly which finishes keep
  its invariants. A late retry of an older attempt followed by a claim leaves two attempts running
  (`UnfencedRetryThenClaim`, `LateRetryLeavesTwoRunning`), and one of a superseded refresh asks for a second active
  refresh of its source, which the schema forbids (`LateRetryDoublesARefresh`).
- Repeating an encoding request can bump the revision, but only through a `unicode` choice
  (`RepeatChangesOnlyUnicode`, `UnicodeCanRepeat`).
- A quality decision fed back keeps its selection (`DecisionIsFixed`), but comes back with another reason unless it
  selects nothing, has a baseline or already retained its selection (`DecisionReturns`,
  `FirstSelectionDoesNotReturn`). One marked for policy review may change (`ReviewIsFixedWhenSettled`,
  `ReviewIsNotAlwaysFixed`), and a baseline can stay worse than an eligible candidate
  (`NoEligibleCandidateIsBetter`, `BaselineCanStayWorse`).
- A provider lease runs from the request and may be over before the reserved slot (`LeaseAtItsSlot`,
  `LeaseCanEndFirst`).

## Model

| member | source | states |
|---|---|---|
| `StorageService.Storage.CopyFile` | src/music_ingest/services/storage_migration.py:64-92 | One copy through the temporary slot, interrupted at any point or not, leaves the tree of the protocol's copy effect: only destination and temporary slot change, an existing destination never does, a completed copy means both sides have the recorded hash, and each failure names what was wrong with the tree it found. |
| `StorageService.Storage.RemoveManagedCopy` | src/music_ingest/services/storage_migration.py:95-106 | At most the old path changes: it goes only for a managed file while the new copy and the old one both have the recorded hash; a completed step leaves it gone with the new copy verified, and each failure names what was wrong with the tree it found. |
| `StorageService.Storage.ResumeMigration` | src/music_ingest/services/storage_migration.py:109-156 | One worker step on the journal equals one step of the protocol: outcome, phase, cursor, rows, root, generation and trees. |
| `StorageService.Storage.RebasePublicationRows` | src/music_ingest/services/storage_migration.py:131-135 | The root switch rewrites exactly the rows whose path lies under the old root. |
| `StorageService.Storage.RebaseArtworkRows` | src/music_ingest/services/storage_migration.py:136-138 | Likewise for artwork, rows without a path untouched. |
| `StorageService.Storage.VerifyDestination` | src/music_ingest/services/storage_migration.py:126-130 | The switch goes on exactly when every destination has its recorded hash. |
| `StorageService.Storage.BuildMigration` | src/music_ingest/services/storage_migration.py:35-51 | Refused exactly when the tree holds a link or special file; otherwise the manifest lists every file under the old root once, with its hash and whether it is managed and no .nfo. |
| `StorageService.Storage.MoveOutput` | src/music_ingest/services/storage.py:108-149 | Accepted exactly when the preconditions hold (ready, browsable, apart from every root, nothing listed at the destination, no active attempt, every current publication resolves); then the state is a well-formed start whose manifest covers the old tree and calls a file managed exactly when a publication or artwork row names it and its name is no .nfo. A refusal changes nothing and names the first check that failed. |
| `RelocationSafety.StepKeepsInv` | src/music_ingest/services/storage_migration.py:109-156 | Every step, whatever interrupts it, keeps the invariant of the phase; without an interruption it commits. |
| `RelocationSafety.RunKeepsInv` | src/music_ingest/services/storage_migration.py:109-156 | The invariant holds in every state of every run from an accepted move. |
| `RelocationSafety.ManifestStaysReachable` | src/music_ingest/services/storage_migration.py:64-156 | In every reachable state each manifest file has a copy with its recorded hash under the configured output root. |
| `RelocationSafety.PublicationsStayReachable` | src/music_ingest/services/storage.py:108-149 | Every current publication under the old root keeps resolving to a file with its content hash through copy, switch and cleanup. |
| `RelocationSafety.ArtworkStaysReachable` | src/music_ingest/services/storage_migration.py:131-138 | So does artwork whose file stands under the old root when the move starts. |
| `RelocationSafety.OtherRowsStand` | src/music_ingest/services/storage_migration.py:131-138 | No run adds or drops a row, changes anything in a publication but its path, or touches a row elsewhere. |
| `RelocationSafety.UnmanagedFilesSurvive` | src/music_ingest/services/storage_migration.py:95-106 | .nfo files and unmanaged files of the old tree are never touched. |
| `RelocationSafety.UncommittedStepKeepsRows` | src/music_ingest/services/storage_migration.py:143-156 | A step that fails or crashes leaves cursor, phase, root, generation and rows as they were. |
| `RelocationSafety.StepReports` | src/music_ingest/services/storage_migration.py:143-156 | A step that fails records its reason, one that is interrupted nothing, and one that commits clears it. |
| `RelocationSafety.CommittedStepAdvances` | src/music_ingest/services/storage_migration.py:109-156 | What a committed step does to phase, cursor, root and generation, phase by phase. |
| `RelocationSafety.CommittedStepsCount` | src/music_ingest/services/storage_migration.py:109-156 | With n files a run is finished exactly when 2n + 2 of its steps have committed, and the steps left are never negative. |
| `RelocationSafety.QuietStepsFinish` | src/music_ingest/services/storage_migration.py:109-156 | However a run was interrupted, n undisturbed steps leave it finished if and only if n is at least the number of steps left. |
| `RelocationSafety.FinishedTree` | src/music_ingest/services/storage_migration.py:95-156 | A finished run leaves the old tree minus managed non-.nfo files plus one copy at each destination, with no temporary file. |
| `RelocationSafety.FinishedRunsAgree` | src/music_ingest/services/storage_migration.py:109-156 | Any two finished runs from one start end with the same trees, rows, root and a generation raised once, whatever interrupted them. |
| `RelocationSafety.FinishedMoveEmptiesOldRoot` | src/music_ingest/services/storage_migration.py:95-106 | When an accepted move is finished, exactly those files under the old root are gone that a publication or artwork row named and that are no .nfo. |
| `ReconciliationPlanner.PlanReconciliation` | src/music_ingest/services/reconciliation.py:236-415 | The planner's dictionaries, lists and counters, filled in loops, come to the declarative plan. |
| `ReconciliationMeaning.OwnerMeans` | src/music_ingest/services/reconciliation.py:238-244 | An identity belongs to the first source with it, active ones before inactive ones and then by id, and one no source has to its digest. |
| `ReconciliationMeaning.HolderMeans` | src/music_ingest/services/reconciliation.py:246-266 | Recorded at a path is the source of the row there, else the first source in row order that has no row and whose own columns name it. |
| `ReconciliationMeaning.NewSourcesAre` | src/music_ingest/services/reconciliation.py:321-333 | The new sources of a plan: one for each scanned identity no source has, at its first file by root and path, with the record of the source recorded at the first of its files where anything is recorded, or a fresh record when there is none. |
| `ReconciliationCounts.ResultCounts` | src/music_ingest/services/reconciliation.py:313-400 | What the six counters count, on rows, sources and scanned files. |
| `ReconciliationCounts.RefreshedRecords` | src/music_ingest/services/reconciliation.py:339-390 | A record is refreshed when a changed file keeps it or its source is deleted, unless a refresh of it is active. |
| `ReconciliationCounts.ReturningSources` | src/music_ingest/services/reconciliation.py:350-351 | The returning sources are the owners of scanned identities that had disappeared and have a record. |
| `ReconciliationPlanner.DecideGroups` | src/music_ingest/services/reconciliation.py:313-361 | One pass over the identity groups fills every list and counter with the sum of each group's own contribution. |
| `ReconciliationPlanner.FindVanished` | src/music_ingest/services/reconciliation.py:363-373 | The rows found gone are exactly those under scanned roots at no scanned path. |
| `ReconciliationPlanner.FindLost` | src/music_ingest/services/reconciliation.py:379-389 | The deleted sources are those neither seen nor still located, and those replaced are not counted as removed. |
| `ReconciliationPlanner.EnqueueAll` | src/music_ingest/services/reconciliation.py:285-295 | Scan jobs are inserted for owners without one and reactivated for stopped ones, each once. |
| `ReconciliationDatabase.Database.ApplyPlan` | src/music_ingest/services/reconciliation.py:418-598 | The staged writes of the applier leave exactly the tables the plan describes and answer its counts. |
| `ReconciliationDatabase.Database.DeleteSourceRecords` | src/music_ingest/services/reconciliation.py:601-659 | Deleting sources removes their locations and jobs, detaches their publications and forgets them as successors. |
| `ReconciliationDatabase.Database.Reconcile` | src/music_ingest/services/reconciliation.py:236-598 | Planning and applying on a valid database leaves a valid one. |
| `ReconciliationOutcome.NewSourceAfter` | src/music_ingest/services/reconciliation.py:321-341 | After a scan the source of an identity that had none has the record of the source recorded at its first recorded file, else a fresh one; stated on the tables and files before the scan. |
| `ReconciliationOutcome.KnownSourceAfter` | src/music_ingest/services/reconciliation.py:342-361 | A source that stays moves to its identity's first file, comes back for review if it had disappeared, and keeps everything else. |
| `ReconciliationOutcome.ReplacementsAre` | src/music_ingest/services/reconciliation.py:339-381 | The replacement pairs: the source a changed file was recorded under, the new source and the record handed on, once the former is deleted. |
| `ReconciliationOutcome.SuccessorKeepsRecord` | src/music_ingest/services/reconciliation.py:322-341 | Every pair names the record its retired source had and its successor has after the scan. |
| `ReconciliationOutcome.DeletedSourcesAre` | src/music_ingest/services/reconciliation.py:375-389 | A scan deletes exactly the sources that end without a row and own no scanned identity. |
| `ReconciliationOutcome.RowsAfterScan` | src/music_ingest/services/reconciliation.py:355-373 | Which source has a row at which path after a scan: under scanned roots by the files, elsewhere as before. |
| `ReconciliationOutcome.KeptRows` | src/music_ingest/services/reconciliation.py:470-502 | A row that stays keeps its number, and no number is given twice. |
| `ReconciliationOutcome.OtherTables` | src/music_ingest/services/reconciliation.py:418-598 | New sources bring their records, refreshes are remembered, roots and aliases stand. |
| `ReconciliationWork.JobsAfterScan` | src/music_ingest/services/reconciliation.py:267-295 | The jobs after a scan: those of sources that stay, the stopped ones queued again where the owner of a scanned identity had its last scan stopped, and one queued scan for each owner that had none. |
| `ReconciliationDatabase.Database.Remove` | src/music_ingest/services/source_roots.py:98-151 | Removing a root drops its rows and re-points each affected source to its first surviving row, else to the historical root. |
| `ReconciliationRuns.RemovalIs` | src/music_ingest/services/source_roots.py:98-151 | Removing a root drops its rows and itself, adds the historical root when it is missing, and leaves every other table alone. |
| `ReconciliationRuns.RemovedSourceIs` | src/music_ingest/services/source_roots.py:98-151 | A source under the removed root takes the path of its first row elsewhere, or without one its own path under the historical root; every other source stands. |
| `ReconciliationDatabase.Database.CleanUp` | src/music_ingest/services/reconciliation.py:662-785 | Cleanup removes the rowless sources, then the least closed set of record candidates. |
| `RecordCleanup.CleanupIs` | src/music_ingest/services/reconciliation.py:662-785 | The sources, rows, records and aliases after a cleanup, on those before it. |
| `RecordCleanup.RemovedRecordsAre` | src/music_ingest/services/reconciliation.py:702-745 | A record goes exactly when it has no source left and no current publication and every record retired into it goes. |
| `RecordCleanup.CleanupPublications` | src/music_ingest/services/reconciliation.py:748-785 | Which publications a cleanup removes or detaches. |
| `RecordCleanup.CleanupJobs` | src/music_ingest/services/reconciliation.py:748-785 | The jobs left are those of sources and records left. |
| `ReconciliationIndex.IndexIsExact` | src/music_ingest/services/reconciliation.py:313-373 | After a scan the rows under scanned roots are exactly one per scanned file, each naming a source with that file's identity, if and only if no scanned file sits at the recorded path of a rowless source owning its identity. |
| `ReconciliationIndex.ScannedFileRow` | src/music_ingest/services/reconciliation.py:313-373 | Which source, if any, has a row at a scanned file's path afterwards. |
| `ReconciliationIndex.RowsStayUnique` | src/music_ingest/services/reconciliation.py:470-502 | (root, path) stays unique because deletions precede insertions. |
| `ReconciliationIndex.UnscannedRowsUntouched` | src/music_ingest/services/reconciliation.py:363-373 | Rows under unscanned roots keep their id, source and path. |
| `ReconciliationIndex.OwnerAfter` | src/music_ingest/services/reconciliation.py:313-361 | After a scan the owner of a scanned identity exists and has that identity. |
| `ReconciliationStability.OwnerIsKept` | src/music_ingest/services/reconciliation.py:375-389 | No scan retires or deletes the owner of an identity it saw. |
| `ReconciliationProperties.ReplacedSourcesAreDeleted` | src/music_ingest/services/reconciliation.py:375-387 | Every source a plan marks as replaced is deleted by the same plan. |
| `ReconciliationIntegrity.ScanKeepsDb` | src/music_ingest/services/reconciliation.py:418-659 | A scan keeps every reference valid: rows name existing sources and roots, sources existing roots, jobs and publications existing rows. |
| `ReconciliationIntegrity.DetachedPublications` | src/music_ingest/services/reconciliation.py:601-659 | A publication row goes if and only if it is not current and its source is deleted; of the rows that stay exactly those of deleted sources are detached, nothing else in them changes, and every remaining link resolves. |
| `ReconciliationStability.SecondScanReady` | src/music_ingest/services/reconciliation.py:418-598 | The state a scan leaves is all that is needed to scan again. |
| `ReconciliationStability.SameOwner` | src/music_ingest/services/reconciliation.py:238-244 | A second scan gives every identity the same owner as the first. |
| `ReconciliationNoOp.SecondScanIsNoOp` | src/music_ingest/services/reconciliation.py:236-598 | Scanning again over an unchanged filesystem plans nothing, counts nothing and calls every file unchanged, if and only if every file first taken for a rowless source's recorded file is the only one with its identity. |
| `ReconciliationRuns.RemovalKeepsDb` | src/music_ingest/services/source_roots.py:98-151 | Root removal keeps the database valid. |
| `ReconciliationRuns.CleanupKeepsDb` | src/music_ingest/services/reconciliation.py:662-785 | Cleanup keeps the database valid. |
| `ReconciliationRuns.RunKeepsDb` | src/music_ingest/services/reconciliation.py:418-785 | Every run of scans, root removals and cleanups keeps every modelled foreign key, (root, path) unique and digest ids matched to identities; the indexes on active jobs are treated by ReconciliationJobs. |
| `ReconciliationRowed.RowedScanIsExact` | src/music_ingest/services/reconciliation.py:236-598 | When every source has a row, a scan leaves an exact index and scanning the same files again does nothing. |
| `ReconciliationRowed.CleanupRestoresRows` | src/music_ingest/services/reconciliation.py:662-720 | After a cleanup every source has a row. |
| `ReconciliationRowed.UndisturbedScansAreExact` | src/music_ingest/services/reconciliation.py:236-785 | In every run, as long as no root was removed since every source had a row or since a cleanup, each scan leaves an exact index and repeating it does nothing. |
| `ReconciliationStranding.ARunCanStrandASource` | src/music_ingest/services/source_roots.py:98-151 | A run from the empty database whose last scan leaves an inexact index and, repeated over the same files, is not a no-op; as no undisturbed run does that, it removes a root. |
| `ReconciliationJobs.ScanKeepsOneActiveJob` | src/music_ingest/services/reconciliation.py:567-573 | For each kind: when every source has at most one active job of it, this holds after a scan if and only if no owner of a scanned identity whose scan job has stopped has two jobs of that kind that are active or stopped. |
| `ReconciliationJobs.ReactivationCanDoubleAJob` | src/music_ingest/services/reconciliation.py:567-573 | A state with at most one active job of each kind per source and a scan that leaves two active refreshes, against the index uq_active_musicbrainz_refresh_job. |
| `ReconciliationFacts.UnchangedIsACount` | src/music_ingest/services/reconciliation.py:391-400 | The number of unchanged files a plan reports lies between zero and the number of scanned files. |
| `RecordCleanup.RemovableRecords` | src/music_ingest/services/reconciliation.py:722-745 | The rounds end, and the result is the least set of candidates closed under "every record retired into me is already in it". |
| `RecordCleanup.CyclesSurvive` | src/music_ingest/services/reconciliation.py:722-745 | Records on an alias cycle are never removed. |
| `RecordCleanup.SurvivorsKeepTheirAlias` | src/music_ingest/services/reconciliation.py:748-785 | No surviving record loses the row naming its canonical record. |
| `FlacBytes.DecodersAgree` | src/music_ingest/adapters/sanitizers/flac.py:249-258 | The masked and the summed synchsafe decoders agree and are one bijection onto [0, 2^28). |
| `FlacBytes.EncodeThenDecode` | src/music_ingest/adapters/inspectors/flac.py:110-112 | Every 28-bit size has synchsafe bytes that decode to it. |
| `FlacBytes.MasksAreDigits` | src/music_ingest/adapters/sanitizers/flac.py:252-258 | The masks, shifts and ors of the tag size, as bit operations on numbers, take exactly the 7-bit digits of the arithmetic word the parser model uses. |
| `FlacBytes.HeaderMasksAreDigits` | src/music_ingest/adapters/sanitizers/flac.py:192-259 | The masks of block headers and tag flags are the digits and comparisons the parser model uses. |
| `FlacBytes.SizeIsBigEndian` | src/music_ingest/adapters/sanitizers/flac.py:194-196 | A block size is the big-endian integer of three bytes. |
| `FlacContainer.ReadBlocks` | src/music_ingest/adapters/sanitizers/flac.py:185-219 | The metadata loop finds the declarative block walk, keeps the one STREAMINFO payload and reports every other block as dropped. |
| `FlacContainer.ParseLayout` | src/music_ingest/adapters/sanitizers/flac.py:176-239 | The parser computes the declarative layout on every byte string. |
| `FlacMeaning.LeadingTagMeans` | src/music_ingest/adapters/sanitizers/flac.py:242-268 | The bytes taken for a leading tag: none without the letters ID3; else a known version, no unknown flag, four bytes of seven bits for the size, and the footer that is announced. Anything else is refused. |
| `FlacMeaning.LayoutMeans` | src/music_ingest/adapters/sanitizers/flac.py:176-239 | A layout is accepted exactly when the bytes have it: marker after the tag, STREAMINFO of 34 bytes first and only first, up to the last block, audio to the trailer; the findings are one for the tag, one for each block but the first, one for the trailer. |
| `FlacGrammar.ParseSerialized` | src/music_ingest/adapters/sanitizers/flac.py:176-268 | Every container of the grammar (RFC 9639, sections 8.1 and 8.2; ID3v2.4.0 structure, sections 3.1 and 3.4) parses to its own layout. |
| `FlacGrammar.ParsedIsContainer` | src/music_ingest/adapters/sanitizers/flac.py:176-268 | Whatever is accepted is such a container cut at the layout's offsets: tag, marker, blocks, audio and trailer tile the file with no gap or overlap. |
| `FlacGrammar.WalkComplete` | src/music_ingest/adapters/sanitizers/flac.py:185-219 | The walk over well-ordered serialized blocks yields exactly their positions. |
| `FlacGrammar.WalkSound` | src/music_ingest/adapters/sanitizers/flac.py:185-219 | A successful walk yields well-ordered blocks standing at their positions up to its end. |
| `FlacSanitizer.CopyAudioFrames` | src/music_ingest/adapters/sanitizers/flac.py:282-293 | The chunked copy writes exactly the audio range. |
| `FlacSanitizer.SanitizeFlac` | src/music_ingest/adapters/sanitizers/flac.py:95-139 | The writer with its pre- and postflight verdicts and reparse equals the declarative sanitizer. |
| `FlacMeaning.SanitizerVerdict` | src/music_ingest/adapters/sanitizers/flac.py:95-139 | Every verdict, in order, and the bytes written: marker, one last STREAMINFO header, its payload, the audio. |
| `FlacSanitizer.IdentityDeterminesBytes` | src/music_ingest/adapters/sanitizers/flac.py:271-279 | The five stream identity fields say no more and no less than payload bytes 10 to 34. |
| `FlacMeaning.IdentityMeans` | src/music_ingest/adapters/sanitizers/flac.py:271-279 | The bits of rate, channels, depth, samples and digest where STREAMINFO has them. |
| `FlacSanitizer.SanitizerIsExact` | src/music_ingest/adapters/sanitizers/flac.py:95-306 | A file the decoder allows is sanitized if and only if it parses and its audio does not itself end in a tag block; the output reparses to the same STREAMINFO and audio with no findings. |
| `FlacSanitizer.SanitizerIsIdempotent` | src/music_ingest/adapters/sanitizers/flac.py:95-139 | Sanitizing a sanitized file gives identical bytes. |
| `FlacSanitizer.TaggedOutput` | src/music_ingest/adapters/sanitizers/flac.py:296-306 | With a tag at the end of the audio the output reparses to 128 bytes less, or not at all. |
| `FlacSanitizer.TwoTagsAreRefused` | src/music_ingest/adapters/sanitizers/flac.py:95-139 | Files that parse and whose sanitized output is refused: two tag blocks after the metadata. |
| `FlacInspector.ParseFlac` | src/music_ingest/adapters/inspectors/flac.py:71-104 | The inspector's loop computes its declarative report. |
| `FlacMeaning.InspectionMeans` | src/music_ingest/adapters/inspectors/flac.py:71-132 | The whole report of any file on its bytes, with the name of each block type written out. |
| `FlacMeaning.Mp3LeadMeans` | src/music_ingest/adapters/inspectors/mp3.py:95-104 | What the MP3 inspector takes for a tag, on the bytes. |
| `FlacInspector.InspectorAgrees` | src/music_ingest/adapters/inspectors/flac.py:71-116 | On every file the sanitizer's parser accepts, the inspector calls it malformed if and only if the leading tag has a footer; otherwise it names the same marker and blocks. |
| `FlacInspector.FooterIsCalledMalformed` | src/music_ingest/adapters/inspectors/flac.py:71-116 | Such a file: an empty ID3v2.4 tag with a footer, a STREAMINFO block and a byte of audio. |
| `FlacInspector.Mp3SkipsTheSameTag` | src/music_ingest/adapters/inspectors/mp3.py:95-104 | The MP3 inspector skips exactly the tag bytes the sanitizer does, footer included. |
| `JobRepository.Repository.ClaimNext` | src/music_ingest/repositories/jobs.py:41-72 | Takes the oldest candidate nobody holds (queued and due, or running with its last attempt older than the lease), leaves it running with one more attempt, interrupts the stale one, and changes nothing else; none only when there is no candidate. |
| `JobRepository.Repository.ClaimNextForSource` | src/music_ingest/repositories/jobs.py:46-50 | The same, over one source's jobs. |
| `JobRepository.Repository.Succeed` | src/music_ingest/repositories/jobs.py:74-78 | The job is completed and the claimed attempt succeeded at this time; every other attempt, field and row stands, and the latest claim of a running job keeps the invariant. |
| `JobRepository.Repository.QuarantineJob` | src/music_ingest/repositories/jobs.py:80-84 | Likewise: the job is quarantined, and so is the attempt. |
| `JobRepository.Repository.RetryJob` | src/music_ingest/repositories/jobs.py:86-99 | Likewise: below the limit the job is queued until the delay has passed, its attempt waits for the retry and its old reason stays; at the limit job and attempt are blocked and the reason is the given one. |
| `JobRepository.Repository.EnqueueSelectionRefresh` | src/music_ingest/repositories/jobs.py:109-140 | Adds one queued refresh of the record, with nothing else in it, unless a queued or running one exists, and changes no other row; one active refresh remains. |
| `JobRepository.Repository.EnqueueSelectionRefreshes` | src/music_ingest/repositories/jobs.py:142-180 | The batch, which asks once what is covered, equals queueing record by record: rows for exactly the records without an active refresh, each at its own time, and the answer is their ids. |
| `JobRepository.Repository.EnqueueMusicbrainzRefresh` | src/music_ingest/repositories/jobs.py:182-229 | Adds a refresh for the pair at the source's revision unless an active one for the same pair exists, and supersedes active ones for another pair. |
| `JobRepository.Repository.EnqueueLrclibFetch` | src/music_ingest/repositories/jobs.py:231-270 | Leaves exactly one active fetch of the record. |
| `JobRepository.Repository.RecoverBlockedLrclibFetches` | src/music_ingest/repositories/jobs.py:272-308 | One bounded batch of the fetches blocked by an outage, oldest first: each of their records ends covered, a row is added once for a record and only for those, and both counts are right. |
| `JobRepository.Repository.EnqueueFolderReleaseSelection` | src/music_ingest/repositories/jobs.py:310-331 | Leaves exactly one active selection of the folder. |
| `JobRepository.Repository.EnqueueScan` | src/music_ingest/repositories/jobs.py:333-391 | Answers the one active scan of its kind, new or found. |
| `JobRepository.Repository.Enqueue` | src/music_ingest/repositories/jobs.py:393-428 | Inserts, or writes the metadata revision into the newest active job. |
| `JobRepository.Repository.EnqueueReleaseArtwork` | src/music_ingest/repositories/jobs.py:430-451 | Leaves exactly one active artwork job of the release. |
| `JobQueueSafety.FinishKeepsNumbers` | src/music_ingest/repositories/jobs.py:74-99 | Every finish, of whichever attempt, keeps attempts numbered 1..n with at most the last running. |
| `JobQueueSafety.FinishKeepsJob` | src/music_ingest/repositories/jobs.py:74-99 | A finish keeps an open attempt meaning a running or superseded job exactly when it finishes the last attempt, none was running, or it is the fence that ends the job. |
| `JobQueueSafety.RetryKeepsKeys` | src/music_ingest/repositories/jobs.py:86-99 | A finish keeps one active job per key exactly when it does not put back an inactive job whose key is active elsewhere. |
| `JobQueueSafety.LateRetryDoublesARefresh` | src/music_ingest/repositories/jobs.py:86-229 | When a running refresh is superseded by one for another pair and its worker then retries it, the rows written hold two active refreshes of the source, which the unique index forbids. |
| `JobQueueSafety.InsertKeepsKeys` | src/music_ingest/repositories/jobs.py:109-451 | A new row keeps one active job per key exactly when the query of its key finds nothing. |
| `JobQueueSafety.StepKeepsInv` | src/music_ingest/repositories/jobs.py:41-451 | Every operation keeps attempts numbered with only the last running, and one active job per coalescing key. |
| `JobQueueSafety.RunKeepsInv` | src/music_ingest/repositories/jobs.py:41-451 | So does every run in which claims are finished only while latest and running. |
| `JobQueueRuns.ClaimIsOldest` | src/music_ingest/repositories/jobs.py:453-486 | The claim is the least by (creation time, id) among claimable rows nobody holds. |
| `JobMeaning.BlockedMeans` | src/music_ingest/repositories/jobs.py:272-308 | The batch holds the blocked lyrics fetches whose reason ends in the outage, as many as the limit allows, oldest first. |
| `JobQueueRuns.ClaimInterruptsTheStaleAttempt` | src/music_ingest/repositories/jobs.py:52-72 | A running job is claimed again only when its last attempt outlived the lease; that attempt, and no other, is interrupted. |
| `JobQueueRuns.ClaimableAfterFinish` | src/music_ingest/repositories/jobs.py:86-99 | After a finish the job can be claimed exactly when the finish was a retry below the limit whose delay has passed. |
| `JobQueueRuns.UnfencedRetryThenClaim` | src/music_ingest/repositories/jobs.py:52-99 | The claim after a finish keeps the numbering, and leaves two attempts running exactly when the finish was for an older attempt while the last was running. |
| `JobQueueRuns.LateRetryLeavesTwoRunning` | src/music_ingest/repositories/jobs.py:52-99 | On a running job of two attempts: a retry of the first, then a claim, and attempts two and three are both running. |
| `JobQueueRuns.RunExtends` | src/music_ingest/repositories/jobs.py:41-451 | Over every run attempts are only added, a finished attempt never changes, and an inactive row never changes at all. |
| `JobQueueRuns.ClaimsAreBounded` | src/music_ingest/repositories/jobs.py:52-99 | Without new work, claims plus remaining potential never exceed the initial potential (remaining attempts of the active jobs) plus reclaimed leases. |
| `JobQueueRuns.DrainedQueue` | src/music_ingest/repositories/jobs.py:52-99 | Once that many claims are made nothing is queued. |
| `JobQueueRuns.EnqueueLeavesOne` | src/music_ingest/repositories/jobs.py:109-451 | After an enqueue its key has one active job, the found or the new one, and no other row changed. |
| `JobQueueRuns.SourceEnqueueLeavesOne` | src/music_ingest/repositories/jobs.py:393-428 | The same for a source's kind of job. |
| `JobQueueRuns.SourceEnqueueWrites` | src/music_ingest/repositories/jobs.py:411-414 | A metadata revision named is that job's afterwards; every other row stands. |
| `JobQueueRuns.RefreshLeavesThePair` | src/music_ingest/repositories/jobs.py:182-229 | The one active refresh of the source is for the confirmed pair, and only one for another pair is superseded. |
| `JobQueueRuns.BatchQueuesTheMissing` | src/music_ingest/repositories/jobs.py:142-180 | The batch queues exactly the records without an active refresh, each under its own id and at its own time. |
| `JobQueueRuns.BatchOnlyAdds` | src/music_ingest/repositories/jobs.py:142-180 | It changes no existing row and adds rows under its own ids alone. |
| `JobQueueRuns.RecoveryQueuesEachRecordOnce` | src/music_ingest/repositories/jobs.py:291-308 | Recovery changes no row, leaves each blocked record one active fetch, and creates new ones at the given time. |
| `EncodingService.CodecValue` | src/music_ingest/services/source_encoding.py:309-330 | The recovery loop computes the declarative codec recovery. |
| `EncodingService.PreviewEncoding` | src/music_ingest/services/source_encoding.py:66-81 | Refused exactly at another revision; otherwise every choice shows what its mode gives for that field, valid exactly when every choice is good. |
| `SourceEncodingMeaning.PreviewMeans` | src/music_ingest/services/source_encoding.py:309-362 | What each mode shows and when: keep the value, original the first text, raw the prepared bytes in the codec asked for, recover the one reading that comes back, unicode a reading that reads back; the condition of each error, the refusal of NUL, and changed exactly when the text differs. |
| `SourceEncodingMeaning.RefusalMeans` | src/music_ingest/services/source_encoding.py:93-141 | A request is refused as busy, as out of date or as invalid, in that order, on what the tables hold. |
| `EncodingService.Service.ApplyEncoding` | src/music_ingest/services/source_encoding.py:84-141 | Refused as busy, stale or invalid, in that order, with nothing changed; otherwise the write, its revision, and whether analysis was queued. |
| `EncodingService.Service.WriteEncoding` | src/music_ingest/services/source_encoding.py:144-243 | The loops over fields, jobs and runs leave exactly the declarative write, or nothing when neither text nor decision changes. |
| `SourceEncodingMeaning.FieldAfter` | src/music_ingest/services/source_encoding.py:168-181 | The fields after an accepted request: value, mode, origin and original of each chosen one, and every other as it was. |
| `SourceEncodingMeaning.SourceAfter` | src/music_ingest/services/source_encoding.py:182-243 | Revision, record, event and candidate runs after an accepted request that has an effect. |
| `SourceEncodingMeaning.JobsAfterText` | src/music_ingest/services/source_encoding.py:193-202 | After a change of text: live work but the folder's selection superseded, one analysis of the new revision added. |
| `SourceEncodingMeaning.JobsAfterDecision` | src/music_ingest/services/source_encoding.py:203-211 | After a change of decision alone: waiting jobs of the source at the revision before are at the one after, nothing else changes. |
| `EncodingService.Service.RecoverImportEncoding` | src/music_ingest/services/source_encoding.py:297-306 | The import recovery writes the same way without touching or queueing jobs. |
| `SourceEncodingMeaning.ImportAfter` | src/music_ingest/services/source_encoding.py:297-306 | The fields and jobs after the recovery at import. |
| `SourceEncodingMeaning.ImportedSource` | src/music_ingest/services/source_encoding.py:297-306 | Record, event and runs after it: the runs go on at the new revision even when a text changed. |
| `SourceEncodingRuns.RecoveredCodec` | src/music_ingest/services/source_encoding.py:309-330 | A codec recovers a text exactly when the raw bytes say so both ways, or the readings that can be undone agree on one text. |
| `SourceEncodingRuns.WrittenAt` | src/music_ingest/services/source_encoding.py:168-181 | Each chosen field gets what its own preview showed, whatever the other choices wrote. |
| `SourceEncodingRuns.AppliedValue` | src/music_ingest/services/source_encoding.py:144-181 | After an accepted request a chosen field holds its previewed value, written or already there. |
| `SourceEncodingRuns.RunKeepsOriginals` | src/music_ingest/services/source_encoding.py:168-181 | Over every run a field's original text stays what it was and, once recorded, is never rewritten. |
| `SourceEncodingRuns.OriginalComesBack` | src/music_ingest/services/source_encoding.py:333-362 | After any run, choosing 'original' is valid exactly when the first text has no NUL, and then restores it. |
| `SourceEncodingRuns.ApplyMovesOneRevision` | src/music_ingest/services/source_encoding.py:144-182 | A request leaves everything alone exactly when refused or without effect; else it moves the revision by one and logs it. |
| `SourceEncodingRuns.RunNumbersEvents` | src/music_ingest/services/source_encoding.py:212-230 | The events of a run number its revisions one after the other. |
| `SourceEncodingRuns.RepeatChangesOnlyUnicode` | src/music_ingest/services/source_encoding.py:144-181 | Repeating an accepted request changes something exactly when it is accepted again and a 'unicode' choice converts the converted text once more. |
| `SourceEncodingRuns.LayersArePeeledOneByOne` | src/music_ingest/services/source_encoding.py:333-362 | With any codecs, if two layers of a text can each be peeled and put back, the request that peels the first, repeated, peels the second. |
| `SourceEncodingRuns.UnicodeCanRepeat` | src/music_ingest/services/source_encoding.py:144-181 | Codecs, a source and a request that is accepted twice and changes the text twice. |
| `SourceEncodingRuns.TextChangeRetiresWork` | src/music_ingest/services/source_encoding.py:193-202 | A change of text supersedes the queued work and leaves the source one active job: the analysis of the new revision. |
| `SourceEncodingRuns.DecisionChangeCarriesWork` | src/music_ingest/services/source_encoding.py:203-211 | A change of decision alone carries every job of the source that would still have passed the worker's fence, and no other. |
| `SourceEncodingRuns.CurrentRuns` | src/music_ingest/services/source_encoding.py:193-211 | A change of text leaves only the new candidate run current and keeps the older ones; a change of decision keeps the current ones current. |
| `EncodingService.Service.EndAtFence` | src/music_ingest/workers/worker.py:214-233 | A claimed job goes on exactly when its source is not replaced and its revision is the current one; otherwise its attempt succeeds, the job is superseded, and that is an allowed step of the run. |
| `SourceEncodingRuns.RunKeepsOk` | src/music_ingest/workers/worker.py:214-233 | In every run of requests, queue operations and fence writes, jobs and candidate runs name no future revision, and the queue invariant holds. |
| `QualityPolicy.OrderDoesNotMatter` | src/music_ingest/services/quality_policy.py:84-138 | The decision and its set key do not depend on the order of the candidates. |
| `QualityPolicy.DecisionIsFixed` | src/music_ingest/services/quality_policy.py:84-138 | Fed back with the same candidates, a decision of the current policy selects the same whatever its reason becomes, and that result is final. |
| `QualityPolicy.DecisionReturns` | src/music_ingest/services/quality_policy.py:84-138 | Fed back with the same candidates, a decision of the current policy comes back unchanged, reason included, if and only if it selects nothing, has a baseline, or already retained its selection. |
| `QualityPolicy.FirstSelectionDoesNotReturn` | src/music_ingest/services/quality_policy.py:112-138 | A first selection that comes back with another reason. |
| `QualityPolicy.ReviewIsFixedWhenSettled` | src/music_ingest/services/quality_policy.py:100-108 | A decision of another policy version is only marked for review; fed back, it stands exactly when no evaluation would change it, and keeps its reason exactly when it has a baseline besides. |
| `QualityPolicy.ReviewIsNotAlwaysFixed` | src/music_ingest/services/quality_policy.py:100-108 | A concrete review that the next evaluation changes. |
| `QualityPolicy.StepNeverWorsens` | src/music_ingest/services/quality_policy.py:109-138 | While its source is eligible a selection is kept or replaced by a strictly better eligible candidate, and a baseline stays. |
| `QualityPolicy.RunNeverWorsens` | src/music_ingest/services/quality_policy.py:84-138 | Over a run the quality never decreases and the source changes only with a strict increase. |
| `QualityPolicy.NoEligibleCandidateIsBetter` | src/music_ingest/services/quality_policy.py:180-213 | When something is eligible, no eligible candidate beats the recorded quality, unless and only unless a baseline is kept because the candidates are unchanged and their best already beat it. |
| `QualityPolicy.BaselineCanStayWorse` | src/music_ingest/services/quality_policy.py:96-118 | A lossy source chosen by hand is kept on unchanged candidates beside an eligible lossless one. |
| `QualityPolicy.LosslessBeatsLossy` | src/music_ingest/services/quality_policy.py:141-171 | Whatever their rates, an eligible lossless candidate beats a lossy one. |
| `QualityMeaning.EligibleMeans` | src/music_ingest/services/quality_policy.py:141-171 | A candidate is eligible exactly when its fields say so: state, codec and measures. |
| `QualityMeaning.BetterMeans` | src/music_ingest/services/quality_policy.py:141-213 | An eligible candidate is strictly better than another exactly when it is lossless and the other is not, or its codec ranks higher, or on equal codecs its depth (lossless), rate, channels or bitrate (lossy) does first; the ranks are written out. |
| `QualityMeaning.EvaluateMeans` | src/music_ingest/services/quality_policy.py:84-138 | The whole evaluation as a table on candidates and previous decision, with the winner as the one nothing eligible beats, ties to the least id. |
| `QualityMeaning.SetKeyMeans` | src/music_ingest/services/quality_policy.py:215-238 | The set key is the given one, or the digest of all candidates in order of id, codecs by name. |
| `RateLimiters.ScheduleRepository.ReserveNextStart` | src/music_ingest/repositories/persistence.py:241-265 | Refused for a non-positive interval or lease or an unknown provider, in that order; otherwise the answer is the next slot of the shared arithmetic over all reservations so far, its token validates at once, and no other provider changes. |
| `RateLimiters.ScheduleRepository.ValidateLease` | src/music_ingest/repositories/persistence.py:268-274 | After any reservations, true exactly for the token of the provider's last granted one before that one runs out. |
| `RateLimiters.RequestPacer.WaitForTurn` | src/music_ingest/adapters/external/lrclib.py:286-295 | The sleep of the k-th call ends at the k-th start of the shared arithmetic over all calls so far, and a negative interval counts as zero. |
| `RateLimiters.ReadBoundedBody` | src/music_ingest/adapters/external/lrclib.py:436-447 | The body cut to the limit, and truncated exactly when there was more. |
| `RateLimiter.StartIsTheMaximum` | src/music_ingest/repositories/persistence.py:254-256 | With a constant interval d, request k starts at the maximum of the first allowed start + kd and all now_j + (k - j)d. |
| `RateLimiter.StartIsNoEarlier` | src/music_ingest/adapters/external/lrclib.py:286-295 | With any intervals, no start precedes an earlier request plus the waits in between. |
| `RateLimiter.StartIsNoLater` | src/music_ingest/adapters/external/lrclib.py:286-295 | And one of those bounds is always met. |
| `RateLimiter.StartsAreSpaced` | src/music_ingest/adapters/external/lrclib.py:286-295 | Two starts are apart by at least the intervals between them. |
| `RateLimiter.WindowHoldsFew` | src/music_ingest/repositories/persistence.py:254-256 | Any half-open window of length W holds at most ceil(W / d) starts. |
| `RateLimiter.BurstFillsTheWindow` | src/music_ingest/repositories/persistence.py:254-256 | A burst reaches that bound. |
| `RateLimiters.ScheduleFollowsItsRequests` | src/music_ingest/repositories/persistence.py:241-265 | After any run over any providers a schedule holds the shared arithmetic of its own requests and the lease of its last one. |
| `RateLimiters.ReservedSlot` | src/music_ingest/repositories/persistence.py:254-265 | The slot handed out is the next one of the shared arithmetic. |
| `RateLimiters.OnlyTheLastTokenValidates` | src/music_ingest/repositories/persistence.py:257-274 | A token validates exactly when it is the provider's last one and its lease has not run out. |
| `RateLimiters.LeaseAtItsSlot` | src/music_ingest/repositories/persistence.py:256-262 | The lease runs from the request: after any run it still holds at the slot it was given for if and only if no wait, from the seeded start or from an earlier request of the provider, lasts until the lease ends. |
| `RateLimiters.LeaseCanEndFirst` | src/music_ingest/repositories/persistence.py:256-262 | Two requests at once whose second lease is over before its slot. |
| `AlbumRemap.UniqueSlots` | src/music_ingest/services/album_remap.py:302-307 | Keeps exactly the keys that occur once, with their slot. |
| `AlbumRemap.SeenOnce` | src/music_ingest/services/album_remap.py:302-307 | Seen once means at one index and no other. |
| `AlbumRemap.WithSuggestions` | src/music_ingest/services/album_remap.py:282-299 | The loop computes the declarative suggestions. |
| `AlbumRemap.SuggestionsAreInjective` | src/music_ingest/services/album_remap.py:282-299 | No source is suggested twice, and only for assignable tracks. |
| `AlbumRemapMeaning.PositionMeans` | src/music_ingest/services/album_remap.py:310-315 | The position a source is tagged with: disc and track number without totals, disc 1 when none is tagged, none without a track number. |
| `AlbumRemapMeaning.PointsMeans` | src/music_ingest/services/album_remap.py:282-315 | A source points at the one assignable slot of its recording within this release, or when there is none at the one at its tagged position. |
| `AlbumRemapMeaning.SuggestionsMean` | src/music_ingest/services/album_remap.py:282-299 | A track is suggested the first source that points at it, and none when no source does. |
| `AlbumRemapMeaning.RejectionMeans` | src/music_ingest/services/album_remap.py:85-101 | Each check of a request and their order. |
| `AlbumRemap.AcceptedIsMatching` | src/music_ingest/services/album_remap.py:85-101 | A request on an unchanged album is accepted exactly when it partitions the sources and matches them to assignable slots of different recordings. |
| `AlbumRemap.AcceptedIsInjective` | src/music_ingest/services/album_remap.py:78-101 | An accepted request sends different sources to different assignable tracks. |
| `AlbumRemapState.AssignSourceLoop` | frontend/src/screens/albumRemapState.ts:25-37 | The source takes the track from whoever had it; every other pair stays. |
| `AlbumRemapState.WithoutSourceLoop` | frontend/src/screens/albumRemapState.ts:14-23 | Exactly the source's pair goes. |
| `AlbumRemapState.SuggestedAssignments` | frontend/src/screens/albumRemapState.ts:39-60 | The loop keeps the first use of each source and each track. |
| `AlbumRemapState.AcceptedMeans` | frontend/src/screens/albumRemapState.ts:39-60 | A suggestion is used exactly when source and track are the album's and no earlier used one has either. |
| `AlbumRemapState.ReduceMeans` | frontend/src/screens/albumRemapState.ts:62-82 | What each action does to the mapping. |
| `AlbumRemapState.ReachedWithinAlbum` | frontend/src/screens/albumRemapState.ts:62-82 | Every reachable mapping is injective, from the album's sources into assignable tracks. |
| `AlbumRemapState.BuiltRequestPasses` | frontend/src/screens/AlbumRemapScreen.tsx:113-183 | On an unchanged album a non-empty request built from such a mapping fails no check but the shared recording, and that exactly when two of its tracks are one recording. |
| `AlbumRemapState.SharedRecordingIsRejected` | src/music_ingest/services/album_remap.py:85-101 | Two tracks of one recording, each with its own source, make a request that is rejected. |
| `AlbumRemapState.ReachedRequestPasses` | frontend/src/screens/AlbumRemapScreen.tsx:113-183 | So does the request after any actions on the screen. |
| `AlbumRemapState.FirstMappingInvertsSuggestions` | frontend/src/screens/AlbumRemapScreen.tsx:146-155 | The screen's first mapping is the server's suggestions read the other way round, nothing lost or added. |

## Left out

- Durability of individual writes (fsync, power loss), directory entries and pruning of empty directories; a file effect happens or does not.
- Symbolic links, path canonicalisation and permissions: paths are taken as already canonical.
- The worker's scheduling loop, thread pools, heartbeats and the gate that holds claims back while storage migrates.
- SQL itself: savepoints, advisory locks and concurrent sessions. The branches that catch a unique-index violation need a second session inside one transaction and do not occur.
- `ReconciliationDatabase.Database.ApplyPlan`: the scan states of roots, the source states of records, library events and tables that only hang off a source (observations, fingerprints, candidate runs, reviews) are not modelled.
- `ReconciliationDatabase.Database.DeleteSourceRecords`: attempts, observations, decisions and the other tables that hang off a source are not modelled; they are deleted with it.
- `ReconciliationRuns.RunKeepsDb`: an index on active jobs would abort the transaction of a scan that breaks it; the model lets such a scan go through, and `ReconciliationJobs` says when it happens.
- Reconciliation: the disappeared list of a plan, which the planner never fills, and the publication ids of the snapshot, which it never reads; record refreshes are the set of records with an active refresh.
- `ReconciliationDatabase.Database.CleanUp`: runs as one step, without its dry-run report and the loop that locks candidates.
- `JobQueueRuns.ClaimIsOldest`: rows of equal creation time are ordered by id; the enqueue queries, which leave such ties open, resolve them the same way in the model.
- `JobQueueSafety.RunKeepsInv`: scan kinds are queued only without a target and other kinds only with one, as the table's constraint and the callers have it.
- `SourceEncodingRuns.RunKeepsOk`: import recovery is the step the importing worker takes on its own source before provider jobs exist; it neither supersedes nor carries jobs.
- `EncodingService.Service.RecoverImportEncoding`: the choices of the automatic request are a parameter.
- Encoding suggestions: which choices the automatic request proposes is a heuristic, and any well-formed request stands for it. Metadata revisions, record states and event details other than revisions are not modelled.
- `QualityPolicy.OrderDoesNotMatter`: candidates are told apart by their source id, the primary key of their table.
- `RateLimiters.RequestPacer.WaitForTurn`: times are real numbers, so float rounding is not modelled; the retry loop and its time budget are not either.
- `AlbumRemapState.ReachedRequestPasses`: track ids of a release are in canonical form, as MusicBrainz sends them; ids that name members every JavaScript object inherits are not modelled.
- Album remap: the writes after the checks go through the association service, which is not part of this model; sorting by source and artwork queueing follow from the checks and the job queue.
- FLAC: decoder runs before and after sanitizing are verdicts given as input; exclusive file creation and cleanup of temporary files are left out.
- HTTP routes, settings, screens, provider clients and response parsing: plumbing without an invariant of its own.
