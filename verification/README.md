# GraphMind in Dafny

A verification project for the logic that GraphMind's durability rests on. It
models the code in the form the code has: transactions on a metadata store are
methods of a class, the worker and the handlers are methods that other
participants interrupt, the splitters and searches keep their loops, and the
whole-run guarantees are lemmas about every run of a state machine built from
the same transaction functions.

`dafny verify dfyconfig.toml` checks everything.

## What is modelled

**The durable core** (`src/graphmind/metadata.py`, `src/graphmind/jobs.py`,
`src/graphmind/ingestion.py`). `Metadata` defines each transaction as a function
on the database; `MetadataStore` is the class whose methods carry them out;
`Transactions` names them so that histories can be spoken about. `Fencing` and
`Overtaking` hold for every history of transactions whatsoever. `Installation`
is the whole system: database, clock, two retrieval stores, the process that
holds the kernel lock with its phase, and every interleaving with importers, a
deleter, operators, heartbeat threads and crashes. `Cleanup`, `Manifest`,
`Safety` and `Exclusion` prove its invariants and whole-run theorems, and
`StaleDeletion` holds the runs outside their hypothesis. `Interference` turns the
other participants into a rely condition; `Executor`, `Worker` and `Ingestion` are
the programs themselves, proved against it call by call with a failure possible at
every call. What they achieve when the others keep still is proved beside what they
keep when they do not: the worker completes every due job in order, its heartbeats
outlast any handler, and a complete version is published.

**Chunking** (`src/graphmind/ingestion.py`). Windows with newline cut-back,
overlap and global offsets; the loops are proved equal to recursive
specifications whose progress, coverage, bounds and offsets are lemmas.

**Markdown splitting** (`src/graphmind/parser_worker.py`), **the dependency
closure** (`tools/release_bundle.py`), **the environment file**
(`tools/ubuntu_configuration.py`, `src/graphmind/config.py`) and **the bounded
reasoning graph** (`legacy/RAG/got_engine.py`) are each proved against a
declarative meaning.

**Recovery and release switching** (`tools/windows_operations.py`). `Filesystem`
is a disk that remembers every state it went through, so a crash is any of those
states. `Walk` takes an inventory and `Recovery` a backup. A restore is
`RestoreChecks`, then `Replacement` within `Restore`; `Places` are the names it
uses, `Slots` is the restore as a table of names, `Trace` follows an old state
through it, `Outcome` and `Conservation` tie the table to the disk, and
`RestoreWitness` holds two concrete restores. `ReleaseSwitch` and
`ReleaseApply` prepare and switch a release. Copying and setting access lists
are done by other programs and may leave any tree below the directory they write
to.

## How it is modelled

- A transaction commits as a whole or changes nothing. `now` is a reading of the
  clock taken before a transaction and may be stale; the lease check reads the
  clock inside the transaction; a lease's end comes from a second reading.
- Version identifiers are derived from content, so all participants agree on the
  document and chunks of a version: that agreement is the parameter `plan`. The
  chunk digest is represented by the list of identifiers it is computed from.
- A retrieval store may keep anything for an upserted version; only what is read
  back counts.
- A document digest in the recovery tools is represented by the document.
- Random and external choices (oracles, failing calls, interference, the order
  in which a set is visited) are parameters, and every theorem holds for all.

## Where a promise has an exact condition

- At most one row passing the lease check needs the hypothesis that an owner
  acquires the writer lease only when none of its earlier rows is unexpired.
  `ClaimExcludesExactlyWhenNoRowIsLive` shows the hypothesis is exact and
  `ReacquiringRevivesAnOldAttempt` is a run that breaks it.
- An attempt whose completion was refused is out for ever when its row's lease
  has ended. When only the writer lease was lost it passes again exactly after
  its owner takes that lease in time (`SuspendedRevivesExactlyByReacquiring`);
  `RefusedAttemptPassesAgain` is a run in which it does.
- The order of jobs of one document rests on creation times, which are readings
  of the clock taken before the transaction. A job claimed by name is never
  overtaken while no later submission is dated before it and no earlier job is
  retried; `OrderIsKeptExactly` shows the hypothesis is exact and
  `BackdatedSubmissionOvertakes` is a history that breaks it.
- What the database holds is safe in every run. That the cleanup of a document
  never runs while it is live, and that the stores hold its active version, rests
  on each new cleanup job of that document sorting after its earlier ones, by its
  reading of the clock and its identifier; other documents do not matter. A
  caller can check that before the call; `TombstoningIsSafeExactlyWhenItSortsLast` and
  `RestoreIsRefusedExactlyWhenOrdered` are the equivalences. The source reads the
  clock before the transaction and does not compare, so the reading may be
  stale: `BackdatedDeletionErasesALiveDocument` is a run in which the worker
  comes to erase the entries of a live document, and
  `BackdatedDeletionEmptiesAnActiveVersion` one in which an active version loses
  its entries.
- The comment at `tools/ubuntu_configuration.py:81-82` speaks of restricted
  paths and URL-safe generated secrets, whose printed form works identically in
  GraphMind's parser. `path` does bar the separators from path values, but
  `environment` itself rejects newlines and carriage returns only, while the
  parser splits at every separator that Python knows. The gap is that of
  `environment` alone: `RoundTrip` is the equivalence, `VerticalTabIsLost` an
  instance.
- `validate_roots` keeps roots from overlapping, not from being named like
  another root's `.restore-stage` or `.pre-restore` name. When every root exists
  the check for leftovers rules such names out (`ExistingRootsAreApart`), and
  every promise of a restore holds. In general no crash loses an old state, but a
  root that has the retained name of another moves the other's old state on: it
  is at its own two names exactly while nothing is under the retained name of a
  root that took its name (`Accounted`). With nothing failing outside, a restore
  completes if and only if every root is there in its turn; a completed one has
  installed every record if and only if no root is named like the stage of a root
  behind it, and retained the old state of a root that was there if and only if
  no root has that root's retained name or the record that ends there is the
  same. `RestoreOverARetainedName` and `RestoreOverAStageName` are two restores
  that pass every check and complete, of which one keeps an old state only under
  another root's name and the other loses a record. Names placed strictly below
  another root's stage or retained name are refused (`NestedNamesAreRefused`).
- The fall-through branch of the Markdown splitter
  (`src/graphmind/parser_worker.py:140-141`) is never taken, because a stripped
  line that looks like the start of a heading is always a heading.

## Model

| member | source | states |
|---|---|---|
| MetadataStore.MetadataStore.PutDocument | src/graphmind/metadata.py:268-314 | Touches one document row; refused exactly when a restore of a tombstoned document is asked for before its latest cleanup job has succeeded, and then nothing changes; a stored row keeps its active version and is tombstoned as before unless a restore is asked for, which lifts the tombstone; a tombstone goes away only on such a request after the cleanup; a new document is stored as given. |
| MetadataStore.MetadataStore.PutVersion | src/graphmind/metadata.py:337-367 | Refused exactly for an unknown document; touches one version row, which afterwards has the given expected count and digest; a new row is the given one; a row that was there keeps its status, document and failure code. |
| MetadataStore.MetadataStore.ReplaceChunks | src/graphmind/metadata.py:388-414 | Refused exactly for an unknown version; afterwards the version reads back exactly the given chunk rows, or the old ones when refused, and every other version's rows stay. |
| MetadataStore.MetadataStore.SetVersionStatus | src/graphmind/metadata.py:376-386 | A write that carries a job changes something only if that job passes the lease check at that moment; only the one version may change, in its status and failure code. |
| MetadataStore.MetadataStore.PublishVersion | src/graphmind/metadata.py:424-459 | Succeeds exactly when the job passes the lease check, owns the version, document and version are there and not tombstoned, the chunk rows have the expected number and the index heads are in order; then the version is the active one, and otherwise, and everywhere else, nothing changes. |
| MetadataStore.MetadataStore.PutJob | src/graphmind/metadata.py:566-619 | Idempotent submission by key: a stored key leaves the table as it is and another input under it is refused; a new row has the given job dated now, and is stored only while fewer rows than the limit are queued or running; the queue is called full only when it is. |
| MetadataStore.MetadataStore.TombstoneAndPutJob | src/graphmind/metadata.py:621-724 | A refusal changes nothing and a success leaves the document tombstoned; a document that was live had the expected active version and has none now; other documents stay; job rows change only from queued to failed and only for this document, and when any job changes the new row is dated now, no other import of the document is queued, and no more rows are unfinished than the limit; for a live document and a fresh key the new row is there. |
| MetadataStore.MetadataStore.RetryJob | src/graphmind/metadata.py:726-738 | Touches one row and only a failed one, or a succeeded one when asked to, which is queued again and due now, without owner, with the same input and attempt count. |
| MetadataStore.MetadataStore.AcquireWriter | src/graphmind/metadata.py:752-764 | Takes the writer lease exactly when nobody owns it, the caller owns it, or its end is before the reading; then owner and end are the caller's, and otherwise it stays as it was. |
| MetadataStore.MetadataStore.ReleaseWriter | src/graphmind/metadata.py:766-771 | Gives up the writer lease only for its owner. |
| MetadataStore.MetadataStore.Heartbeat | src/graphmind/metadata.py:773-806 | Effective exactly when the carried job passes the lease check, the row runs under the owner and both leases, which are the owner's, end after the reading; a refused heartbeat changes nothing; an effective one leaves the running row and the writer lease with the same owner and the same new end, the attempt count and the input as they were, and touches no other row. |
| MetadataStore.NextFinds | src/graphmind/metadata.py:808-843 | On the columns: without a target the job a claim hands out is, of the queued rows that are due, the one created first, the identifier breaking ties; a target is handed out exactly when it is queued, due, and every job of its document created before it has ended; and there is a job exactly when one is claimable. |
| MetadataStore.CleanupSucceededMeans | src/graphmind/metadata.py:268-292 | The check before a restore holds exactly when the document has a deletion job that succeeded and none of its deletion jobs was created after it, identifiers breaking ties. |
| MetadataStore.MetadataStore.ClaimNextJob | src/graphmind/metadata.py:808-843 | On the columns: a claim in turn takes a queued, due row that no other queued, due row precedes by creation time and identifier; a claim by name takes only the target, and only when every earlier job of its document has ended; nothing is claimed only when there is no such row; the row enters running with one more attempt, the owner and the lease, and no other row changes. |
| MetadataStore.MetadataStore.FinishJob | src/graphmind/metadata.py:845-866 | With a job it succeeds exactly when the job passes the lease check; it touches one row and only a running one of its owner, which is settled as told, without owner or lease, at full progress if it succeeded; after a success no snapshot of that row passes at any reading of the clock. |
| MetadataStore.MetadataStore.Reconcile | src/graphmind/metadata.py:868-883 | Exactly the running rows whose lease has ended are queued again, without owner and with the same attempt count and input; every other row stays; afterwards no running row has an ended lease; the reply counts the rows that changed; the writer lease is freed exactly when it has ended. |
| Fencing.StepEvolves | src/graphmind/metadata.py:808-883 | Through every transaction a job row stays, keeps its input, never lowers its attempt count, and enters running only with a higher one. |
| Fencing.HistoryEvolves | src/graphmind/metadata.py:808-883 | The same over any stretch of any history of transactions. |
| Fencing.RetiredForEver | src/graphmind/metadata.py:545-564 | A snapshot whose row has left running or has a higher attempt count, or whose lease is out, stays so for ever. |
| Fencing.StaleAttemptsAreFencedForEver | src/graphmind/metadata.py:545-564 | In every history, once a claimed row is seen not running or out of lease, its snapshot passes the lease check at no later step and every later publish, status change, heartbeat or finish that carries it changes nothing. |
| Fencing.EffectiveWritesAreFenced | src/graphmind/metadata.py:545-564 | A guarded write that changes anything carries the attempt, document, version, operation and payload of a running row, whose owner also owns the writer lease, and both leases end after the moment of commit. |
| Fencing.SuspendedRevivesExactlyByReacquiring | src/graphmind/metadata.py:752-764 | An attempt whose row is unexpired while its owner lacks the writer lease passes again after a transaction if and only if that transaction is the owner's own acquisition of the writer lease before the row's lease ends. |
| Fencing.OutOfReachUntilReacquired | src/graphmind/metadata.py:545-564 | In every history a retired or suspended attempt passes at no step until its owner acquires the writer lease in time, whatever all other transactions do. |
| Fencing.ReconcileSparesLiveRows | src/graphmind/metadata.py:868-883 | Recovery never requeues a row that passes the lease check, however stale its reading of the clock. |
| Fencing.HeartbeatNeverRevives | src/graphmind/metadata.py:773-806 | A heartbeat has an effect only while both leases hold at that moment, and on no other row. |
| Overtaking.TargetedJobsNeverOvertake | src/graphmind/metadata.py:808-843 | After a job is claimed by name no earlier job of its document is claimed at any later step, submitted before or after, while no transaction submits or retries a job that sorts before it. |
| Overtaking.NewerSubmissionsNeverOvertake | src/graphmind/metadata.py:808-843 | The same in a form a caller can see to: every later submission has a reading newer than the target's creation time and no earlier job is retried. |
| Overtaking.OrderIsKeptExactly | src/graphmind/metadata.py:566-619 | That hypothesis is exact for every transaction: the earlier jobs stay settled if and only if the transaction keeps the order or leaves the job table as it was. |
| Overtaking.JobsBeforeATargetStaySettled | src/graphmind/metadata.py:808-843 | A job already in the table and earlier than the target is claimed again only after a retry that names it, whatever is submitted. |
| Overtaking.FirstComeFirstServed | src/graphmind/metadata.py:808-843 | In every history, a job that was queued and due when another was claimed in turn, and is claimed at any later step, was created after it, identifiers breaking ties. |
| Overtaking.OlderVersionsAreNotRepublished | src/graphmind/metadata.py:424-459 | From the claim on, no snapshot of an earlier job of the document passes the lease check, and no publication or other write that carries one changes anything, until that very job is retried or first submitted with a reading before the target's; what happens to other jobs does not matter. |
| Overtaking.BackdatedSubmissionOvertakes | src/graphmind/metadata.py:566-619 | A history in which a submission with a stale reading of the clock sorts before the target and is claimed after it. |
| Cleanup.RestoreKeepsCleanup | src/graphmind/metadata.py:268-314 | Lifting a tombstone keeps, for every document, that an unsuccessful cleanup job of it finds it tombstoned and is its latest. |
| Cleanup.DeleteKeepsCleanup | src/graphmind/metadata.py:621-724 | Tombstoning a document with a cleanup job that sorts last keeps that discipline for it. |
| Cleanup.OtherDeletionKeepsCleanup | src/graphmind/metadata.py:621-724 | A deletion of another document keeps it, in order or not. |
| Cleanup.TombstoningIsSafeExactlyWhenItSortsLast | src/graphmind/metadata.py:268-292 | Tombstoning a live document keeps its cleanup discipline if and only if the new cleanup job sorts after all earlier ones of the document by creation time and identifier. |
| StaleDeletion.RestoreIsRefusedExactlyWhenOrdered | src/graphmind/metadata.py:268-292 | After a live document was tombstoned, an immediate restore is refused if and only if the new cleanup job sorts after the earlier ones; otherwise the document is live again with that cleanup still queued. |
| StaleDeletion.BackdatedDeletionErasesALiveDocument | src/graphmind/metadata.py:621-724 | A run of the installation with a deletion dated back behind an earlier cleanup, at whose end the worker may erase the entries of a live document. |
| StaleDeletion.BackdatedDeletionEmptiesAnActiveVersion | src/graphmind/ingestion.py:520-545 | A run with one deletion dated back: its cleanup fails, a version is published, the cleanup is retried and takes the entries of the active version from a store. |
| Cleanup.EventKeepsCleanup | src/graphmind/metadata.py:268-314 | Every event of the installation, crashes and interleavings included, keeps the cleanup discipline of a document, except a deletion of that document dated back behind an earlier cleanup of it. |
| Cleanup.EventKeepsCovered | src/graphmind/metadata.py:621-724 | Every event whatsoever keeps that a tombstoned document has no active version and has a cleanup job. |
| Manifest.PublishKeepsManifest | src/graphmind/metadata.py:424-459 | Publication by a handler that verified both stores keeps every active manifest complete in the database, and keeps what the stores hold of every document. |
| Manifest.EraseKeepsStores | src/graphmind/ingestion.py:520-545 | Erasing a document's entries, completely or half way, changes nothing that the stores hold of other documents, nor of this one while it has no active version. |
| Safety.ReachableStatesAreSafe | src/graphmind/metadata.py:424-459 | Every reachable state of every run satisfies the invariant of the database and of what the handler remembers. |
| Safety.ReachableDocumentsAreSafe | src/graphmind/ingestion.py:520-545 | In every run in which no deletion of a document is dated back, its cleanup discipline holds and both stores hold its active version, whatever happens to other documents. |
| Safety.ActiveManifestIsComplete | src/graphmind/metadata.py:461-527 | In every reachable state an active version is its document's own, ready, has exactly its chunk rows, and readers get exactly them; if no deletion of that document was dated back, both stores hold exactly those identifiers. |
| Safety.CleanupNeverTouchesALiveDocument | src/graphmind/ingestion.py:520-545 | If no deletion of a document was dated back, a cleanup job of it that has not succeeded finds it tombstoned, without active version, and is its latest; and whenever entries of it are about to be erased it is tombstoned, lease or no lease. |
| Safety.DocumentLifecycle | src/graphmind/metadata.py:268-314 | In every run a tombstone is lifted only by a restore, and the active version changes only by a fenced publication or becomes empty by a deletion. |
| Safety.HiddenUntilRepublished | src/graphmind/metadata.py:491-527 | In every run, after a tombstone commits no chunk of the document is active until a restore and after it a publication under a valid lease. |
| Safety.StagingNeverDisturbsTheActiveVersion | src/graphmind/ingestion.py:456-518 | Between publications and deletions of a document, whatever else runs, fails or crashes, its active version and its chunks stay the same; and so do its entries in both stores if no deletion of it was dated back. |
| Exclusion.EventKeepsExclusion | src/graphmind/jobs.py:125-172 | Each event keeps the exclusion invariant when an owner acquires the writer lease only with none of its rows unexpired. |
| Exclusion.AtMostOneRowHoldsItsLease | src/graphmind/metadata.py:752-866 | Under that hypothesis at most one job row passes the lease check in every reachable state. |
| Exclusion.ClaimExcludesExactlyWhenNoRowIsLive | src/graphmind/metadata.py:808-843 | After a claim at most one row passes if and only if the owner had no unexpired row before it. |
| Exclusion.ReacquiringRevivesAnOldAttempt | src/graphmind/jobs.py:43-49 | A concrete run, with one recovery while the job lease still runs, reaches a state in which two rows pass the lease check. |
| Exclusion.RefusedAttemptPassesAgain | src/graphmind/jobs.py:43-49 | A run in which a completion is refused because only the writer lease is over, and the same snapshot passes again once the worker has taken the lease for its next pass. |
| Interference.Environment.Others | src/graphmind/jobs.py:125-172 | Whatever the other processes do between two calls, the writer's owner, running rows and attempt counts stay as the lock holder left them, and no job becomes succeeded; when they only let time pass, the database stays as it was. |
| Executor.DurableJobExecutor.Finish | src/graphmind/jobs.py:114-123 | The completion takes effect exactly when the lease check holds at that moment. |
| Executor.DurableJobExecutor.Attempt | src/graphmind/jobs.py:125-172 | From the claim to the completion: while the fence holds the row becomes succeeded, or failed with the right code, and the attempt is out for ever; otherwise nothing is written, and the attempt is out for ever if its row's lease has ended and suspended if only the writer lease was lost. A heartbeat that is refused or raises counts as a lost lease, so the attempt cannot succeed. While the others keep still and a lease is longer than six calls, heartbeats hold both leases however long the handler runs. |
| Executor.AccountedAttemptStaysOut | src/graphmind/jobs.py:125-172 | In any history that goes on from a completion the attempt passes the lease check, and a write that carries it has an effect, only if the completion was refused for the writer lease alone and its owner took that lease again before the row's ended. |
| Executor.DurableJobExecutor.RunOnceLocked | src/graphmind/jobs.py:125-172 | On every way out the executor no longer owns the writer lease, a claimed attempt is accounted for and is the only one started, it succeeded only if the handler returned and no heartbeat raised, and which result or error comes back says which way the attempt ended. Refused for the writer lease only when another owner holds it; without a completion behind it only when, at the claim, no row was queued and due, or the target was not or had to wait; what it claims is the target or the due job created first. With the others still and a handler that returns, a pass that finds a job ends with it succeeded. |
| Executor.DurableJobExecutor.Reconcile | src/graphmind/jobs.py:37-41 | Recovery runs exactly when the kernel lock is free; it starts no attempt, and of the rows the others left it requeues exactly those running with an ended lease and leaves every other as it is. |
| Executor.DurableJobExecutor.RunOnce | src/graphmind/jobs.py:43-49 | One pass over the queue, refused exactly without the kernel lock. It comes back without a job only when at its claim no row was queued and due, it runs the due job created first, and with the others still, a handler that returns and a due job it returns that job, succeeded. |
| Executor.DurableJobExecutor.RunJob | src/graphmind/jobs.py:72-112 | Returns a job only if it is the one asked for and has succeeded, with its fence held at completion; claims no other job; and has given up the writer lease on every way out behind the checks. Unknown jobs, a held lock and a live lease are reported exactly when met; a job is not ready only when at the claim it was not queued and due or an earlier job of its document had not ended; and with the others still, a handler that returns and a job that is due, failed or out of lease, with nothing before it, the run completes that job. |
| Executor.DurableJobExecutor.ReadyTarget | src/graphmind/jobs.py:88-100 | Recovery first, then the retry of a failed target: a target found failed is queued afterwards, any other row it found is left alone, and a job that can be run is due at the end of it. |
| Worker.RunForever | src/graphmind/jobs.py:51-70 | Rounds of recovery and one pass, with whatever they raise left behind. With the others still and handlers that return, after as many rounds as there were open jobs every job that was due at the start has succeeded, and each was completed after only such jobs as were created before it. |
| Ingestion.IngestionService.Prepare | src/graphmind/ingestion.py:456-468 | The readings that open an import, each after an arbitrary interference, deletions dated back included; a version that they show as active was active before; undisturbed, they are the document, version and chunks as stored. |
| Ingestion.IngestionService.PublishStaged | src/graphmind/metadata.py:424-459 | Publication inside the handler; with it only the job's document gains only the job's version; undisturbed it makes a complete version active, and without the lease it changes nothing. |
| Ingestion.IngestionService.ProcessImport | src/graphmind/ingestion.py:456-518 | For a failure at any call and any interference, deletions dated back included: stores change at most at the job's version, any chosen documents keep the entries of their active versions, no document gains a version without publication, and a normal return means that both stores held exactly the version's chunks and, when publication was asked for, that the version was published or active before. Undisturbed, with stores that keep what they are given, a complete version is published; a failing call leaves it marked unusable unless it is active; and without its lease the handler writes nothing to database or stores. |
| Ingestion.IngestionService.ProcessSelected | src/graphmind/ingestion.py:565-601 | The same for jobs with index targets, where a normal return always means published or active before; a rebuild never publishes; undisturbed, with targets that can be built, the version is published, and a failure is recorded. |
| Ingestion.IngestionService.ProcessDelete | src/graphmind/ingestion.py:520-545 | While deletions of its own document keep their order, runs on a tombstoned document only, reaches only its entries, and returns normally only when neither store holds any of them; undisturbed, with stores that erase, it returns normally; without its lease it erases nothing. |
| Chunking.EndsNeverMoveBack | src/graphmind/ingestion.py:72-105 | The window after a window ends no earlier, for every text, size and overlap, whatever the newline cut-back does. |
| Chunking.StartsAdvance | src/graphmind/ingestion.py:72-105 | The k-th window starts at or behind k times size/2+1-overlap. |
| Chunking.WindowsCover | src/graphmind/ingestion.py:72-105 | Windows start at the start, leave no gap, have strictly increasing starts and non-decreasing ends, are at most the size long and end at the text's length; and each begins exactly the overlap before the end of the one before, or one behind its start when that is no longer than the overlap. |
| Chunking.NeighboursOverlap | src/graphmind/ingestion.py:72-105 | A chunk that does not reach the end of the text is followed by one that starts exactly the overlap before its end, or one behind its start when it is no longer, unless only spaces would be shared. |
| Chunking.UnbrokenTextIsCutEvenly | src/graphmind/ingestion.py:72-105 | In a text without spaces the k-th chunk starts at k times size minus overlap and has the full size or ends with the text. |
| Chunking.WindowCountIsBounded | src/graphmind/ingestion.py:72-105 | With an overlap of at most half the size, N windows satisfy (N-1)*(size/2+1-overlap) < length. |
| Chunking.TextChunksCoverTheText | src/graphmind/ingestion.py:60-106 | Each chunk is the text at its own offsets and at most the size long, its locator counts the newlines before its first and its last character, ordinals count from 0, and every character that is not a space lies in some chunk. |
| Chunking.CutBack | src/graphmind/ingestion.py:72-85 | A window that reaches the end of the text ends there; any other ends behind the last newline of its second half, or is as long as the size when there is none. |
| Chunking.DeterministicChunks | src/graphmind/ingestion.py:60-106 | The loop computes exactly the specified chunks for every text, size and overlap, and neighbouring chunks overlap as configured. |
| Chunking.SegmentChunksIndexTheJoinedText | src/graphmind/ingestion.py:109-163 | Every segment chunk is the slice of the joined text at its offsets, lies inside one segment and carries its locator and ordinal. |
| Chunking.SegmentNeighboursOverlap | src/graphmind/ingestion.py:109-163 | Inside a segment a chunk that does not reach its end is followed by one that starts exactly the overlap before its end, or one behind its start, unless only spaces would be shared; the parts of a long segment are numbered from one. |
| Chunking.SegmentChunksCoverTheJoinedText | src/graphmind/ingestion.py:109-163 | No character of the joined text that is not a space is lost. |
| Chunking.OneSegmentIsPlainText | src/graphmind/ingestion.py:109-163 | On a single segment both chunkers agree on ordinals, texts and offsets. |
| Chunking.DeterministicSegmentChunks | src/graphmind/ingestion.py:109-163 | The nested loops compute exactly the specified chunks. |
| Closure.ReachableStaysInside | tools/release_bundle.py:72-100 | A set that holds the roots and is closed under active requirements holds everything reachable. |
| Closure.Expand | tools/release_bundle.py:84-100 | Expanding a pair of package and extras succeeds exactly when its active requirements are satisfied, and queues exactly their targets; a refusal names what some active requirement lacks. |
| Closure.ValidateClosure | tools/release_bundle.py:72-100 | Whichever node of the work list is taken next, the search ends and accepts exactly the bundles in which every requirement reachable from the packages and the project with its extras is satisfied; the two early refusals are characterised exactly, and the two late ones name what some reachable requirement lacks. |
| Closure.ClosedExactlyWhenComplete | tools/release_bundle.py:72-100 | On the records alone: a bundle is accepted if and only if there is a set of packages with extras that has the project with the requested extras and every package by itself, and in which every requirement without a marker, or whose marker holds for a selected extra or for none, has its package there in an accepted version, providing the extras that are asked for, and with exactly these extras in the set. |
| Closure.RequestedExtrasCount | tools/release_bundle.py:84-100 | When a bundle is accepted, a requirement of a package whose marker holds only for an extra that another requirement asks of that package is satisfied as well. |
| Closure.RefusesMissingPillow | tools/release_bundle.py:84-100 | A bundle in which the project asks for an extra of a package, and what that extra requires is missing, is refused. |
| Closure.ClosureIgnoresOrder | tools/release_bundle.py:72-100 | The verdict does not depend on the order in which the packages are listed. |
| Markdown.HeadingTestsAgree | src/graphmind/parser_worker.py:79-80 | The two heading patterns accept the same stripped lines, so the fall-through branch is never taken. |
| Markdown.TitleIsShortest | src/graphmind/parser_worker.py:79-81 | The title matched lazily is the shortest text that leaves nothing but spaces and hashes. |
| Markdown.HeadingReadsBack | src/graphmind/parser_worker.py:79-81 | A heading written as one to six hashes, spaces, a title and perhaps spaces and closing hashes is read back as that title. |
| Markdown.LineClassesMean | src/graphmind/parser_worker.py:79-127 | Heading, fence and table lines, character by character. |
| Markdown.FencedLines | src/graphmind/parser_worker.py:87-97 | A code block runs from its fence to the first line that closes it, or to the end. |
| Markdown.TableLines | src/graphmind/parser_worker.py:106-111 | A table is a maximal run of lines with text and a pipe. |
| Markdown.PlainLines | src/graphmind/parser_worker.py:119-132 | A paragraph is a maximal run of plain lines and is never empty. |
| Markdown.PartitionIsUnique | src/graphmind/parser_worker.py:65-141 | A document has exactly one partition of the specified kind, so the result is determined by the lines. |
| Markdown.TotalTextAdds | src/graphmind/parser_worker.py:142-142 | The size that is held against the limit is the sum of the lengths of the texts. |
| Markdown.ExtractMarkdown | src/graphmind/parser_worker.py:65-141 | The segments are disjoint, in order, hold every line with text exactly once, and their locators name exactly their lines and the heading in force; refused exactly when the text is blank or the segments exceed the limit. |
| PythonText.JoinedLinesSplitBack | src/graphmind/parser_worker.py:98-139 | The text of a block splits back into exactly its lines, when the last is not empty. |
| Dotenv.CollectedMeans | src/graphmind/config.py:104-115 | The parser without its loop: success exactly when every line is valid, the last line that binds a key wins, and a refusal names the first invalid line. |
| Dotenv.ReadLineMeans | src/graphmind/config.py:104-115 | A line says nothing exactly when it is blank or its first character that is no space is a hash; it binds a key to a value exactly when it is written as spaces, perhaps the word export and spaces, the key, spaces, an equals sign and a tail whose value is what is left without the spaces around it and one pair of equal quotes. |
| Dotenv.ParseDotenv | src/graphmind/config.py:96-115 | The loop computes that meaning, with the missing and the unreadable file. |
| PythonText.SplitLinesMeans | src/graphmind/config.py:101-101 | Splitting into lines: a carriage return and newline are one break, any other separator is one, and a final break adds no line. |
| Dotenv.TheMarkIsDropped | src/graphmind/config.py:101-101 | A file reads the same with and without a byte order mark at its start. |
| Dotenv.LineReadsBack | src/graphmind/config.py:104-115 | One printed line is read back as the same key and value. |
| Dotenv.ParsedValuesHaveNoBreaks | src/graphmind/config.py:96-115 | No file makes the parser return a value with a line separator in it. |
| Dotenv.RoundTrip | tools/ubuntu_configuration.py:80-85 | Reading what was printed gives exactly the same dictionary if and only if no value holds a line separator. |
| Dotenv.VerticalTabIsLost | tools/ubuntu_configuration.py:80-85 | A value that the printer accepts and the parser does not give back. |
| Reasoning.OfferedMeans | legacy/RAG/got_engine.py:202-209 | Looking at neighbours adds exactly the labels of unvisited pages, once each, behind what was there. |
| Reasoning.SeedsMean | legacy/RAG/got_engine.py:171-217 | Seeding visits exactly the pages of the matches, each once, in order of appearance. |
| Reasoning.SeedsGather | legacy/RAG/got_engine.py:171-217 | Each page of the path comes with the section of its first match, and each neighbour of such a match is visited or offered. |
| Reasoning.SeedRetrieval | legacy/RAG/got_engine.py:171-217 | The nested loops compute that seed. |
| Reasoning.ExploreLead | legacy/RAG/got_engine.py:245-282 | Exploring drops the candidates that name the page, offers its unvisited neighbours and extends knowledge, visited pages and path. |
| Reasoning.RunIsBounded | legacy/RAG/got_engine.py:331-366 | A measure that every step lowers, with the counts of decisions and explorations. |
| Reasoning.EveryRunEnds | legacy/RAG/got_engine.py:331-366 | Every run takes at most fifteen steps, seven decisions and six explorations, whatever the model, graph and verifier answer. |
| Reasoning.NeverStuck | legacy/RAG/got_engine.py:349-366 | A run stops only at the end or at the exception of the router. |
| Reasoning.PathListsTheVisitedPagesOnce | legacy/RAG/got_engine.py:171-282 | In every state the path has no repetition and lists exactly the visited pages, candidates have no repetition, and the path is at most six longer than the seed. |
| Reasoning.KnowledgeIsWhatWasGathered | legacy/RAG/got_engine.py:211-282 | In every state the knowledge is the sections of the seed and then those of the pages explored, in the order of the run, and nothing else. |
| Reasoning.EveryPageIsKnown | legacy/RAG/got_engine.py:211-282 | What the model and the verifier are shown holds the section of every page seeded or explored so far. |
| Reasoning.AnAnswerIsVerified | legacy/RAG/got_engine.py:306-347 | An answer before the seventh decision, whose lead is a page not seen, is put to the verifier with all that is known; accepted it ends the run, rejected the model decides again. |
| Reasoning.ALeadIsExplored | legacy/RAG/got_engine.py:245-347 | Without an answer such a lead is explored: its page is visited and on the path, its section is known, and the candidates are the ones that do not name it and its unvisited neighbours. |
| Reasoning.AnythingElseFallsBack | legacy/RAG/got_engine.py:318-347 | The seventh decision, a lead seen before, or neither answer nor lead: the fallback answers, with what the verifier accepts or the refusal. |
| Reasoning.FinalAnswerIsAcceptedOrRefused | legacy/RAG/got_engine.py:306-407 | The answer returned was accepted by the verifier in the last step against exactly the returned knowledge, or is the fixed refusal. |
| Recovery.InventoriesHold | tools/windows_operations.py:284-284 | The inventory kept for each root, by its label, is exactly the tree at and below it. |
| Recovery.ValidRootsMean | tools/windows_operations.py:248-277 | Roots are valid exactly when the five required labels are there, each label is a simple identifier, each root is below a drive, reached through no link and neither in nor around the snapshot or software, no root is in or around another, and every required item lies in a root. |
| Recovery.ContentsMean | tools/windows_operations.py:234-235 | Two inventories have the same contents exactly when every path has the same kind, time and data in both, whatever the access lists. |
| Walk.TakeInventory | tools/windows_operations.py:208-231 | The walk, directory by directory in any order, refuses a root that is linked, no directory or holds anything linked, and otherwise finds exactly what is at and below the root. |
| Recovery.CopyRoots | tools/windows_operations.py:289-292 | Each copy has the recorded contents, and copying or outside changes during a later one leave it so. |
| Recovery.Backup | tools/windows_operations.py:280-298 | A completed backup found the services stopped at both looks, recorded every root as it was at the start, found it unchanged at the end, and holds copies with the recorded contents and the manifest; every refusal before the snapshot directory exists leaves the disk untouched, running services among them; and a backup that is not refused completes when the services stay stopped and nothing but exact copies is written. |
| RestoreChecks.ASealBlocksAnotherRestore | tools/windows_operations.py:334-338 | Once the seal exists every further restore is refused before it writes. |
| RestoreChecks.RestoreIsAcceptedExactly | tools/windows_operations.py:301-338 | A restore passes its checks exactly when the manifest is the reviewed one and of these services, the roots are valid, the services are stopped, space suffices, every copy is as recorded, nothing is at, below or linked on the way to the stage and retained names, every root has its directory, and the seal has its name, lies in no root and can be created where no link leads. |
| RestoreChecks.NestedNamesAreRefused | tools/windows_operations.py:322-333 | A restore is refused before it writes when a root lies strictly below another's stage or retained name: something is there, or the stage has no directory to look up its free space through. |
| Places.ExistingRootsAreApart | tools/windows_operations.py:320-324 | When every root exists, the check for leftovers leaves no root at or below another's stage or retained name. |
| Replacement.StageRoot | tools/windows_operations.py:339-348 | Staging writes only below the stage, succeeds only when contents and access lists equal the record, and does succeed when the stage can be created and the copy and access lists are exact. |
| Replacement.ReplaceRoot | tools/windows_operations.py:350-353 | The two renames of one root: in each state between them the seal is there and every old state accounted for; done, they are one swap of the table of names. |
| Slots.StagesAreInstalledExactly | tools/windows_operations.py:350-353 | On the table of names: when all swaps are possible, every stage ends at its root if and only if no root uses the stage name of one behind it, whatever names coincide. |
| Slots.RunsExactlyWhenTimely | tools/windows_operations.py:350-353 | On the table of names: all swaps are possible in turn if and only if each root has a state of its own, the stage name of a root behind it or the retained name of one before it. |
| Outcome.RowAfterSwap | tools/windows_operations.py:350-353 | A swap on the disk changes the table exactly as a swap of the table, for every list of roots that passed the checks. |
| Outcome.InstalledExactlyWhenNoStageIsReused | tools/windows_operations.py:339-353 | A completed restore has put every recorded tree, access lists included, at its root if and only if no root is named like the stage of a root behind it. |
| Trace.TracedAfter | tools/windows_operations.py:350-353 | On the table of names, between two swaps: the old state of a root that was there is at the root or under the retained name of it or of a root that took that name, and it is at its own names exactly while no root that took the name has anything retained. |
| Trace.TracedHalf | tools/windows_operations.py:350-353 | The same in the middle of a swap. |
| Conservation.AccountedWithinASwap | tools/windows_operations.py:350-353 | The same on the disk, for every root that was there, after the first rename of a swap. |
| Conservation.UntakenRootIsFindable | tools/windows_operations.py:350-353 | In every such state a root whose retained name no other root has shows its old state at one of its two names. |
| Conservation.RetainedExactlyUnlessTheNameIsTaken | tools/windows_operations.py:350-353 | Root by root, for every completed restore: what was at an existing root is under its retained name if and only if no other root has that name, or the record that ends there is the same. |
| Outcome.RunsExactlyWhenAllInTurn | tools/windows_operations.py:350-353 | With all stages complete the renames all succeed if and only if every root exists, has the stage name of a root behind it, or has the retained name of one before it. |
| Restore.Restore | tools/windows_operations.py:301-354 | A refusal leaves the disk untouched, and running services refuse; from the seal on every state a crash can leave holds the seal, and no old state is lost: it is at its root or under the retained name of it or of a root that took that name, and at its own two names exactly while no such root has anything retained; services that run at the second look, and every failure but that of a rename, leave each root that was there as it was; with nothing failing outside the restore completes if and only if every root is there in its turn; a completed one found the services stopped at both looks, has a seal that names the snapshot, has installed all records exactly under the condition above, and retained the old state of each root that was there exactly when its name is not taken. |
| Restore.BackupAndRestore | tools/windows_operations.py:280-354 | With anything at all done to the disk in between, a completed backup and restore give back every root exactly, if and only if no root is named like the stage of one behind it; always so, and with all states in between retained, when the roots exist at the restore. |
| RestoreWitness.RestoreHost | tools/windows_operations.py:301-354 | Two inputs with seven services, their software and required paths, and five roots, one of them missing and named like the application's retained state or stage, pass every check, and their restore completes. |
| RestoreWitness.RestoreOverARetainedName | tools/windows_operations.py:350-353 | With the retained name the completed restore leaves the application's old state at neither of its two names. |
| RestoreWitness.RestoreOverAStageName | tools/windows_operations.py:339-353 | With the stage name the completed restore retains what was there and leaves a root that is not as recorded. |
| ReleaseSwitch.PrepareUpdate | tools/windows_operations.py:357-385 | Succeeds exactly when the releases differ only in the executables as asked and the output can be created, and refuses with the disk untouched; a prepared plan holds the three specifications of both releases. |
| ReleaseSwitch.UpdatableMeans | tools/windows_operations.py:357-375 | An update is accepted exactly when reader, worker and chroma change their executable and nothing else, the other four services change nothing, and the new executables lie in one directory of a release that is neither inside the old one nor around it. |
| ReleaseSwitch.ReleasesDifferEverywhere | tools/windows_operations.py:361-366 | Both releases name the same three files and no file is equal in both. |
| ReleaseApply.AcceptedExactlyAsReviewed | tools/windows_operations.py:388-405 | The files refuse no switch exactly when the plan is the reviewed one, for these services and their three files, both prepared releases are as the plan has them, and every live file is that of the release to be replaced, reached through no link. |
| ReleaseApply.MixedSetIsRefused | tools/windows_operations.py:398-405 | From live files that mix the two releases both directions are refused. |
| ReleaseApply.ReplaceAll | tools/windows_operations.py:413-414 | Each replacement leaves every live file wholly old or wholly new. |
| ReleaseApply.ApplyUpdate | tools/windows_operations.py:388-415 | Drift is refused with the disk untouched, and so are services that run at the first look; services that run at the second look, leftovers and failures before the first replacement leave every live file as it was; every crash leaves each file wholly old or wholly new; a switch that is not refused completes exactly when the services are stopped at both looks and every file can be staged and replaced; completion puts the other release in place under the old access lists, leaves no pending file and changes nothing outside the live directory. |
| ReleaseApply.RollbackIsAccepted | tools/windows_operations.py:388-405 | After a completed update nothing in the files refuses the rollback, as long as plan and live files are kept apart. |
| ReleaseApply.UpdateAndRollBack | tools/windows_operations.py:388-415 | An update and its rollback give back each live file, access list included. |

## Left out

- AtMostOneRowHoldsItsLease: holds under the hypothesis stated above; the counterexample shows that it cannot be dropped.
- CleanupNeverTouchesALiveDocument: holds for documents none of whose deletions is dated back behind an earlier cleanup job of it; the runs in `StaleDeletion` show that this cannot be dropped, nor for the stores in `ActiveManifestIsComplete` and `StagingNeverDisturbsTheActiveVersion`. The idempotency key of a deletion is unused, as `src/graphmind/ingestion.py:418-449` derives it from a fresh identifier.
- TargetedJobsNeverOvertake: holds while no submission or retry names a job that sorts before the target; the history in `Overtaking` shows that this cannot be dropped.
- ProcessSelected: targets are built in the dual store or cannot be built; targets of other engines and `backends` are not part of this model; that the list of targets is not empty is what `src/graphmind/rag/components/indexes.py:95-109` ensures.
- ProcessDelete: a store deletion that returns normally is taken to have left nothing of the document; the handler does not read the stores back.
- ApplyUpdate: the modification times of the replaced files are those of the new files and are not restored by a rollback.
- EveryRunEnds: the model call inside a step is assumed to return; a lead that is a bare address makes `clean_lead_url` raise, which the model keeps as an end of the run.
- Progress of a job is updated without a lease check in the source (`src/graphmind/metadata.py:740-750`) and so in the model; the handler's separate check before it is kept.
- `prepare_import` and `prepare_delete` appear as the conditions on what processes without the lock may issue, not as methods.
- RunForever: runs the rounds it is given; the range check of the polling interval and the stop event are not part of this model. That every due job is completed is proved while nobody else changes the database and no call takes longer than a sixth of the lease.
- ProcessImport: that a complete version is published is proved for a handler that nothing interrupts; interference is covered by the other clauses.
- Kernel file locks are a mutex that a crash releases; heartbeat threads are interleaved steps.
- The index repository, the lexical index, artifacts, private files, and the `invalidate`, `start`, `complete` and `fail` calls are points at which a handler may fail and nothing more.
- SQL, migrations, row decoding and the canonical form of job payloads.
- Chunk identifiers and references; Unicode normalisation and decoding of input files.
- Dependency markers and version specifiers are flags of a requirement, name canonicalisation is an arbitrary function.
- PDF, DOCX and CSV extraction, and the parser subprocess.
- Free-space sums (one yes or no each), alternate data streams, service control, and robocopy's exit codes beyond failure; path comparison is exact, without case folding.
- The walk is proved to find exactly the tree on a file system in which everything stands in a directory; the rest of the recovery tools takes its result as the inventory.
- `schema_version` fields, `validate_spec` and the parsing of Windows paths; reading a plan or manifest yields the document that was written.
- HTTP, identity, browser, MCP, model providers and configuration range checks.
