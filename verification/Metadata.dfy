/**
 The tables of the metadata database and its transactions, one function for
 each: the database after the transaction, or the error that rolls it back.

 A transaction reads the clock twice. `now` is read before the write lock is
 taken, so it may be older than the moment of commit; `clock` is the moment of
 commit, read inside the transaction by the lease check.
 */
module Metadata {
  import opened Wrappers

  type Time = int

  /** The rank of a job's text identifier in the database's ordering of text. */
  type JobId = int

  datatype JobStatus = Queued | Running | Succeeded | Failed
  datatype VersionStatus = Staged | Indexing | Ready | Unusable
  datatype Operation = ImportTxt | ImportDocument | BuildIndex | DeleteDocument

  datatype Error =
    | DocumentBusy
    | DocumentNotFound
    | JobInput
    | JobLease
    | JobQueueFull
    | ManifestUnavailable
    | RetryableQuery
    | Publication
    | Integrity

  datatype Document = Document(name: string, active: Option<string>, deletedAt: Option<Time>)

  /** The digest of the chunk identifiers is represented by the identifiers themselves. */
  datatype Version = Version(
    documentId: string, expected: nat, digest: seq<string>,
    status: VersionStatus, failureCode: Option<string>)

  datatype Job = Job(
    jobId: JobId, key: string, operation: Operation, documentId: string, versionId: string, payload: string,
    status: JobStatus, attemptCount: nat, availableAt: Time,
    leaseOwner: Option<string>, leaseExpires: Option<Time>, heartbeatAt: Option<Time>,
    progress: nat, errorCode: Option<string>, createdAt: Time, updatedAt: Time)

  datatype Writer = Writer(owner: Option<string>, expires: Option<Time>)

  datatype Db = Db(
    documents: map<string, Document>,
    versions: map<string, Version>,
    chunks: map<string, seq<string>>,
    jobs: map<JobId, Job>,
    writer: Writer)

  datatype Tx = Tx(db: Db, error: Option<Error>)

  function Commit(db: Db): Tx { Tx(db, None) }

  function Rollback(db: Db, error: Error): Tx { Tx(db, Some(error)) }

  // ----- Rows -----

  predicate Before(a: Job, b: Job) {
    a.createdAt < b.createdAt || (a.createdAt == b.createdAt && a.jobId < b.jobId)
  }

  predicate After(instant: Option<Time>, now: Time) {
    instant.Some? && instant.value > now
  }

  predicate Expired(instant: Option<Time>, now: Time) {
    instant.Some? && instant.value < now
  }

  predicate Unfinished(job: Job) {
    job.status == Queued || job.status == Running
  }

  predicate IsImport(operation: Operation) {
    operation == ImportTxt || operation == ImportDocument
  }

  /** The columns of a job that no transaction ever updates. */
  predicate SameInput(a: Job, b: Job) {
    && a.jobId == b.jobId && a.key == b.key && a.operation == b.operation && a.documentId == b.documentId
    && a.versionId == b.versionId && a.payload == b.payload && a.createdAt == b.createdAt
  }

  function Rows(db: Db, versionId: string): seq<string> {
    if versionId in db.chunks then db.chunks[versionId] else []
  }

  function UnfinishedJobs(db: Db): set<JobId> {
    set id | id in db.jobs && Unfinished(db.jobs[id])
  }

  predicate IsDeleteOf(job: Job, documentId: string) {
    job.operation == DeleteDocument && job.documentId == documentId
  }

  predicate IsLatestDelete(db: Db, documentId: string, id: JobId) {
    && id in db.jobs && IsDeleteOf(db.jobs[id], documentId)
    && forall x | x in db.jobs && IsDeleteOf(db.jobs[x], documentId) :: x == id || Before(db.jobs[x], db.jobs[id])
  }

  predicate HasDelete(db: Db, documentId: string) {
    exists id | id in db.jobs :: IsDeleteOf(db.jobs[id], documentId)
  }

  predicate CleanupSucceeded(db: Db, documentId: string) {
    exists id | id in db.jobs :: IsLatestDelete(db, documentId, id) && db.jobs[id].status == Succeeded
  }

  predicate KeyTaken(db: Db, key: string) {
    exists id | id in db.jobs :: db.jobs[id].key == key
  }

  /** Primary keys name their own rows. */
  ghost predicate Keyed(db: Db) {
    forall id :: id in db.jobs ==> db.jobs[id].jobId == id
  }

  // ----- The lease check -----

  /** What the fence of every guarded write asks of the claimed snapshot `job`. */
  predicate Passes(db: Db, job: Job, clock: Time) {
    && job.jobId in db.jobs
    && var row := db.jobs[job.jobId];
    && row.status == Running
    && row.leaseOwner.Some? && row.leaseOwner == job.leaseOwner
    && row.attemptCount == job.attemptCount
    && row.documentId == job.documentId && row.versionId == job.versionId
    && row.operation == job.operation && row.payload == job.payload
    && After(row.leaseExpires, clock)
    && db.writer.owner == row.leaseOwner && After(db.writer.expires, clock)
  }

  // ----- Documents, versions and chunks -----

  function PutDocument(db: Db, id: string, name: string, active: Option<string>, allowRestore: bool): Tx {
    if id in db.documents && db.documents[id].deletedAt.Some? && allowRestore && !CleanupSucceeded(db, id) then
      Rollback(db, DocumentBusy)
    else if id in db.documents then
      var row := db.documents[id];
      Commit(db.(documents := db.documents[id :=
        row.(name := name, deletedAt := if allowRestore then None else row.deletedAt)]))
    else
      Commit(db.(documents := db.documents[id := Document(name, active, None)]))
  }

  function PutVersion(db: Db, id: string, version: Version): Tx {
    if version.documentId !in db.documents then
      Rollback(db, Integrity)
    else if id in db.versions then
      Commit(db.(versions := db.versions[id :=
        db.versions[id].(expected := version.expected, digest := version.digest)]))
    else
      Commit(db.(versions := db.versions[id := version]))
  }

  function ReplaceChunks(db: Db, id: string, chunkIds: seq<string>): Tx {
    if id !in db.versions then
      Rollback(db, Integrity)
    else
      Commit(db.(chunks := db.chunks[id := chunkIds]))
  }

  function SetVersionStatus(
    db: Db, id: string, status: VersionStatus, failureCode: Option<string>, job: Option<Job>, clock: Time): Tx
  {
    if job.Some? && !Passes(db, job.value, clock) then
      Rollback(db, JobLease)
    else if id in db.versions then
      Commit(db.(versions := db.versions[id := db.versions[id].(status := status, failureCode := failureCode)]))
    else
      Commit(db)
  }

  /** `heads` says whether the derived-index heads could be moved in the same transaction. */
  function PublishVersion(db: Db, id: string, job: Job, heads: bool, clock: Time): Tx {
    if !Passes(db, job, clock) || job.versionId != id then
      Rollback(db, JobLease)
    else if id !in db.versions || db.versions[id].documentId !in db.documents then
      Rollback(db, ManifestUnavailable)
    else if db.documents[db.versions[id].documentId].deletedAt.Some? then
      Rollback(db, ManifestUnavailable)
    else if |Rows(db, id)| != db.versions[id].expected then
      Rollback(db, ManifestUnavailable)
    else if !heads then
      Rollback(db, Publication)
    else
      var documentId := db.versions[id].documentId;
      Commit(db.(
        versions := db.versions[id := db.versions[id].(status := Ready, failureCode := None)],
        documents := db.documents[documentId := db.documents[documentId].(active := Some(id), deletedAt := None)]))
  }

  // ----- What readers see -----

  predicate IsActive(db: Db, documentId: string, versionId: string) {
    && documentId in db.documents && db.documents[documentId].deletedAt.None?
    && db.documents[documentId].active == Some(versionId)
    && versionId in db.versions && db.versions[versionId].status == Ready
  }

  predicate Tombstoned(db: Db, documentId: string) {
    documentId in db.documents && db.documents[documentId].deletedAt.Some?
  }

  /** The chunk identifiers that a reader may resolve for a document. */
  ghost function ActiveChunks(db: Db, documentId: string): set<string> {
    set v, c | v in db.chunks && IsActive(db, documentId, v) && c in db.chunks[v] :: c
  }

  // ----- Submissions -----

  function PutJob(db: Db, job: Job, limit: Option<nat>, now: Time): Tx {
    if exists id | id in db.jobs :: db.jobs[id].key == job.key && !SameSubmission(db.jobs[id], job) then
      Rollback(db, JobInput)
    else if KeyTaken(db, job.key) then
      Commit(db)
    else if limit.Some? && |UnfinishedJobs(db)| >= limit.value then
      Rollback(db, JobQueueFull)
    else if job.jobId in db.jobs then
      Rollback(db, Integrity)
    else
      Commit(db.(jobs := db.jobs[job.jobId := job.(createdAt := now, updatedAt := now)]))
  }

  predicate SameSubmission(a: Job, b: Job) {
    && (a.operation == b.operation || (IsImport(a.operation) && IsImport(b.operation)))
    && a.documentId == b.documentId && a.versionId == b.versionId && a.payload == b.payload
  }

  function Superseded(job: Job, documentId: string, now: Time): Job {
    if && job.documentId == documentId && (IsImport(job.operation) || job.operation == BuildIndex)
       && job.status == Queued then
      job.(status := Failed, errorCode := Some("superseded_by_delete"),
        leaseOwner := None, leaseExpires := None, heartbeatAt := None, updatedAt := now)
    else
      job
  }

  function SupersedeImports(db: Db, documentId: string, now: Time): Db {
    db.(jobs := map id | id in db.jobs :: Superseded(db.jobs[id], documentId, now))
  }

  function Tombstone(db: Db, documentId: string, now: Time): Db
    requires documentId in db.documents
  {
    db.(documents := db.documents[documentId :=
      db.documents[documentId].(active := None, deletedAt := Some(now))])
  }

  function TombstoneAndPutJob(
    db: Db, documentId: string, expected: Option<string>, job: Job, limit: nat, now: Time): Tx
  {
    if job.operation != DeleteDocument || job.documentId != documentId
       || job.versionId != (if expected.Some? then expected.value else "none") then
      Rollback(db, JobInput)
    else if documentId !in db.documents then
      Rollback(db, DocumentNotFound)
    else if db.documents[documentId].deletedAt.Some? then
      if HasDelete(db, documentId) then Commit(db) else Rollback(db, ManifestUnavailable)
    else if db.documents[documentId].active != expected then
      Rollback(db, RetryableQuery)
    else if KeyTaken(db, job.key) then
      Commit(Tombstone(db, documentId, now))
    else
      var superseded := SupersedeImports(db, documentId, now);
      if |UnfinishedJobs(superseded)| >= limit then
        Rollback(db, JobQueueFull)
      else if job.jobId in db.jobs then
        Rollback(db, Integrity)
      else
        var tombstoned := Tombstone(superseded, documentId, now);
        Commit(tombstoned.(jobs := tombstoned.jobs[job.jobId := job.(createdAt := now, updatedAt := now)]))
  }

  function RetryJob(db: Db, id: JobId, includeSucceeded: bool, now: Time): Tx {
    if id in db.jobs && (db.jobs[id].status == Failed || (includeSucceeded && db.jobs[id].status == Succeeded)) then
      Commit(db.(jobs := db.jobs[id := db.jobs[id].(
        status := Queued, availableAt := now, leaseOwner := None, leaseExpires := None, heartbeatAt := None,
        errorCode := None, progress := 0, updatedAt := now)]))
    else
      Commit(db)
  }

  function UpdateProgress(db: Db, id: JobId, owner: string, progress: int, now: Time): Tx {
    if id in db.jobs && db.jobs[id].status == Running && db.jobs[id].leaseOwner == Some(owner) then
      var bounded := if progress < 0 then 0 else if progress > 99 then 99 else progress;
      Commit(db.(jobs := db.jobs[id := db.jobs[id].(progress := bounded, updatedAt := now)]))
    else
      Commit(db)
  }

  // ----- The writer lease and the queue -----

  predicate WriterAvailable(db: Db, owner: string, now: Time) {
    db.writer.owner.None? || db.writer.owner == Some(owner) || Expired(db.writer.expires, now)
  }

  function AcquireWriter(db: Db, owner: string, now: Time, expires: Time): Tx {
    Commit(if WriterAvailable(db, owner, now) then db.(writer := Writer(Some(owner), Some(expires))) else db)
  }

  function ReleaseWriter(db: Db, owner: string): Tx {
    Commit(if db.writer.owner == Some(owner) then db.(writer := Writer(None, None)) else db)
  }

  predicate HasPredecessor(db: Db, candidate: Job) {
    exists x | x in db.jobs ::
      db.jobs[x].documentId == candidate.documentId && Unfinished(db.jobs[x]) && Before(db.jobs[x], candidate)
  }

  predicate Claimable(db: Db, now: Time, target: Option<JobId>, id: JobId) {
    && id in db.jobs && db.jobs[id].status == Queued && db.jobs[id].availableAt <= now
    && (target.Some? ==> target.value == id && !HasPredecessor(db, db.jobs[id]))
  }

  predicate IsNext(db: Db, now: Time, target: Option<JobId>, id: JobId) {
    && Claimable(db, now, target, id)
    && forall x | x in db.jobs && Claimable(db, now, target, x) :: x == id || !Before(db.jobs[x], db.jobs[id])
  }

  function Claimed(job: Job, owner: string, now: Time, expires: Time): Job {
    job.(status := Running, attemptCount := job.attemptCount + 1, leaseOwner := Some(owner),
      leaseExpires := Some(expires), heartbeatAt := Some(now), updatedAt := now)
  }

  /** The job the queue would hand out, which is unique because identifiers are. */
  ghost function Next(db: Db, now: Time, target: Option<JobId>): (next: Option<JobId>)
    ensures next.Some? ==> IsNext(db, now, target, next.value)
  {
    if exists id :: IsNext(db, now, target, id) then
      var id :| IsNext(db, now, target, id);
      Some(id)
    else
      None
  }

  ghost function ClaimNextJob(db: Db, owner: string, now: Time, expires: Time, target: Option<JobId>): Tx {
    var next := Next(db, now, target);
    Commit(
      if next.Some? then
        db.(jobs := db.jobs[next.value := Claimed(db.jobs[next.value], owner, now, expires)])
      else
        db)
  }

  predicate HeartbeatValid(
    db: Db, id: JobId, owner: string, now: Time, job: Option<Job>, clock: Time)
  {
    && (job.Some? ==> Passes(db, job.value, clock))
    && id in db.jobs && db.jobs[id].status == Running && db.jobs[id].leaseOwner == Some(owner)
    && After(db.jobs[id].leaseExpires, now)
    && db.writer.owner == Some(owner) && After(db.writer.expires, now)
  }

  function Heartbeat(
    db: Db, id: JobId, owner: string, now: Time, expires: Time, job: Option<Job>, clock: Time): Tx
  {
    Commit(
      if HeartbeatValid(db, id, owner, now, job, clock) then
        db.(writer := db.writer.(expires := Some(expires)),
          jobs := db.jobs[id := db.jobs[id].(
            leaseExpires := Some(expires), heartbeatAt := Some(now), updatedAt := now)])
      else
        db)
  }

  function Finished(row: Job, succeeded: bool, errorCode: Option<string>, clock: Time): Job {
    row.(status := if succeeded then Succeeded else Failed,
      progress := if succeeded then 100 else row.progress, errorCode := errorCode,
      leaseOwner := None, leaseExpires := None, heartbeatAt := None, updatedAt := clock)
  }

  function FinishJob(
    db: Db, id: JobId, owner: string, succeeded: bool, errorCode: Option<string>, job: Option<Job>, clock: Time): Tx
  {
    if job.Some? && !Passes(db, job.value, clock) then
      Rollback(db, JobLease)
    else if id in db.jobs && db.jobs[id].status == Running && db.jobs[id].leaseOwner == Some(owner) then
      Commit(db.(jobs := db.jobs[id := Finished(db.jobs[id], succeeded, errorCode, clock)]))
    else
      Commit(db)
  }

  predicate Interrupted(job: Job, now: Time) {
    job.status == Running && Expired(job.leaseExpires, now)
  }

  function Requeued(job: Job, now: Time): Job {
    if Interrupted(job, now) then
      job.(status := Queued, leaseOwner := None, leaseExpires := None, heartbeatAt := None,
        errorCode := Some("interrupted"), updatedAt := now)
    else
      job
  }

  function Reconcile(db: Db, now: Time): Tx {
    Commit(db.(
      jobs := map id | id in db.jobs :: Requeued(db.jobs[id], now),
      writer := if Expired(db.writer.expires, now) then Writer(None, None) else db.writer))
  }
}
