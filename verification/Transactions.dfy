/** Histories of committed and rolled-back transactions, in the order the database serialised them. */
module Transactions {
  import opened Wrappers
  import opened Metadata

  /** The transactions as the services issue them: a guarded write always carries its claimed snapshot. */
  datatype Transaction =
    | StoreDocument(documentId: string, name: string, active: Option<string>, allowRestore: bool)
    | StoreVersion(versionId: string, version: Version)
    | StoreChunks(versionId: string, chunkIds: seq<string>)
    | MarkVersion(job: Job, status: VersionStatus, failureCode: Option<string>)
    | Publish(job: Job, heads: bool)
    | Submit(submission: Job, limit: Option<nat>, now: Time)
    | Delete(documentId: string, expected: Option<string>, submission: Job, room: nat, now: Time)
    | Retry(id: JobId, includeSucceeded: bool, now: Time)
    | Progress(id: JobId, owner: string, percent: int, now: Time)
    | Acquire(owner: string, now: Time, expires: Time)
    | Release(owner: string)
    | Claim(owner: string, now: Time, expires: Time, target: Option<JobId>)
    | Beat(owner: string, job: Job, now: Time, expires: Time)
    | Finish(owner: string, job: Job, succeeded: bool, errorCode: Option<string>)
    | Requeue(now: Time)

  ghost function Apply(db: Db, t: Transaction, clock: Time): Tx {
    match t
    case StoreDocument(id, name, active, allowRestore) => PutDocument(db, id, name, active, allowRestore)
    case StoreVersion(id, version) => PutVersion(db, id, version)
    case StoreChunks(id, chunkIds) => ReplaceChunks(db, id, chunkIds)
    case MarkVersion(job, status, code) => SetVersionStatus(db, job.versionId, status, code, Some(job), clock)
    case Publish(job, heads) => PublishVersion(db, job.versionId, job, heads, clock)
    case Submit(job, limit, now) => PutJob(db, job, limit, now)
    case Delete(id, expected, job, room, now) => TombstoneAndPutJob(db, id, expected, job, room, now)
    case Retry(id, includeSucceeded, now) => RetryJob(db, id, includeSucceeded, now)
    case Progress(id, owner, percent, now) => UpdateProgress(db, id, owner, percent, now)
    case Acquire(owner, now, expires) => AcquireWriter(db, owner, now, expires)
    case Release(owner) => ReleaseWriter(db, owner)
    case Claim(owner, now, expires, target) => ClaimNextJob(db, owner, now, expires, target)
    case Beat(owner, job, now, expires) => Heartbeat(db, job.jobId, owner, now, expires, Some(job), clock)
    case Finish(owner, job, succeeded, code) => FinishJob(db, job.jobId, owner, succeeded, code, Some(job), clock)
    case Requeue(now) => Reconcile(db, now)
  }

  /** Writes that an attempt may make only while its lease holds. */
  predicate GuardedBy(t: Transaction, job: Job) {
    (t.MarkVersion? || t.Publish? || t.Beat? || t.Finish?) && t.job == job
  }

  datatype Step = Step(transaction: Transaction, clock: Time)

  /** `dbs[i]` is the database before step i. */
  datatype History = History(dbs: seq<Db>, steps: seq<Step>)

  ghost predicate Valid(h: History) {
    && |h.dbs| == |h.steps| + 1
    && Keyed(h.dbs[0])
    && (forall i :: 0 <= i < |h.steps| ==>
          h.dbs[i + 1] == Apply(h.dbs[i], h.steps[i].transaction, h.steps[i].clock).db)
    && (forall i, j :: 0 <= i < j < |h.steps| ==> h.steps[i].clock <= h.steps[j].clock)
  }
}
