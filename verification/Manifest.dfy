/**
 The active manifest. In every reachable state each active version exists,
 belongs to its document, is ready, and is complete in the database; what both
 retrieval stores hold of it is a matter of its document alone.
 */
module Manifest {
  import opened Wrappers
  import opened Metadata
  import opened Transactions
  import opened Installation

  /** Stored manifests and import jobs follow the plan. */
  ghost predicate PlanInv(plan: Plan, db: Db) {
    && (forall v :: v in db.versions ==>
          && db.versions[v].documentId == plan(v).documentId && plan(v).documentId in db.documents
          && db.versions[v].digest == plan(v).chunkIds && db.versions[v].expected == |plan(v).chunkIds|)
    && (forall v :: v in db.chunks ==> db.chunks[v] == plan(v).chunkIds)
    && (forall id :: id in db.jobs && db.jobs[id].operation != DeleteDocument ==>
          db.jobs[id].documentId == plan(db.jobs[id].versionId).documentId)
  }

  /** The version is ready and nothing of it is missing in the database. */
  ghost predicate Filed(plan: Plan, db: Db, v: string) {
    && v in db.versions && db.versions[v].status == Ready
    && db.versions[v].documentId == plan(v).documentId
    && Rows(db, v) == plan(v).chunkIds && |Rows(db, v)| == db.versions[v].expected
  }

  ghost predicate ManifestInv(plan: Plan, db: Db) {
    && PlanInv(plan, db)
    && forall d, v :: ActiveIs(db, d, v) ==> plan(v).documentId == d && Filed(plan, db, v)
  }

  /** Both stores hold exactly the chunks of the version that the document shows. */
  ghost predicate StoresHold(plan: Plan, s: Sys, d: string) {
    forall v :: ActiveIs(s.db, d, v) ==> StoresAgree(s.vector, s.graph, v, IdSet(plan(v).chunkIds))
  }

  ghost predicate NotActive(db: Db, v: string) {
    forall d :: !ActiveIs(db, d, v)
  }

  /** The claimed row is still running at the claimed attempt. */
  ghost predicate RowHeld(db: Db, job: Job) {
    && job.jobId in db.jobs && db.jobs[job.jobId].status == Running
    && db.jobs[job.jobId].attemptCount == job.attemptCount && SameInput(db.jobs[job.jobId], job)
  }

  /** What the handler remembers is true. */
  ghost predicate HandlerInv(plan: Plan, s: Sys) {
    s.phase.Handling? ==>
      var job, h := s.phase.job, s.phase.handler;
      && RowHeld(s.db, job)
      && (job.operation == DeleteDocument ==> h == Handler(false, false, None, false))
      && (h.sawActive ==>
            job.versionId in s.db.versions && s.db.versions[job.versionId].status == Ready && !h.sawInactive)
      && (h.sawInactive ==> NotActive(s.db, job.versionId))
      && (h.ids.Some? ==> h.ids.value == IdSet(plan(job.versionId).chunkIds))
      && (h.verified ==> h.ids.Some? && StoresAgree(s.vector, s.graph, job.versionId, h.ids.value))
  }

  // ----- What processes without the lock cannot do -----

  /** Running rows stay with their attempt, versions keep their status, and none becomes active. */
  ghost predicate Harmless(db: Db, db': Db) {
    && (forall id :: id in db.jobs && db.jobs[id].status == Running ==>
          && id in db'.jobs && db'.jobs[id].status == Running
          && db'.jobs[id].attemptCount == db.jobs[id].attemptCount && SameInput(db.jobs[id], db'.jobs[id]))
    && (forall v :: v in db.versions ==> v in db'.versions && db'.versions[v].status == db.versions[v].status)
    && (forall d, v :: ActiveIs(db', d, v) ==> ActiveIs(db, d, v))
  }

  lemma HarmlessKeepsHandler(plan: Plan, s: Sys, db': Db)
    requires HandlerInv(plan, s) && Harmless(s.db, db')
    ensures HandlerInv(plan, s.(db := db'))
  {
  }

  /** The manifest survives whatever adds rows as planned and activates nothing. */
  lemma FrameManifest(plan: Plan, db: Db, db': Db)
    requires ManifestInv(plan, db) && PlanInv(plan, db')
    requires forall d, v :: ActiveIs(db', d, v) ==> ActiveIs(db, d, v)
    requires forall v :: v in db.versions ==> v in db'.versions && db'.versions[v].status == db.versions[v].status
    requires forall v :: v in db.chunks ==> v in db'.chunks
    ensures ManifestInv(plan, db')
  {
    forall d, v | ActiveIs(db', d, v) ensures plan(v).documentId == d && Filed(plan, db', v) {
      assert ActiveIs(db, d, v);
    }
  }

  lemma StoreDocumentKeepsManifest(
    plan: Plan, db: Db, id: string, name: string, active: Option<string>, allowRestore: bool)
    requires ManifestInv(plan, db) && (id !in db.documents ==> active.None?)
    ensures ManifestInv(plan, PutDocument(db, id, name, active, allowRestore).db)
    ensures Harmless(db, PutDocument(db, id, name, active, allowRestore).db)
  {
    FrameManifest(plan, db, PutDocument(db, id, name, active, allowRestore).db);
  }

  function Planned(plan: Plan, id: string): Version {
    Version(plan(id).documentId, |plan(id).chunkIds|, plan(id).chunkIds, Staged, None)
  }

  lemma StoreVersionKeepsManifest(plan: Plan, db: Db, id: string)
    requires ManifestInv(plan, db)
    ensures ManifestInv(plan, PutVersion(db, id, Planned(plan, id)).db)
    ensures Harmless(db, PutVersion(db, id, Planned(plan, id)).db)
  {
    FrameManifest(plan, db, PutVersion(db, id, Planned(plan, id)).db);
  }

  lemma StoreChunksKeepsManifest(plan: Plan, db: Db, id: string)
    requires ManifestInv(plan, db)
    ensures ManifestInv(plan, ReplaceChunks(db, id, plan(id).chunkIds).db)
    ensures Harmless(db, ReplaceChunks(db, id, plan(id).chunkIds).db)
  {
    FrameManifest(plan, db, ReplaceChunks(db, id, plan(id).chunkIds).db);
  }

  lemma DeletePlanned(plan: Plan, db: Db, d: string, expected: Option<string>, job: Job, room: nat, now: Time)
    requires PlanInv(plan, db)
    ensures PlanInv(plan, TombstoneAndPutJob(db, d, expected, job, room, now).db)
  {
  }

  lemma DeleteHarmless(db: Db, d: string, expected: Option<string>, job: Job, room: nat, now: Time)
    ensures Harmless(db, TombstoneAndPutJob(db, d, expected, job, room, now).db)
  {
  }

  lemma DeleteKeepsManifest(
    plan: Plan, db: Db, d: string, expected: Option<string>, job: Job, room: nat, now: Time)
    requires ManifestInv(plan, db)
    ensures ManifestInv(plan, TombstoneAndPutJob(db, d, expected, job, room, now).db)
    ensures Harmless(db, TombstoneAndPutJob(db, d, expected, job, room, now).db)
  {
    DeletePlanned(plan, db, d, expected, job, room, now);
    DeleteHarmless(db, d, expected, job, room, now);
    FrameManifest(plan, db, TombstoneAndPutJob(db, d, expected, job, room, now).db);
  }

  lemma SubmitKeepsManifest(plan: Plan, db: Db, clock: Time, job: Job, limit: Option<nat>, now: Time)
    requires ManifestInv(plan, db) && IssuedOutside(plan, db, clock, Submit(job, limit, now))
    ensures ManifestInv(plan, PutJob(db, job, limit, now).db)
    ensures Harmless(db, PutJob(db, job, limit, now).db)
  {
    var db' := PutJob(db, job, limit, now).db;
    if db' != db {
      assert db' == db.(jobs := db.jobs[job.jobId := job.(createdAt := now, updatedAt := now)]);
      FrameManifest(plan, db, db');
    }
  }

  /** Job rows and leases change; documents, versions, chunks and job inputs stay. */
  ghost predicate OnlyQueue(db: Db, db': Db) {
    && db'.documents == db.documents && db'.versions == db.versions && db'.chunks == db.chunks
    && forall id :: id in db'.jobs ==> id in db.jobs && SameInput(db.jobs[id], db'.jobs[id])
  }

  lemma OnlyQueueKeepsManifest(plan: Plan, db: Db, db': Db)
    requires ManifestInv(plan, db) && OnlyQueue(db, db')
    ensures ManifestInv(plan, db')
  {
    FrameManifest(plan, db, db');
  }

  lemma BeatIsOnlyQueue(db: Db, owner: string, job: Job, now: Time, expires: Time, clock: Time)
    ensures var db' := Heartbeat(db, job.jobId, owner, now, expires, Some(job), clock).db;
      OnlyQueue(db, db') && Harmless(db, db')
  {
  }

  lemma RetryIsOnlyQueue(db: Db, id: JobId, includeSucceeded: bool, now: Time)
    ensures OnlyQueue(db, RetryJob(db, id, includeSucceeded, now).db)
    ensures Harmless(db, RetryJob(db, id, includeSucceeded, now).db)
  {
  }

  lemma ProgressIsOnlyQueue(db: Db, id: JobId, owner: string, percent: int, now: Time)
    ensures OnlyQueue(db, UpdateProgress(db, id, owner, percent, now).db)
    ensures Harmless(db, UpdateProgress(db, id, owner, percent, now).db)
  {
  }

  /** Transactions on existing jobs and the writer lease that are open to every process. */
  lemma QueueKeepsManifest(plan: Plan, db: Db, clock: Time, t: Transaction)
    requires ManifestInv(plan, db) && IssuedOutside(plan, db, clock, t)
    requires t.Retry? || t.Progress? || t.Beat?
    ensures ManifestInv(plan, Apply(db, t, clock).db)
    ensures Harmless(db, Apply(db, t, clock).db)
  {
    match t {
      case Beat(owner, job, now, expires) => BeatIsOnlyQueue(db, owner, job, now, expires, clock);
      case Retry(id, includeSucceeded, now) => RetryIsOnlyQueue(db, id, includeSucceeded, now);
      case Progress(id, owner, percent, now) => ProgressIsOnlyQueue(db, id, owner, percent, now);
    }
    OnlyQueueKeepsManifest(plan, db, Apply(db, t, clock).db);
  }

  lemma OutsideKeepsManifest(plan: Plan, db: Db, clock: Time, t: Transaction)
    requires ManifestInv(plan, db) && IssuedOutside(plan, db, clock, t)
    ensures ManifestInv(plan, Apply(db, t, clock).db)
    ensures Harmless(db, Apply(db, t, clock).db)
  {
    match t {
      case StoreDocument(id, name, active, allowRestore) =>
        StoreDocumentKeepsManifest(plan, db, id, name, active, allowRestore);
      case StoreVersion(id, _) => StoreVersionKeepsManifest(plan, db, id);
      case StoreChunks(id, _) => StoreChunksKeepsManifest(plan, db, id);
      case Delete(d, expected, job, room, now) => DeleteKeepsManifest(plan, db, d, expected, job, room, now);
      case Submit(job, limit, now) => SubmitKeepsManifest(plan, db, clock, job, limit, now);
      case _ => QueueKeepsManifest(plan, db, clock, t);
    }
  }

  /** Leases, completion, recovery and claims change no document, version or chunk. */
  lemma LeaseIsOnlyQueue(plan: Plan, s: Sys, e: Event)
    requires Enabled(plan, s, e) && (e.AcquireLease? || e.FinishRow? || e.ReleaseLease? || e.Recover? || e.ClaimJob?)
    ensures OnlyQueue(s.db, Effect(s, e).db)
  {
    if e.FinishRow? {
      FinishIsOnlyQueue(s.db, s.phase.owner, s.phase.job, e.succeeded, e.errorCode, s.clock);
    }
  }

  lemma FinishIsOnlyQueue(db: Db, owner: string, job: Job, succeeded: bool, code: Option<string>, clock: Time)
    ensures OnlyQueue(db, FinishJob(db, job.jobId, owner, succeeded, code, Some(job), clock).db)
  {
  }

  // ----- What the handler may do -----

  lemma MarkKeepsManifest(plan: Plan, s: Sys, status: VersionStatus, code: Option<string>)
    requires ManifestInv(plan, s.db) && HandlerInv(plan, s)
    requires Enabled(plan, s, MarkVersionRow(status, code))
    ensures ManifestInv(plan, Effect(s, MarkVersionRow(status, code)).db)
    ensures HandlerInv(plan, Effect(s, MarkVersionRow(status, code)))
    ensures Effect(s, MarkVersionRow(status, code)).db.documents == s.db.documents
  {
    var db' := Effect(s, MarkVersionRow(status, code)).db;
    forall d, v | ActiveIs(db', d, v) ensures plan(v).documentId == d && Filed(plan, db', v) {
      assert ActiveIs(s.db, d, v) && v != s.phase.job.versionId;
    }
  }

  lemma ReadKeepsHandler(plan: Plan, s: Sys, e: Event)
    requires ManifestInv(plan, s.db) && HandlerInv(plan, s)
    requires Enabled(plan, s, e) && (e.ReadDocument? || e.ReadVersion? || e.ReadManifest? || e.VerifyStores?)
    ensures HandlerInv(plan, Effect(s, e))
  {
    var job := s.phase.job;
    if e.ReadDocument? && !ActiveIs(s.db, job.documentId, job.versionId) {
      forall d ensures !ActiveIs(s.db, d, job.versionId) {
        assert s.db.jobs[job.jobId].operation != DeleteDocument;
      }
    }
  }

  /** An upsert touches only a version that no document shows. */
  lemma UpsertKeepsStores(plan: Plan, s: Sys, e: Event)
    requires HandlerInv(plan, s) && Enabled(plan, s, e) && (e.UpsertVector? || e.UpsertGraph?)
    ensures HandlerInv(plan, Effect(s, e)) && Effect(s, e).db == s.db
    ensures forall d :: StoresHold(plan, s, d) ==> StoresHold(plan, Effect(s, e), d)
  {
    forall d | StoresHold(plan, s, d) ensures StoresHold(plan, Effect(s, e), d) {
      forall v | ActiveIs(s.db, d, v)
        ensures StoresAgree(Effect(s, e).vector, Effect(s, e).graph, v, IdSet(plan(v).chunkIds))
      {
        assert v != s.phase.job.versionId;
      }
    }
  }

  /** Publication is the only event that makes a version active, and it publishes complete data. */
  lemma PublishKeepsManifest(plan: Plan, s: Sys, heads: bool)
    requires ManifestInv(plan, s.db) && HandlerInv(plan, s)
    requires Enabled(plan, s, PublishRow(heads))
    ensures ManifestInv(plan, Effect(s, PublishRow(heads)).db)
    ensures HandlerInv(plan, Effect(s, PublishRow(heads)))
    ensures forall d :: StoresHold(plan, s, d) ==> StoresHold(plan, Effect(s, PublishRow(heads)), d)
  {
    var job := s.phase.job;
    var tx := PublishVersion(s.db, job.versionId, job, heads, s.clock);
    if tx.error.None? {
      assert Rows(s.db, job.versionId) == plan(job.versionId).chunkIds;
      forall d, v | ActiveIs(tx.db, d, v)
        ensures plan(v).documentId == d && Filed(plan, tx.db, v)
        ensures v == job.versionId || ActiveIs(s.db, d, v)
      {
        if v != job.versionId {
          assert ActiveIs(s.db, d, v);
        } else if d != plan(v).documentId {
          assert ActiveIs(s.db, d, v);
        }
      }
    }
  }

  /** Erasing reaches no version of a document that shows none, nor of any other document. */
  lemma EraseKeepsStores(plan: Plan, s: Sys, e: Event, d: string)
    requires ManifestInv(plan, s.db) && HandlerInv(plan, s) && StoresHold(plan, s, d)
    requires Enabled(plan, s, e) && (e.EraseVector? || e.EraseGraph?)
    requires d == s.phase.job.documentId ==> forall v :: !ActiveIs(s.db, d, v)
    ensures StoresHold(plan, Effect(s, e), d)
  {
    forall v | ActiveIs(s.db, d, v)
      ensures StoresAgree(Effect(s, e).vector, Effect(s, e).graph, v, IdSet(plan(v).chunkIds))
    {
      assert plan(v).documentId != s.phase.job.documentId;
    }
  }
}
