/**
 Deletion cleanup. A document's cleanup job may be unfinished only while the
 document is tombstoned, so cleanup never runs against a live document.
 */
module Cleanup {
  import opened Wrappers
  import opened Metadata
  import opened Transactions
  import opened Installation

  /** An unsuccessful cleanup job of the document is its latest, and the document is tombstoned. */
  ghost predicate PendingCleanup(db: Db, d: string) {
    forall id :: id in db.jobs && IsDeleteOf(db.jobs[id], d) && db.jobs[id].status != Succeeded ==>
      Tombstoned(db, d) && IsLatestDelete(db, d, id)
  }

  /** A tombstoned document has no active version and has a cleanup job. */
  ghost predicate TombstonesCovered(db: Db) {
    forall d :: Tombstoned(db, d) ==> db.documents[d].active.None? && HasDelete(db, d)
  }

  // ----- Frames: what most transactions leave alone -----

  /** No cleanup job appears, and none that had succeeded becomes unsuccessful. */
  ghost predicate CleanupJobsKept(db: Db, db': Db) {
    && (forall id :: id in db.jobs ==> id in db'.jobs && SameInput(db.jobs[id], db'.jobs[id]))
    && (forall id :: id in db'.jobs && db'.jobs[id].operation == DeleteDocument ==>
          && id in db.jobs && SameInput(db.jobs[id], db'.jobs[id])
          && (db.jobs[id].status == Succeeded ==> db'.jobs[id].status == Succeeded))
  }

  ghost predicate TombstonesKept(db: Db, db': Db) {
    forall d ::
      && (Tombstoned(db, d) <==> Tombstoned(db', d))
      && (Tombstoned(db, d) ==> db'.documents[d].active == db.documents[d].active)
  }

  ghost predicate CleanupKept(db: Db, db': Db) {
    Keyed(db') && CleanupJobsKept(db, db') && TombstonesKept(db, db')
  }

  lemma KeptHasDelete(db: Db, db': Db, d: string)
    requires CleanupJobsKept(db, db') && HasDelete(db, d)
    ensures HasDelete(db', d)
  {
    var id :| id in db.jobs && IsDeleteOf(db.jobs[id], d);
    assert IsDeleteOf(db'.jobs[id], d);
  }

  lemma KeptCovered(db: Db, db': Db)
    requires CleanupKept(db, db') && TombstonesCovered(db)
    ensures TombstonesCovered(db')
  {
    forall d | Tombstoned(db', d) ensures db'.documents[d].active.None? && HasDelete(db', d) {
      KeptHasDelete(db, db', d);
    }
  }

  lemma KeptPending(db: Db, db': Db, d: string)
    requires CleanupJobsKept(db, db') && Tombstoned(db, d) == Tombstoned(db', d) && PendingCleanup(db, d)
    ensures PendingCleanup(db', d)
  {
  }

  // ----- The transactions that matter -----

  /** Restoring a document is refused unless every one of its cleanup jobs has succeeded. */
  lemma RestoreKeepsCleanup(db: Db, id: string, name: string, active: Option<string>, allowRestore: bool, d: string)
    requires PendingCleanup(db, d)
    ensures PendingCleanup(PutDocument(db, id, name, active, allowRestore).db, d)
  {
    var db' := PutDocument(db, id, name, active, allowRestore).db;
    if Tombstoned(db, d) && !Tombstoned(db', d) {
      var latest :| latest in db.jobs && IsLatestDelete(db, d, latest) && db.jobs[latest].status == Succeeded;
      assert forall x :: x in db.jobs && IsDeleteOf(db.jobs[x], d) ==> db.jobs[x].status == Succeeded;
    } else {
      KeptPending(db, db', d);
    }
  }

  lemma RestoreKeepsCovered(db: Db, id: string, name: string, active: Option<string>, allowRestore: bool)
    requires TombstonesCovered(db)
    ensures TombstonesCovered(PutDocument(db, id, name, active, allowRestore).db)
  {
    var db' := PutDocument(db, id, name, active, allowRestore).db;
    forall d | Tombstoned(db', d) ensures db'.documents[d].active.None? && HasDelete(db', d) {
      assert Tombstoned(db, d);
      KeptHasDelete(db, db', d);
    }
  }

  /** What a deletion that changes anything does to the cleanup jobs: it adds one. */
  lemma DeletionAddsOne(db: Db, d: string, expected: Option<string>, job: Job, room: nat, now: Time)
    requires Keyed(db) && !KeyTaken(db, job.key)
    ensures var db' := TombstoneAndPutJob(db, d, expected, job, room, now).db;
      && Keyed(db')
      && (db' == db || (
            && IsDeleteOf(job, d) && d in db.documents && !Tombstoned(db, d) && job.jobId !in db.jobs
            && db'.documents == db.documents[d := db'.documents[d]] && Tombstoned(db', d)
            && db'.documents[d].active.None?
            && db'.jobs == SupersedeImports(db, d, now).jobs[job.jobId := job.(createdAt := now, updatedAt := now)]))
  {
  }

  lemma SupersedeKeepsCleanupJobs(db: Db, d: string, now: Time)
    requires Keyed(db)
    ensures CleanupJobsKept(db, SupersedeImports(db, d, now))
  {
  }

  lemma DeleteKeepsCovered(db: Db, d: string, expected: Option<string>, job: Job, room: nat, now: Time)
    requires Keyed(db) && TombstonesCovered(db) && !KeyTaken(db, job.key)
    ensures TombstonesCovered(TombstoneAndPutJob(db, d, expected, job, room, now).db)
  {
    var db' := TombstoneAndPutJob(db, d, expected, job, room, now).db;
    DeletionAddsOne(db, d, expected, job, room, now);
    if db' != db {
      forall e | Tombstoned(db', e) ensures db'.documents[e].active.None? && HasDelete(db', e) {
        if e == d {
          assert IsDeleteOf(db'.jobs[job.jobId], d);
        } else {
          assert Tombstoned(db, e);
          var id :| id in db.jobs && IsDeleteOf(db.jobs[id], e);
          assert IsDeleteOf(db'.jobs[id], e);
        }
      }
    }
  }

  /** Deletions of other documents do not matter. */
  lemma OtherDeletionKeepsCleanup(
    db: Db, d: string, expected: Option<string>, job: Job, room: nat, now: Time, e: string)
    requires Keyed(db) && PendingCleanup(db, e) && !KeyTaken(db, job.key) && d != e
    ensures PendingCleanup(TombstoneAndPutJob(db, d, expected, job, room, now).db, e)
  {
    var db' := TombstoneAndPutJob(db, d, expected, job, room, now).db;
    DeletionAddsOne(db, d, expected, job, room, now);
    if db' != db {
      SupersedeKeepsCleanupJobs(db, d, now);
      forall id | id in db'.jobs && IsDeleteOf(db'.jobs[id], e) && db'.jobs[id].status != Succeeded
        ensures Tombstoned(db', e) && IsLatestDelete(db', e, id)
      {
        assert id != job.jobId && IsLatestDelete(db, e, id);
      }
    }
  }

  lemma DeleteKeepsCleanup(db: Db, d: string, expected: Option<string>, job: Job, room: nat, now: Time)
    requires Keyed(db) && PendingCleanup(db, d) && SortsLast(db, job, now) && !KeyTaken(db, job.key)
    ensures PendingCleanup(TombstoneAndPutJob(db, d, expected, job, room, now).db, d)
  {
    var db' := TombstoneAndPutJob(db, d, expected, job, room, now).db;
    DeletionAddsOne(db, d, expected, job, room, now);
    if db' != db {
      forall id | id in db'.jobs && IsDeleteOf(db'.jobs[id], d) && db'.jobs[id].status != Succeeded
        ensures Tombstoned(db', d) && IsLatestDelete(db', d, id)
      {
        assert id == job.jobId;
        forall x | x in db'.jobs && IsDeleteOf(db'.jobs[x], d) ensures x == id || Before(db'.jobs[x], db'.jobs[id]) {
          assert x != id ==> IsDeleteOf(db.jobs[x], d) && Before(db.jobs[x], job.(createdAt := now));
        }
      }
    }
  }

  /**
   The order of cleanup jobs is what the guarantee rests on. Tombstoning a live
   document keeps the newest-is-pending discipline exactly when the new job
   sorts after every earlier cleanup job of the document, which clock readings
   and identifiers must supply.
   */
  lemma TombstoningIsSafeExactlyWhenItSortsLast(
    db: Db, d: string, expected: Option<string>, job: Job, room: nat, now: Time)
    requires Keyed(db) && PendingCleanup(db, d) && !KeyTaken(db, job.key) && d in db.documents && !Tombstoned(db, d)
    requires FreshRow(job) && TombstoneAndPutJob(db, d, expected, job, room, now).error.None?
    ensures PendingCleanup(TombstoneAndPutJob(db, d, expected, job, room, now).db, d) <==> SortsLast(db, job, now)
  {
    var db' := TombstoneAndPutJob(db, d, expected, job, room, now).db;
    if SortsLast(db, job, now) {
      DeleteKeepsCleanup(db, d, expected, job, room, now);
    } else {
      var x :| x in db.jobs && IsDeleteOf(db.jobs[x], d) && !Before(db.jobs[x], job.(createdAt := now));
      assert IsDeleteOf(db'.jobs[x], d) && x != job.jobId;
      assert !IsLatestDelete(db', d, job.jobId);
    }
  }

  // ----- The transactions that leave the discipline alone -----

  lemma RowUpdateKeeps(db: Db, db': Db, id: JobId)
    requires Keyed(db) && id in db.jobs && id in db'.jobs
    requires db'.documents == db.documents && db'.jobs == db.jobs[id := db'.jobs[id]]
    requires SameInput(db.jobs[id], db'.jobs[id])
    requires db.jobs[id].operation == DeleteDocument && db.jobs[id].status == Succeeded ==>
      db'.jobs[id].status == Succeeded
    ensures CleanupKept(db, db')
  {
  }

  lemma ClaimKeeps(db: Db, owner: string, now: Time, expires: Time, target: Option<JobId>)
    requires Keyed(db)
    ensures CleanupKept(db, ClaimNextJob(db, owner, now, expires, target).db)
  {
    if Next(db, now, target).Some? {
      RowUpdateKeeps(db, ClaimNextJob(db, owner, now, expires, target).db, Next(db, now, target).value);
    }
  }

  lemma FinishKeeps(db: Db, owner: string, job: Job, succeeded: bool, code: Option<string>, clock: Time)
    requires Keyed(db)
    ensures CleanupKept(db, FinishJob(db, job.jobId, owner, succeeded, code, Some(job), clock).db)
  {
    var db' := FinishJob(db, job.jobId, owner, succeeded, code, Some(job), clock).db;
    if db' != db {
      RowUpdateKeeps(db, db', job.jobId);
    }
  }

  lemma QueueStepKeeps(plan: Plan, db: Db, t: Transaction, clock: Time)
    requires Keyed(db) && IssuedOutside(plan, db, clock, t) && (t.Beat? || t.Retry? || t.Progress?)
    ensures CleanupKept(db, Apply(db, t, clock).db)
  {
    var db' := Apply(db, t, clock).db;
    if db' != db {
      RowUpdateKeeps(db, db', if t.Beat? then t.job.jobId else t.id);
    }
  }

  lemma SubmitKeeps(db: Db, job: Job, limit: Option<nat>, now: Time)
    requires Keyed(db) && job.operation != DeleteDocument
    ensures CleanupKept(db, PutJob(db, job, limit, now).db)
  {
    var db' := PutJob(db, job, limit, now).db;
    if db' != db {
      var row := job.(createdAt := now, updatedAt := now);
      assert job.jobId !in db.jobs && db' == db.(jobs := db.jobs[job.jobId := row]);
    }
  }

  lemma ManifestStepKeeps(db: Db, t: Transaction, clock: Time)
    requires Keyed(db) && (t.StoreVersion? || t.StoreChunks?)
    ensures CleanupKept(db, Apply(db, t, clock).db)
  {
  }

  /** Every transaction of the others but restores and deletions. */
  lemma OutsideStepKeeps(plan: Plan, db: Db, t: Transaction, clock: Time)
    requires Keyed(db) && IssuedOutside(plan, db, clock, t) && !t.StoreDocument? && !t.Delete?
    ensures CleanupKept(db, Apply(db, t, clock).db)
  {
    if t.Submit? {
      SubmitKeeps(db, t.submission, t.limit, t.now);
    } else if t.StoreVersion? || t.StoreChunks? {
      ManifestStepKeeps(db, t, clock);
    } else {
      QueueStepKeeps(plan, db, t, clock);
    }
  }

  lemma ReconcileKeeps(db: Db, now: Time)
    requires Keyed(db)
    ensures CleanupKept(db, Reconcile(db, now).db)
  {
  }

  lemma PublishKeeps(db: Db, job: Job, heads: bool, clock: Time)
    requires Keyed(db)
    ensures CleanupKept(db, PublishVersion(db, job.versionId, job, heads, clock).db)
  {
  }

  lemma SameJobsKeep(db: Db, db': Db)
    requires Keyed(db) && db'.jobs == db.jobs && db'.documents == db.documents
    ensures CleanupKept(db, db')
  {
  }

  /** Every event but the transactions of the others. */
  lemma LockedEventKeeps(plan: Plan, s: Sys, e: Event)
    requires Keyed(s.db) && Enabled(plan, s, e) && !e.Outside?
    ensures CleanupKept(s.db, Effect(s, e).db)
  {
    match e {
      case ClaimJob(now, expires, target) => ClaimKeeps(s.db, s.phase.owner, now, expires, target);
      case FinishRow(succeeded, code) => FinishKeeps(s.db, s.phase.owner, s.phase.job, succeeded, code, s.clock);
      case Recover(now) => ReconcileKeeps(s.db, now);
      case PublishRow(heads) => PublishKeeps(s.db, s.phase.job, heads, s.clock);
      case _ => SameJobsKeep(s.db, Effect(s, e).db);
    }
  }

  /** Every event whatsoever keeps tombstones covered. */
  lemma EventKeepsCovered(plan: Plan, s: Sys, e: Event)
    requires Keyed(s.db) && TombstonesCovered(s.db) && Enabled(plan, s, e)
    ensures Keyed(Effect(s, e).db) && TombstonesCovered(Effect(s, e).db)
  {
    if e.Outside? && e.transaction.StoreDocument? {
      var t := e.transaction;
      RestoreKeepsCovered(s.db, t.documentId, t.name, t.active, t.allowRestore);
    } else if e.Outside? && e.transaction.Delete? {
      var t := e.transaction;
      DeleteKeepsCovered(s.db, t.documentId, t.expected, t.submission, t.room, t.now);
      DeletionAddsOne(s.db, t.documentId, t.expected, t.submission, t.room, t.now);
    } else {
      if e.Outside? {
        OutsideStepKeeps(plan, s.db, e.transaction, s.clock);
      } else {
        LockedEventKeeps(plan, s, e);
      }
      KeptCovered(s.db, Effect(s, e).db);
    }
  }

  /** Every event keeps the cleanup discipline of a document, unless it is a deletion of that document dated back. */
  lemma EventKeepsCleanup(plan: Plan, s: Sys, e: Event, d: string)
    requires Keyed(s.db) && PendingCleanup(s.db, d) && Enabled(plan, s, e) && Ordered(s.db, e, d)
    ensures PendingCleanup(Effect(s, e).db, d)
  {
    if e.Outside? && e.transaction.StoreDocument? {
      var t := e.transaction;
      RestoreKeepsCleanup(s.db, t.documentId, t.name, t.active, t.allowRestore, d);
    } else if e.Outside? && e.transaction.Delete? {
      var t := e.transaction;
      if t.documentId == d {
        DeleteKeepsCleanup(s.db, d, t.expected, t.submission, t.room, t.now);
      } else {
        OtherDeletionKeepsCleanup(s.db, t.documentId, t.expected, t.submission, t.room, t.now, d);
      }
    } else {
      if e.Outside? {
        OutsideStepKeeps(plan, s.db, e.transaction, s.clock);
      } else {
        LockedEventKeeps(plan, s, e);
      }
      KeptPending(s.db, Effect(s, e).db, d);
    }
  }
}
