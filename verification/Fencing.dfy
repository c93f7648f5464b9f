/**
 Attempts are fenced out for ever: once a claimed row has left `running`, or
 its lease has run out, nothing that any process does lets the attempt write again.
 */
module Fencing {
  import opened Wrappers
  import opened Metadata
  import opened Transactions

  /**
   What every transaction does to the job rows: rows stay, their input columns
   are fixed, attempt counts never fall, and a row can only be running at the
   attempt count at which it was already running.
   */
  ghost predicate JobsEvolve(db: Db, db': Db) {
    forall id :: id in db.jobs ==>
      && id in db'.jobs
      && SameInput(db.jobs[id], db'.jobs[id])
      && db.jobs[id].attemptCount <= db'.jobs[id].attemptCount
      && (db.jobs[id].attemptCount == db'.jobs[id].attemptCount && db'.jobs[id].status == Running ==>
            db.jobs[id].status == Running)
  }

  lemma DocumentStepEvolves(db: Db, t: Transaction, clock: Time)
    requires t.StoreDocument? || t.StoreVersion? || t.StoreChunks? || t.MarkVersion? || t.Publish?
             || t.Acquire? || t.Release?
    ensures Apply(db, t, clock).db.jobs == db.jobs
  {
  }

  lemma DeleteEvolves(db: Db, t: Transaction, clock: Time)
    requires Keyed(db) && t.Delete?
    ensures Keyed(Apply(db, t, clock).db) && JobsEvolve(db, Apply(db, t, clock).db)
  {
  }

  lemma QueueStepEvolves(db: Db, t: Transaction, clock: Time)
    requires Keyed(db) && (t.Submit? || t.Claim? || t.Requeue?)
    ensures Keyed(Apply(db, t, clock).db) && JobsEvolve(db, Apply(db, t, clock).db)
  {
  }

  lemma RetryStepEvolves(db: Db, t: Transaction, clock: Time)
    requires Keyed(db) && (t.Retry? || t.Progress?)
    ensures Keyed(Apply(db, t, clock).db) && JobsEvolve(db, Apply(db, t, clock).db)
  {
  }

  lemma LeaseStepEvolves(db: Db, t: Transaction, clock: Time)
    requires Keyed(db) && (t.Beat? || t.Finish?)
    ensures Keyed(Apply(db, t, clock).db) && JobsEvolve(db, Apply(db, t, clock).db)
  {
  }

  lemma StepEvolves(db: Db, t: Transaction, clock: Time)
    requires Keyed(db)
    ensures Keyed(Apply(db, t, clock).db)
    ensures JobsEvolve(db, Apply(db, t, clock).db)
  {
    if t.Delete? {
      DeleteEvolves(db, t, clock);
    } else if t.Submit? || t.Claim? || t.Requeue? {
      QueueStepEvolves(db, t, clock);
    } else if t.Retry? || t.Progress? {
      RetryStepEvolves(db, t, clock);
    } else if t.Beat? || t.Finish? {
      LeaseStepEvolves(db, t, clock);
    } else {
      DocumentStepEvolves(db, t, clock);
    }
  }

  lemma {:induction false} HistoryEvolves(h: History, i: nat, k: nat)
    requires Valid(h) && i <= k < |h.dbs|
    ensures Keyed(h.dbs[i]) && Keyed(h.dbs[k]) && JobsEvolve(h.dbs[i], h.dbs[k])
    decreases k
  {
    if k == 0 {
    } else if i == k {
      HistoryEvolves(h, i - 1, k - 1);
      StepEvolves(h.dbs[k - 1], h.steps[k - 1].transaction, h.steps[k - 1].clock);
    } else {
      HistoryEvolves(h, i, k - 1);
      StepEvolves(h.dbs[k - 1], h.steps[k - 1].transaction, h.steps[k - 1].clock);
    }
  }

  /** The attempt recorded in `job` is over: overtaken, no longer running, or out of lease. */
  ghost predicate Retired(db: Db, job: Job, clock: Time) {
    && job.jobId in db.jobs
    && var row := db.jobs[job.jobId];
    && (row.attemptCount > job.attemptCount
        || (row.attemptCount == job.attemptCount && (row.status != Running || !After(row.leaseExpires, clock))))
  }

  /** The row is not running, or its own lease has run out. */
  predicate Lapsed(db: Db, id: JobId, clock: Time) {
    id in db.jobs && (db.jobs[id].status != Running || !After(db.jobs[id].leaseExpires, clock))
  }

  lemma StepKeepsRetired(db: Db, t: Transaction, job: Job, clock: Time, later: Time)
    requires Keyed(db) && Retired(db, job, clock) && clock <= later
    ensures Retired(Apply(db, t, later).db, job, clock)
  {
    StepEvolves(db, t, later);
    if t.Beat? && t.job.jobId == job.jobId && db.jobs[job.jobId].attemptCount == job.attemptCount
       && db.jobs[job.jobId].status == Running {
      assert !Passes(db, t.job, later);
    }
  }

  lemma {:induction false} RetiredForEver(h: History, i: nat, k: nat, job: Job, clock: Time)
    requires Valid(h) && i <= k <= |h.steps|
    requires Retired(h.dbs[i], job, clock)
    requires forall n :: i <= n < k ==> clock <= h.steps[n].clock
    ensures Retired(h.dbs[k], job, clock)
    decreases k
  {
    if i < k {
      RetiredForEver(h, i, k - 1, job, clock);
      HistoryEvolves(h, 0, k - 1);
      StepKeepsRetired(h.dbs[k - 1], h.steps[k - 1].transaction, job, clock, h.steps[k - 1].clock);
    }
  }

  /** The snapshot handed out by the claim at step i. */
  ghost predicate ClaimsAt(h: History, i: nat, job: Job)
    requires Valid(h) && i < |h.steps|
  {
    && var t := h.steps[i].transaction;
    && t.Claim?
    && Next(h.dbs[i], t.now, t.target) == Some(job.jobId)
    && job == h.dbs[i + 1].jobs[job.jobId]
  }

  /**
   Stale attempts are fenced for ever. In any history in which step i claims
   `job`, once its row is seen not running, or out of lease, before step j, the
   snapshot passes the lease check at no later step, and every later publish,
   status change, heartbeat or finish that carries it leaves the whole database
   as it was.
   */
  lemma StaleAttemptsAreFencedForEver(h: History, i: nat, j: nat, k: nat, job: Job, t: Transaction)
    requires Valid(h) && i < j <= k < |h.steps|
    requires ClaimsAt(h, i, job)
    requires Lapsed(h.dbs[j], job.jobId, h.steps[j].clock)
    ensures !Passes(h.dbs[k], job, h.steps[k].clock)
    ensures GuardedBy(t, job) ==> Apply(h.dbs[k], t, h.steps[k].clock).db == h.dbs[k]
  {
    HistoryEvolves(h, i + 1, j);
    assert Retired(h.dbs[j], job, h.steps[j].clock);
    RetiredForEver(h, j, k, job, h.steps[j].clock);
    assert !Passes(h.dbs[k], job, h.steps[k].clock);
  }

  /** A guarded write has an effect only with the running attempt's own snapshot and while both of its leases run. */
  lemma EffectiveWritesAreFenced(db: Db, t: Transaction, job: Job, clock: Time)
    requires GuardedBy(t, job) && Apply(db, t, clock).db != db
    ensures job.jobId in db.jobs
    ensures var row := db.jobs[job.jobId];
      && row.status == Running && row.attemptCount == job.attemptCount
      && row.documentId == job.documentId && row.versionId == job.versionId
      && row.operation == job.operation && row.payload == job.payload
    ensures var row := db.jobs[job.jobId];
      && row.leaseOwner.Some? && row.leaseOwner == job.leaseOwner == db.writer.owner
      && row.leaseExpires.Some? && row.leaseExpires.value > clock
      && db.writer.expires.Some? && db.writer.expires.value > clock
  {
  }

  // ----- A refused attempt whose own lease still runs -----

  /** Everything the lease check asks of the row holds, but its owner does not hold the writer lease. */
  ghost predicate Suspended(db: Db, job: Job, clock: Time) {
    && job.jobId in db.jobs
    && var row := db.jobs[job.jobId];
    && row.status == Running && row.leaseOwner.Some? && row.leaseOwner == job.leaseOwner
    && row.attemptCount == job.attemptCount
    && row.documentId == job.documentId && row.versionId == job.versionId
    && row.operation == job.operation && row.payload == job.payload
    && After(row.leaseExpires, clock)
    && !(db.writer.owner == row.leaseOwner && After(db.writer.expires, clock))
  }

  /** The owner of the attempt takes the writer lease while the attempt's row is unexpired. */
  predicate Reacquires(db: Db, t: Transaction, job: Job, clock: Time) {
    && t.Acquire? && Some(t.owner) == job.leaseOwner && WriterAvailable(db, t.owner, t.now)
    && job.jobId in db.jobs && After(db.jobs[job.jobId].leaseExpires, clock)
  }

  /** A suspended attempt passes again exactly when its owner takes the writer lease in time. */
  lemma SuspendedRevivesExactlyByReacquiring(db: Db, t: Transaction, job: Job, clock: Time)
    requires Keyed(db) && Suspended(db, job, clock)
    ensures Passes(Apply(db, t, clock).db, job, clock) <==> Reacquires(db, t, job, clock) && t.expires > clock
  {
    if t.Submit? || t.Delete? {
      StepEvolves(db, t, clock);
    }
  }

  ghost predicate OutOfReach(db: Db, job: Job, clock: Time) {
    Retired(db, job, clock) || Suspended(db, job, clock)
  }

  lemma WaitingKeepsOutOfReach(db: Db, job: Job, clock: Time, later: Time)
    requires OutOfReach(db, job, clock) && clock <= later
    ensures OutOfReach(db, job, later) && !Passes(db, job, later)
  {
  }

  lemma SuspendedStepKeeps(db: Db, t: Transaction, job: Job, clock: Time)
    requires Keyed(db) && Suspended(db, job, clock) && !Reacquires(db, t, job, clock)
    ensures OutOfReach(Apply(db, t, clock).db, job, clock)
  {
  }

  lemma StepKeepsOutOfReach(db: Db, t: Transaction, job: Job, clock: Time, later: Time)
    requires Keyed(db) && OutOfReach(db, job, clock) && clock <= later && !Reacquires(db, t, job, later)
    ensures OutOfReach(Apply(db, t, later).db, job, later)
  {
    WaitingKeepsOutOfReach(db, job, clock, later);
    if Retired(db, job, later) {
      StepKeepsRetired(db, t, job, later, later);
    } else {
      SuspendedStepKeeps(db, t, job, later);
    }
  }

  /**
   An attempt whose completion was refused stays out until its own owner takes
   the writer lease again before the attempt's row expires: no other transaction
   of any process lets it pass.
   */
  lemma {:induction false} OutOfReachUntilReacquired(h: History, i: nat, k: nat, job: Job, clock: Time)
    requires Valid(h) && i <= k < |h.steps| && OutOfReach(h.dbs[i], job, clock) && clock <= h.steps[i].clock
    requires forall n :: i <= n < k ==> !Reacquires(h.dbs[n], h.steps[n].transaction, job, h.steps[n].clock)
    ensures OutOfReach(h.dbs[k], job, h.steps[k].clock) && !Passes(h.dbs[k], job, h.steps[k].clock)
    decreases k
  {
    if i == k {
      WaitingKeepsOutOfReach(h.dbs[k], job, clock, h.steps[k].clock);
    } else {
      var n := k - 1;
      OutOfReachUntilReacquired(h, i, n, job, clock);
      HistoryEvolves(h, 0, n);
      StepKeepsOutOfReach(h.dbs[n], h.steps[n].transaction, job, h.steps[n].clock, h.steps[n].clock);
      WaitingKeepsOutOfReach(h.dbs[k], job, h.steps[n].clock, h.steps[k].clock);
    }
  }

  /** Recovery leaves alone every row that holds its lease, however late its reading of the clock. */
  lemma ReconcileSparesLiveRows(db: Db, job: Job, now: Time, clock: Time)
    requires Passes(db, job, clock) && now <= clock
    ensures Passes(Reconcile(db, now).db, job, clock)
    ensures Reconcile(db, now).db.jobs[job.jobId] == db.jobs[job.jobId]
  {
  }

  /** A heartbeat changes something only while both leases hold at the moment it commits. */
  lemma HeartbeatNeverRevives(db: Db, owner: string, job: Job, now: Time, expires: Time, clock: Time)
    requires Apply(db, Beat(owner, job, now, expires), clock).db != db
    ensures job.jobId in db.jobs && After(db.jobs[job.jobId].leaseExpires, clock) && After(db.writer.expires, clock)
    ensures forall id :: id in db.jobs && id != job.jobId ==>
      id in Apply(db, Beat(owner, job, now, expires), clock).db.jobs
      && Apply(db, Beat(owner, job, now, expires), clock).db.jobs[id] == db.jobs[id]
  {
  }
}
