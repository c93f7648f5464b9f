/**
 Targeted jobs are not overtaken. A claim by name settles the order of its
 document's queue: no job that sorts before the target starts again, unless a
 retry names one or a submission is dated back behind the target.
 */
module Overtaking {
  import opened Wrappers
  import opened Metadata
  import opened Transactions
  import opened Fencing
  import MetadataStore

  ghost predicate Settled(db: Db, id: JobId) {
    id in db.jobs && (db.jobs[id].status == Succeeded || db.jobs[id].status == Failed)
  }

  lemma StepKeepsSettled(db: Db, t: Transaction, clock: Time, id: JobId)
    requires Keyed(db) && Settled(db, id)
    requires !(t.Retry? && t.id == id)
    ensures Settled(Apply(db, t, clock).db, id)
    ensures t.Claim? ==> Next(db, t.now, t.target) != Some(id)
  {
  }

  lemma {:induction false} SettledUntilRetried(h: History, i: nat, k: nat, id: JobId)
    requires Valid(h) && i <= k < |h.dbs|
    requires Settled(h.dbs[i], id)
    requires forall n :: i <= n < k ==> h.steps[n].transaction.Retry? ==> h.steps[n].transaction.id != id
    ensures Settled(h.dbs[k], id)
    decreases k
  {
    if i < k {
      SettledUntilRetried(h, i, k - 1, id);
      HistoryEvolves(h, 0, k - 1);
      StepKeepsSettled(h.dbs[k - 1], h.steps[k - 1].transaction, h.steps[k - 1].clock, id);
    }
  }

  /** A job of the same document that sorts before this one. */
  predicate Earlier(row: Job, job: Job) {
    row.documentId == job.documentId && Before(row, job)
  }

  ghost predicate EarlierSettled(db: Db, job: Job) {
    forall id :: id in db.jobs && Earlier(db.jobs[id], job) ==> Settled(db, id)
  }

  /** The transaction submits nothing that sorts before the job, and retries nothing that does. */
  predicate KeepsOrder(db: Db, t: Transaction, job: Job) {
    && (t.Submit? || t.Delete? ==> !Earlier(t.submission.(createdAt := t.now), job))
    && (t.Retry? && t.id in db.jobs ==> !Earlier(db.jobs[t.id], job))
  }

  /** What a caller can see to: its reading is newer than the job's, and it retries nothing that sorts before it. */
  predicate Newer(db: Db, t: Transaction, job: Job) {
    && (t.Submit? || t.Delete? ==> t.now > job.createdAt)
    && (t.Retry? && t.id in db.jobs ==> !Earlier(db.jobs[t.id], job))
  }

  lemma SubmitKeepsSettled(db: Db, t: Transaction, clock: Time, job: Job)
    requires Keyed(db) && EarlierSettled(db, job) && t.Submit? && t.submission.status == Queued
    ensures EarlierSettled(Apply(db, t, clock).db, job) <==>
      KeepsOrder(db, t, job) || Apply(db, t, clock).db.jobs == db.jobs
  {
    var db' := Apply(db, t, clock).db;
    if db'.jobs != db.jobs {
      assert db'.jobs[t.submission.jobId] == t.submission.(createdAt := t.now, updatedAt := t.now);
    }
  }

  lemma DeleteKeepsSettled(db: Db, t: Transaction, clock: Time, job: Job)
    requires Keyed(db) && EarlierSettled(db, job) && t.Delete? && t.submission.status == Queued
    ensures EarlierSettled(Apply(db, t, clock).db, job) <==>
      KeepsOrder(db, t, job) || Apply(db, t, clock).db.jobs == db.jobs
  {
    var db' := Apply(db, t, clock).db;
    if db'.jobs != db.jobs {
      assert db'.jobs[t.submission.jobId] == t.submission.(createdAt := t.now, updatedAt := t.now);
    }
  }

  lemma RetryKeepsSettled(db: Db, t: Transaction, clock: Time, job: Job)
    requires Keyed(db) && EarlierSettled(db, job) && t.Retry?
    ensures EarlierSettled(Apply(db, t, clock).db, job) <==>
      KeepsOrder(db, t, job) || Apply(db, t, clock).db.jobs == db.jobs
  {
  }

  lemma OtherStepKeepsSettled(db: Db, t: Transaction, clock: Time, job: Job)
    requires Keyed(db) && EarlierSettled(db, job) && !t.Submit? && !t.Delete? && !t.Retry?
    ensures EarlierSettled(Apply(db, t, clock).db, job)
  {
  }

  /** The hypothesis is exact for each transaction: whatever has an effect keeps the order or breaks the result. */
  lemma OrderIsKeptExactly(db: Db, t: Transaction, clock: Time, job: Job)
    requires Keyed(db) && EarlierSettled(db, job)
    requires t.Submit? || t.Delete? ==> t.submission.status == Queued
    ensures EarlierSettled(Apply(db, t, clock).db, job) <==>
      KeepsOrder(db, t, job) || Apply(db, t, clock).db.jobs == db.jobs
  {
    if t.Submit? {
      SubmitKeepsSettled(db, t, clock, job);
    } else if t.Delete? {
      DeleteKeepsSettled(db, t, clock, job);
    } else if t.Retry? {
      RetryKeepsSettled(db, t, clock, job);
    } else {
      OtherStepKeepsSettled(db, t, clock, job);
    }
  }

  lemma OrderedStepKeepsSettled(db: Db, t: Transaction, clock: Time, job: Job)
    requires Keyed(db) && EarlierSettled(db, job) && KeepsOrder(db, t, job)
    ensures EarlierSettled(Apply(db, t, clock).db, job)
  {
    if !t.Submit? && !t.Delete? && !t.Retry? {
      OtherStepKeepsSettled(db, t, clock, job);
    }
  }

  lemma ClaimSettlesEarlier(h: History, i: nat, job: Job)
    requires Valid(h) && i < |h.steps| && ClaimsAt(h, i, job) && h.steps[i].transaction.target == Some(job.jobId)
    ensures EarlierSettled(h.dbs[i + 1], job)
  {
    HistoryEvolves(h, 0, i);
    var t := h.steps[i].transaction;
    assert IsNext(h.dbs[i], t.now, t.target, job.jobId);
    assert !HasPredecessor(h.dbs[i], h.dbs[i].jobs[job.jobId]);
    assert EarlierSettled(h.dbs[i], job);
    OtherStepKeepsSettled(h.dbs[i], t, h.steps[i].clock, job);
  }

  lemma HistoryStepKeepsSettled(h: History, n: nat, job: Job)
    requires Valid(h) && n < |h.steps| && EarlierSettled(h.dbs[n], job)
    requires KeepsOrder(h.dbs[n], h.steps[n].transaction, job)
    ensures EarlierSettled(h.dbs[n + 1], job)
  {
    HistoryEvolves(h, 0, n);
    OrderedStepKeepsSettled(h.dbs[n], h.steps[n].transaction, h.steps[n].clock, job);
  }

  lemma {:induction false} EarlierStaySettled(h: History, i: nat, k: nat, job: Job)
    requires Valid(h) && i < k <= |h.steps| && EarlierSettled(h.dbs[i + 1], job)
    requires forall n :: i < n < k ==> KeepsOrder(h.dbs[n], h.steps[n].transaction, job)
    ensures EarlierSettled(h.dbs[k], job)
    decreases k
  {
    if k > i + 1 {
      EarlierStaySettled(h, i, k - 1, job);
      HistoryStepKeepsSettled(h, k - 1, job);
    }
  }

  /**
   Targeted jobs never overtake and are never overtaken. Once step i has claimed
   `job` by name, and as long as nothing that sorts before it is submitted or
   retried, every job of its document that sorts before it is settled: none is
   ever claimed again, by name or in turn.
   */
  lemma TargetedJobsNeverOvertake(h: History, i: nat, k: nat, job: Job)
    requires Valid(h) && i < k < |h.steps|
    requires ClaimsAt(h, i, job) && h.steps[i].transaction.target == Some(job.jobId)
    requires forall n :: i < n < k ==> KeepsOrder(h.dbs[n], h.steps[n].transaction, job)
    ensures EarlierSettled(h.dbs[k], job)
    ensures forall later: Job :: ClaimsAt(h, k, later) ==> !Earlier(later, job)
  {
    ClaimSettlesEarlier(h, i, job);
    EarlierStaySettled(h, i, k, job);
    HistoryEvolves(h, 0, k);
    forall later: Job | ClaimsAt(h, k, later) ensures !Earlier(later, job) {
      var now, target := h.steps[k].transaction.now, h.steps[k].transaction.target;
      assert IsNext(h.dbs[k], now, target, later.jobId);
    }
  }

  /** So it is when every later reading is newer than the target and nothing earlier is retried. */
  lemma NewerSubmissionsNeverOvertake(h: History, i: nat, k: nat, job: Job)
    requires Valid(h) && i < k < |h.steps|
    requires ClaimsAt(h, i, job) && h.steps[i].transaction.target == Some(job.jobId)
    requires forall n :: i < n < k ==> Newer(h.dbs[n], h.steps[n].transaction, job)
    ensures forall later: Job :: ClaimsAt(h, k, later) ==> !Earlier(later, job)
  {
    forall n | i < n < k ensures KeepsOrder(h.dbs[n], h.steps[n].transaction, job) {
      assert Newer(h.dbs[n], h.steps[n].transaction, job);
    }
    TargetedJobsNeverOvertake(h, i, k, job);
  }

  /**
   For a job that was already in the table when the target was claimed, later
   submissions do not matter: only a retry that names it starts it again.
   */
  lemma JobsBeforeATargetStaySettled(h: History, i: nat, k: nat, job: Job, earlier: JobId)
    requires Valid(h) && i < k < |h.steps|
    requires ClaimsAt(h, i, job) && h.steps[i].transaction.target == Some(job.jobId)
    requires earlier in h.dbs[i].jobs && Earlier(h.dbs[i].jobs[earlier], job)
    requires forall n :: i < n < k ==> h.steps[n].transaction.Retry? ==> h.steps[n].transaction.id != earlier
    ensures Settled(h.dbs[k], earlier)
    ensures forall later: Job :: ClaimsAt(h, k, later) ==> later.jobId != earlier
  {
    ClaimSettlesEarlier(h, i, job);
    HistoryEvolves(h, i, i + 1);
    SettledUntilRetried(h, i + 1, k, earlier);
    HistoryEvolves(h, 0, k);
    forall later: Job | ClaimsAt(h, k, later) ensures later.jobId != earlier {
      var now, target := h.steps[k].transaction.now, h.steps[k].transaction.target;
      assert IsNext(h.dbs[k], now, target, later.jobId);
    }
  }

  /**
   Jobs are served in the order of their creation: whatever job was queued and
   available when step i claimed `first` in turn, and is claimed later, was
   created after it, or at the same reading with a greater identifier.
   */
  lemma FirstComeFirstServed(h: History, i: nat, k: nat, first: Job, second: Job)
    requires Valid(h) && i < k < |h.steps| && ClaimsAt(h, i, first) && ClaimsAt(h, k, second)
    requires h.steps[i].transaction.target.None?
    requires second.jobId in h.dbs[i].jobs && h.dbs[i].jobs[second.jobId].status == Queued
    requires h.dbs[i].jobs[second.jobId].availableAt <= h.steps[i].transaction.now
    ensures first.createdAt <= second.createdAt
    ensures first.createdAt == second.createdAt ==> first.jobId <= second.jobId
  {
    HistoryEvolves(h, i, i + 1);
    HistoryEvolves(h, i, k + 1);
    MetadataStore.NextFinds(h.dbs[i], h.steps[i].transaction.now, None);
  }

  // ----- One earlier job -----

  /** The transaction does not submit this one job before the target, and does not retry it. */
  predicate LeavesJob(t: Transaction, id: JobId, job: Job) {
    && ((t.Submit? || t.Delete?) && t.submission.jobId == id ==> !Earlier(t.submission.(createdAt := t.now), job))
    && (t.Retry? ==> t.id != id)
  }

  ghost predicate SettledIfEarlier(db: Db, id: JobId, job: Job) {
    id in db.jobs && Earlier(db.jobs[id], job) ==> Settled(db, id)
  }

  lemma StepLeavesJob(db: Db, t: Transaction, clock: Time, id: JobId, job: Job)
    requires Keyed(db) && SettledIfEarlier(db, id, job) && LeavesJob(t, id, job)
    ensures SettledIfEarlier(Apply(db, t, clock).db, id, job)
  {
    if id in db.jobs && Settled(db, id) {
      StepKeepsSettled(db, t, clock, id);
    }
  }

  lemma {:induction false} JobIsLeft(h: History, i: nat, k: nat, id: JobId, job: Job)
    requires Valid(h) && i < k <= |h.steps| && SettledIfEarlier(h.dbs[i + 1], id, job)
    requires forall n :: i < n < k ==> LeavesJob(h.steps[n].transaction, id, job)
    ensures SettledIfEarlier(h.dbs[k], id, job)
    decreases k
  {
    if k > i + 1 {
      JobIsLeft(h, i, k - 1, id, job);
      HistoryEvolves(h, 0, k - 1);
      StepLeavesJob(h.dbs[k - 1], h.steps[k - 1].transaction, h.steps[k - 1].clock, id, job);
    }
  }

  /**
   So the newer version stays: no snapshot of a job that sorts before the target
   passes the lease check after the claim, and no write that carries one changes
   anything, publication of an older version included, until that very job is
   retried or first submitted with a reading before the target's.
   */
  lemma OlderVersionsAreNotRepublished(h: History, i: nat, k: nat, job: Job, older: Job, t: Transaction)
    requires Valid(h) && i < k < |h.steps|
    requires ClaimsAt(h, i, job) && h.steps[i].transaction.target == Some(job.jobId)
    requires forall n :: i < n < k ==> LeavesJob(h.steps[n].transaction, older.jobId, job)
    requires older.jobId in h.dbs[k].jobs && Earlier(h.dbs[k].jobs[older.jobId], job)
    ensures forall clock :: !Passes(h.dbs[k], older, clock)
    ensures GuardedBy(t, older) ==> Apply(h.dbs[k], t, h.steps[k].clock).db == h.dbs[k]
  {
    ClaimSettlesEarlier(h, i, job);
    JobIsLeft(h, i, k, older.jobId, job);
    assert Settled(h.dbs[k], older.jobId);
    assert !Passes(h.dbs[k], older, h.steps[k].clock);
  }

  // ----- A history in which a submission is dated back -----

  function Import(id: JobId, key: string, createdAt: Time): Job {
    Job(id, key, ImportTxt, "d", "v", "{}", Queued, 0, 0, None, None, None, 0, None, createdAt, createdAt)
  }

  function Bench(jobs: map<JobId, Job>): Db {
    Db(map[], map[], map[], jobs, Writer(Some("w"), Some(20)))
  }

  function Target(): Job { Import(1, "a", 10) }

  function Back(): Job { Import(2, "b", 5) }

  function Start(): Db { Bench(map[1 := Target()]) }

  function TargetClaimed(): Db { Bench(map[1 := Claimed(Target(), "w", 10, 20)]) }

  function BackSubmitted(): Db { Bench(map[1 := Claimed(Target(), "w", 10, 20), 2 := Back()]) }

  function BackClaimed(): Db {
    Bench(map[1 := Claimed(Target(), "w", 10, 20), 2 := Claimed(Back(), "w", 10, 20)])
  }

  lemma OnlyNext(db: Db, now: Time, target: Option<JobId>, id: JobId)
    requires Keyed(db) && IsNext(db, now, target, id)
    ensures Next(db, now, target) == Some(id)
  {
    MetadataStore.NextFinds(db, now, target);
  }

  lemma TargetIsClaimed()
    ensures Keyed(Start()) && Next(Start(), 10, Some(1)) == Some(1)
    ensures ClaimNextJob(Start(), "w", 10, 20, Some(1)).db == TargetClaimed()
  {
    assert IsNext(Start(), 10, Some(1), 1);
    OnlyNext(Start(), 10, Some(1), 1);
    assert TargetClaimed().jobs == Start().jobs[1 := Claimed(Target(), "w", 10, 20)];
  }

  lemma BackIsSubmitted()
    ensures PutJob(TargetClaimed(), Back(), None, 5).db == BackSubmitted()
  {
    assert BackSubmitted().jobs == TargetClaimed().jobs[2 := Back()];
  }

  lemma BackIsClaimed()
    ensures Next(BackSubmitted(), 10, None) == Some(2)
    ensures ClaimNextJob(BackSubmitted(), "w", 10, 20, None).db == BackClaimed()
  {
    assert IsNext(BackSubmitted(), 10, None, 2);
    OnlyNext(BackSubmitted(), 10, None, 2);
    assert BackClaimed().jobs == BackSubmitted().jobs[2 := Claimed(Back(), "w", 10, 20)];
  }

  /**
   Without the hypothesis the order is lost. A job dated 10 is claimed by name;
   then an import is submitted with a reading of 5 and claimed in turn.
   */
  lemma BackdatedSubmissionOvertakes() returns (h: History)
    ensures |h.steps| == 3 && Valid(h)
    ensures ClaimsAt(h, 0, Claimed(Target(), "w", 10, 20)) && h.steps[0].transaction.target == Some(1)
    ensures ClaimsAt(h, 2, Claimed(Back(), "w", 10, 20))
    ensures Earlier(Claimed(Back(), "w", 10, 20), Claimed(Target(), "w", 10, 20))
  {
    TargetIsClaimed();
    BackIsSubmitted();
    BackIsClaimed();
    h := History(
      [Start(), TargetClaimed(), BackSubmitted(), BackClaimed()],
      [Step(Claim("w", 10, 20, Some(1)), 10), Step(Submit(Back(), None, 5), 10), Step(Claim("w", 10, 20, None), 10)]);
    assert Apply(h.dbs[0], h.steps[0].transaction, 10).db == h.dbs[1];
    assert Apply(h.dbs[1], h.steps[1].transaction, 10).db == h.dbs[2];
    assert Apply(h.dbs[2], h.steps[2].transaction, 10).db == h.dbs[3];
  }
}
