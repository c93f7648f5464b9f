/**
 The durable job executor: one pass of the worker and the targeted run of one
 job, with the other participants running between every two of its calls.
 */
module Executor {
  import opened Wrappers
  import opened Metadata
  import opened Transactions
  import opened Fencing
  import opened Interference
  import Store = MetadataStore

  /** How the handler call ends: it returns, raises a typed failure, or raises anything else. */
  datatype Ending = Returned | Typed(code: string) | Untyped

  /** A heartbeat of the thread beside the handler: the call is answered, or raises before it has an effect. */
  datatype Beating = Answered | Raises

  /** The handler's run: what the heartbeat thread does meanwhile, beat by beat, and how the call ends. */
  datatype Work = Work(beats: seq<Beating>, ending: Ending)

  datatype Failure =
    | LockHeld
    | WriterHeld
    | LeaseActive
    | LeaseLost
    | HandlerFailed(code: string)
    | JobNotFound
    | JobNotReady
    | JobExecution

  const INTERNAL_ERROR := "internal_error"
  const JOB_LEASE_ERROR := "job_lease_error"

  /** The moment of the completion call of a pass: its claimed job and the database on both sides. */
  datatype Completion = Completion(job: Job, before: Db, after: Db, clock: Time, succeeded: bool, code: Option<string>)

  /**
   Every claimed attempt is accounted for. While its fence held at completion,
   its row became succeeded, or failed with the code, and it is out for ever.
   Otherwise the completion changed nothing: the attempt is out for ever if its
   row's lease has run out, and suspended if only the writer lease was lost.
   */
  ghost predicate Accounted(c: Completion) {
    && c.job.jobId in c.before.jobs && c.job.jobId in c.after.jobs
    && SameInput(c.job, c.after.jobs[c.job.jobId])
    && (Passes(c.before, c.job, c.clock) ==>
          && c.after == c.before.(jobs := c.before.jobs[c.job.jobId := c.after.jobs[c.job.jobId]])
          && Retired(c.after, c.job, c.clock)
          && var row := c.after.jobs[c.job.jobId];
          && row.attemptCount == c.job.attemptCount && row.leaseOwner.None? && row.leaseExpires.None?
          && row.errorCode == c.code
          && (if c.succeeded then row.status == Succeeded && row.progress == 100
              else row.status == Failed && c.code.Some?))
    && (!Passes(c.before, c.job, c.clock) ==>
          && c.after == c.before
          && if After(c.after.jobs[c.job.jobId].leaseExpires, c.clock)
             then Suspended(c.after, c.job, c.clock)
             else Retired(c.after, c.job, c.clock))
  }

  /** Exactly the claimed job, if any, starts one more attempt. */
  ghost predicate ClaimsOnly(db: Db, db': Db, claimed: Option<JobId>) {
    forall id :: id in db.jobs ==>
      && id in db'.jobs
      && db'.jobs[id].attemptCount == db.jobs[id].attemptCount + (if claimed == Some(id) then 1 else 0)
  }

  /**
   What accounting means for everything that happens later: in any history that
   goes on from the completion the attempt passes the lease check again only if
   its completion was refused, and its owner took the writer lease once more
   before the row's lease ended. Until then its guarded writes change nothing.
   */
  lemma AccountedAttemptStaysOut(c: Completion, h: History, i: nat, k: nat, t: Transaction)
    requires Accounted(c) && Valid(h) && i <= k < |h.steps| && h.dbs[i] == c.after && c.clock <= h.steps[i].clock
    requires Passes(c.before, c.job, c.clock) || !After(c.after.jobs[c.job.jobId].leaseExpires, c.clock)
             || forall n :: i <= n < k ==> !Reacquires(h.dbs[n], h.steps[n].transaction, c.job, h.steps[n].clock)
    ensures !Passes(h.dbs[k], c.job, h.steps[k].clock)
    ensures GuardedBy(t, c.job) ==> Apply(h.dbs[k], t, h.steps[k].clock).db == h.dbs[k]
  {
    if Retired(c.after, c.job, c.clock) {
      RetiredForEver(h, i, k, c.job, c.clock);
    } else {
      OutOfReachUntilReacquired(h, i, k, c.job, c.clock);
    }
  }

  /** What the result of a pass says about the completion behind it. */
  ghost predicate Reports(result: Result<Option<Job>, Failure>, completion: Option<Completion>, work: Work) {
    match result
    case Ok(None) => completion.None?
    case Ok(Some(job)) =>
      && completion.Some? && completion.value.succeeded && job.jobId == completion.value.job.jobId
      && Passes(completion.value.before, completion.value.job, completion.value.clock)
    case Err(HandlerFailed(code)) =>
      && completion.Some? && completion.value.code == Some(code) && !completion.value.succeeded
      && code == (if work.ending.Typed? then work.ending.code else "internal_error") && !work.ending.Returned?
    case Err(LeaseLost) =>
      && completion.Some? && work.ending.Returned?
      && (if completion.value.succeeded
          then !Passes(completion.value.before, completion.value.job, completion.value.clock)
          else completion.value.code == Some("job_lease_error"))
    case Err(WriterHeld) => completion.None?
    case Err(_) => false
  }

  // ----- What a pass owes the queue, on the columns of its rows -----

  /** The database and the clock reading at one call of a pass. */
  datatype Moment = Moment(db: Db, at: Time)

  /** Every job of the row's document that was created before it, identifiers breaking ties, has ended. */
  predicate EarlierEnded(jobs: map<JobId, Job>, id: JobId)
    requires id in jobs
  {
    forall x | x in jobs && jobs[x].documentId == jobs[id].documentId ::
      || jobs[x].createdAt > jobs[id].createdAt || (jobs[x].createdAt == jobs[id].createdAt && x >= id)
      || jobs[x].status == Succeeded || jobs[x].status == Failed
  }

  /** The rows leave a pass nothing to do: none is queued and due, or the target is not, or must wait for another. */
  predicate Idle(jobs: map<JobId, Job>, at: Time, target: Option<JobId>) {
    match target
    case None => forall x | x in jobs :: jobs[x].status != Queued || jobs[x].availableAt > at
    case Some(id) =>
      id !in jobs || jobs[id].status != Queued || jobs[id].availableAt > at || !EarlierEnded(jobs, id)
  }

  /** The attempt was started from a queued, due row: the target's, or the one that was created first. */
  predicate Took(jobs: map<JobId, Job>, at: Time, target: Option<JobId>, job: Job) {
    && job.jobId in jobs && jobs[job.jobId].status == Queued && jobs[job.jobId].availableAt <= at
    && job.attemptCount == jobs[job.jobId].attemptCount + 1 && SameInput(job, jobs[job.jobId])
    && match target
       case None =>
         forall x | x in jobs && jobs[x].status == Queued && jobs[x].availableAt <= at ::
           job.createdAt < jobs[x].createdAt || (job.createdAt == jobs[x].createdAt && job.jobId <= x)
       case Some(id) => job.jobId == id && EarlierEnded(jobs, id)
  }

  /** The targeted run can run the job now: it is due, or failed, or its lease has ended, and nothing goes before it. */
  predicate Runnable(jobs: map<JobId, Job>, id: JobId, at: Time) {
    && id in jobs && EarlierEnded(jobs, id)
    && (jobs[id].status == Failed
        || (jobs[id].status == Queued && jobs[id].availableAt <= at)
        || (jobs[id].status == Running && jobs[id].availableAt <= at
            && jobs[id].leaseExpires.Some? && jobs[id].leaseExpires.value < at))
  }

  /** A runnable job is due once recovery and the retry have seen to it. */
  lemma ReadiedIsNotIdle(
    before: map<JobId, Job>, recovered: map<JobId, Job>, after: map<JobId, Job>, id: JobId, at: Time, later: Time)
    requires Runnable(before, id, at) && at <= later && recovered.Keys == before.Keys == after.Keys
    requires forall x :: x in recovered ==> recovered[x] == Requeued(before[x], at)
    requires forall x :: x in after && x != id ==> after[x] == recovered[x]
    requires SameInput(after[id], before[id])
    requires if recovered[id].status == Failed then after[id].status == Queued && after[id].availableAt <= later
             else after[id] == recovered[id]
    ensures !Idle(after, later, Some(id))
  {
    assert EarlierEnded(after, id);
  }

  /** The job is in the table as it is, and has succeeded. */
  predicate Completed(jobs: map<JobId, Job>, job: Job) {
    job.jobId in jobs && jobs[job.jobId] == job && job.status == Succeeded
  }

  /** No row but this one differs. */
  predicate OnlyRow(a: map<JobId, Job>, b: map<JobId, Job>, id: JobId) {
    a.Keys == b.Keys && forall x | x in a && x != id :: b[x] == a[x]
  }

  lemma OnlyRowMeans(a: map<JobId, Job>, b: map<JobId, Job>, id: JobId)
    requires a.Keys == b.Keys && b - {id} == a - {id}
    ensures OnlyRow(a, b, id)
  {
    forall x | x in a && x != id ensures b[x] == a[x] {
      assert x in b - {id};
    }
  }

  /** Nobody else holds the writer lease. */
  predicate Free(writer: Writer, owner: string, at: Time) {
    || writer.owner.None? || writer.owner == Some(owner)
    || (writer.expires.Some? && writer.expires.value < at)
  }

  /** The rows that recovery changes are those whose lease had ended. */
  lemma RequeuedAreInterrupted(before: map<JobId, Job>, after: map<JobId, Job>, now: Time)
    requires after.Keys == before.Keys
    requires forall id :: id in after ==> after[id] == Requeued(before[id], now)
    ensures (set id | id in after && after[id] != before[id]) == set id | id in before && Interrupted(before[id], now)
  {
    forall id | id in after ensures after[id] != before[id] <==> Interrupted(before[id], now) {
      assert Interrupted(before[id], now) ==> after[id].status == Queued && before[id].status == Running;
    }
  }

  class DurableJobExecutor {
    const owner: string
    const leaseSeconds: nat

    constructor (owner: string, leaseSeconds: nat)
      ensures this.owner == owner && this.leaseSeconds == leaseSeconds
    {
      this.owner, this.leaseSeconds := owner, leaseSeconds;
    }

    /** Completes the attempt unless its fence has fallen; reports whether the fence held. */
    method Finish(store: Store.MetadataStore, job: Job, succeeded: bool, errorCode: Option<string>, clock: Time)
      returns (held: bool)
      requires Keyed(store.State()) && job.leaseOwner == Some(owner)
      modifies store
      ensures store.State() ==
        Metadata.FinishJob(old(store.State()), job.jobId, owner, succeeded, errorCode, Some(job), clock).db
      ensures held <==> Passes(old(store.State()), job, clock)
      ensures OnlyRow(old(store.jobs), store.jobs, job.jobId)
    {
      ghost var before := store.jobs;
      var error := store.FinishJob(job.jobId, owner, succeeded, errorCode, Some(job), clock);
      OnlyRowMeans(before, store.jobs, job.jobId);
      held := error.None?;
    }

    /** A lease is long enough for the few calls between two heartbeats, however long the handler runs. */
    ghost predicate Ample(env: Environment) {
      leaseSeconds > 6 * env.pace
    }

    /** The two readings that a lease takes: the present, and the present again plus its length. */
    method Readings(store: Store.MetadataStore, env: Environment) returns (now: Time, expires: Time)
      requires Keyed(store.State())
      modifies store, env
      ensures Rely(old(store.State()), store.State()) && env.clock >= old(env.clock)
      ensures now == old(env.clock) && now + leaseSeconds <= expires <= env.clock + leaseSeconds
      ensures old(env.Peaceful()) ==>
        && env.Peaceful() && store.State() == old(store.State())
        && env.clock <= old(env.clock) + 2 * env.pace && expires >= env.clock + leaseSeconds - env.pace
    {
      now := env.Read(store);
      ghost var between := store.State();
      var later := env.Read(store);
      expires := later + leaseSeconds;
      RelyComposes(old(store.State()), between, store.State());
    }

    /** One heartbeat: reports whether the lease was lost. */
    method BeatOnce(store: Store.MetadataStore, env: Environment, job: Job) returns (lost: bool)
      requires Keyed(store.State()) && job.leaseOwner == Some(owner)
      modifies store, env
      ensures Rely(old(store.State()), store.State()) && env.clock >= old(env.clock)
      ensures old(env.Peaceful()) ==> env.Peaceful() && env.clock <= old(env.clock) + 2 * env.pace
      ensures old(env.Peaceful()) ==> OnlyRow(old(store.jobs), store.jobs, job.jobId)
      ensures old(env.Peaceful()) && old(Passes(store.State(), job, env.clock + 2 * env.pace)) ==>
        !lost && Passes(store.State(), job, env.clock + leaseSeconds - env.pace - 1)
    {
      var now, expires := Readings(store, env);
      ghost var before := store.State();
      var alive := store.Heartbeat(job.jobId, owner, now, expires, Some(job), env.clock);
      OnlyRowMeans(before.jobs, store.jobs, job.jobId);
      QueuedStepRelied(before, Beat(owner, job, now, expires), env.clock);
      RelyComposes(old(store.State()), before, store.State());
      lost := !alive;
    }

    /** Runs the handler while the heartbeat thread extends both leases until it is refused or its call raises. */
    method Handle(store: Store.MetadataStore, env: Environment, job: Job, work: Work) returns (leaseLost: bool)
      requires Keyed(store.State()) && job.leaseOwner == Some(owner)
      modifies store, env
      ensures Rely(old(store.State()), store.State()) && env.clock >= old(env.clock)
      ensures Raises in work.beats ==> leaseLost
      ensures old(env.Peaceful()) ==> env.Peaceful() && OnlyRow(old(store.jobs), store.jobs, job.jobId)
      ensures old(env.Peaceful()) && old(Passes(store.State(), job, env.clock + 3 * env.pace)) && Ample(env)
              && Raises !in work.beats ==>
        !leaseLost && Passes(store.State(), job, env.clock) && env.Peaceful()
    {
      leaseLost := false;
      ghost var undisturbed := env.Peaceful() && Passes(store.State(), job, env.clock + 3 * env.pace) && Ample(env)
        && Raises !in work.beats;
      env.Others(store);
      for i := 0 to |work.beats|
        invariant Rely(old(store.State()), store.State()) && env.clock >= old(env.clock)
        invariant Raises in work.beats[..i] ==> leaseLost
        invariant old(env.Peaceful()) ==> env.Peaceful() && OnlyRow(old(store.jobs), store.jobs, job.jobId)
        invariant undisturbed ==>
          !leaseLost && Passes(store.State(), job, env.clock + 2 * env.pace) && env.Peaceful()
      {
        if !leaseLost && work.beats[i] == Raises {
          leaseLost := true;
        } else if !leaseLost {
          leaseLost := BeatOnce(store, env, job);
        }
        env.Others(store);
      }
    }

    /** The claim itself, with the lease it takes. */
    method ClaimAt(store: Store.MetadataStore, target: Option<JobId>, now: Time, expires: Time)
      returns (claimed: Option<Job>)
      requires Keyed(store.State())
      modifies store
      ensures Keyed(store.State()) && JobsEvolve(old(store.State()), store.State()) && store.writer == old(store.writer)
      ensures ClaimsOnly(old(store.State()), store.State(), if claimed.Some? then Some(claimed.value.jobId) else None)
      ensures claimed.None? ==> Idle(old(store.jobs), now, target) && store.State() == old(store.State())
      ensures claimed.Some? ==> OnlyRow(old(store.jobs), store.jobs, claimed.value.jobId)
      ensures claimed.Some? ==>
        && claimed.value.leaseOwner == Some(owner) && claimed.value.status == Running
        && claimed.value.leaseExpires == Some(expires)
        && claimed.value.jobId in store.jobs && store.jobs[claimed.value.jobId] == claimed.value
        && Took(old(store.jobs), now, target, claimed.value)
    {
      ghost var before := store.State();
      claimed := store.ClaimNextJob(owner, now, expires, target);
      QueueStepEvolves(before, Claim(owner, now, expires, target), now);
    }

    /** Claims the next job, or the target if no earlier job of its document stands in the way. */
    method ClaimJob(store: Store.MetadataStore, env: Environment, target: Option<JobId>)
      returns (claimed: Option<Job>, ghost moment: Moment)
      requires Keyed(store.State())
      modifies store, env
      ensures Keyed(store.State()) && JobsEvolve(old(store.State()), store.State())
      ensures ClaimsOnly(old(store.State()), store.State(), if claimed.Some? then Some(claimed.value.jobId) else None)
      ensures claimed.Some? ==>
        && claimed.value.leaseOwner == Some(owner) && claimed.value.status == Running
        && claimed.value.jobId in store.jobs && store.jobs[claimed.value.jobId] == claimed.value
        && claimed.value.leaseExpires.Some? && claimed.value.leaseExpires.value <= env.clock + leaseSeconds
        && Took(moment.db.jobs, moment.at, target, claimed.value)
      ensures claimed.None? ==> Idle(moment.db.jobs, moment.at, target) && store.State() == moment.db
      ensures Rely(old(store.State()), moment.db) && moment.at == old(env.clock) <= env.clock
      ensures store.writer.owner == old(store.writer).owner
      ensures old(env.Peaceful()) ==>
        && env.Peaceful() && env.clock <= old(env.clock) + 2 * env.pace && moment.db == old(store.State())
        && store.writer == old(store.writer)
        && (claimed.Some? ==> OnlyRow(old(store.jobs), store.jobs, claimed.value.jobId))
        && (claimed.Some? ==> claimed.value.leaseExpires.value >= env.clock + leaseSeconds - env.pace)
    {
      var now, expires := Readings(store, env);
      moment := Moment(store.State(), now);
      claimed := ClaimAt(store, target, now, expires);
    }

    /** Takes the writer lease unless somebody else holds it. */
    method Acquire(store: Store.MetadataStore, env: Environment) returns (acquired: bool, ghost moment: Moment)
      requires Keyed(store.State())
      modifies store, env
      ensures Rely(old(store.State()), moment.db) && moment.at == old(env.clock) <= env.clock
      ensures store.State() == moment.db.(writer := store.writer)
      ensures acquired <==> Free(moment.db.writer, owner, moment.at)
      ensures acquired <==> store.writer.owner == Some(owner)
      ensures acquired ==> store.writer.expires.Some?
      ensures old(env.Peaceful()) ==>
        && env.Peaceful() && env.clock <= old(env.clock) + 2 * env.pace && moment.db == old(store.State())
        && (acquired ==> store.writer.expires.value >= env.clock + leaseSeconds - env.pace)
    {
      var now, expires := Readings(store, env);
      moment := Moment(store.State(), now);
      acquired := store.AcquireWriter(owner, now, expires);
    }

    /** Acquires the writer lease and, holding it, claims a job. */
    method TakeJob(store: Store.MetadataStore, env: Environment, target: Option<JobId>)
      returns (acquired: bool, claimed: Option<Job>, ghost moment: Moment)
      requires Keyed(store.State())
      modifies store, env
      ensures Keyed(store.State()) && JobsEvolve(old(store.State()), store.State())
      ensures ClaimsOnly(old(store.State()), store.State(), if claimed.Some? then Some(claimed.value.jobId) else None)
      ensures JobsEvolve(old(store.State()), moment.db) && old(env.clock) <= moment.at <= env.clock
      ensures !acquired ==> store.writer.owner != Some(owner) && claimed.None?
      ensures acquired ==> store.writer.owner == Some(owner)
      ensures !acquired ==> !Free(moment.db.writer, owner, moment.at)
      ensures acquired && claimed.None? ==> Idle(moment.db.jobs, moment.at, target)
      ensures claimed.Some? ==>
        && claimed.value.leaseOwner == Some(owner) && claimed.value.status == Running
        && claimed.value.jobId in store.jobs && store.jobs[claimed.value.jobId] == claimed.value
        && Took(moment.db.jobs, moment.at, target, claimed.value)
      ensures old(env.Peaceful()) ==>
        && env.Peaceful() && env.clock <= old(env.clock) + 4 * env.pace && moment.db.jobs == old(store.jobs)
        && (acquired <==> Free(old(store.writer), owner, old(env.clock)))
        && (if claimed.Some? then OnlyRow(old(store.jobs), store.jobs, claimed.value.jobId)
            else store.jobs == old(store.jobs))
        && (claimed.Some? ==> Passes(store.State(), claimed.value, env.clock + leaseSeconds - 3 * env.pace - 1))
    {
      acquired, moment := Acquire(store, env);
      claimed := None;
      if acquired {
        claimed, moment := ClaimJob(store, env, target);
      }
    }

    /** From the claim to the completion call, which is the last write that carries the snapshot. */
    method Attempt(store: Store.MetadataStore, env: Environment, job: Job, work: Work)
      returns (held: bool, leaseLost: bool, ghost completion: Completion)
      requires Keyed(store.State()) && job.leaseOwner == Some(owner)
      requires job.jobId in store.jobs && store.jobs[job.jobId] == job && job.status == Running
      modifies store, env
      ensures Keyed(store.State()) && JobsEvolve(old(store.State()), store.State())
      ensures ClaimsOnly(old(store.State()), store.State(), None)
      ensures store.State() == completion.after && completion.job == job && Accounted(completion)
      ensures held <==> Passes(completion.before, job, completion.clock)
      ensures completion.succeeded <==> work.ending.Returned? && !leaseLost
      ensures Raises in work.beats ==> leaseLost
      ensures store.writer.owner == old(store.writer).owner
      ensures env.clock >= old(env.clock)
      ensures old(env.Peaceful()) ==> env.Peaceful() && OnlyRow(old(store.jobs), store.jobs, job.jobId)
      ensures completion.code == match work.ending
        case Returned => if leaseLost then Some("job_lease_error") else None
        case Typed(code) => Some(code)
        case Untyped => Some("internal_error")
      ensures old(env.Peaceful()) && old(Passes(store.State(), job, env.clock + 3 * env.pace)) && Ample(env)
              && work.ending.Returned? && Raises !in work.beats ==>
        held && completion.succeeded && env.Peaceful()
    {
      leaseLost := Handle(store, env, job, work);
      var succeeded := work.ending.Returned? && !leaseLost;
      var code := match work.ending
        case Returned => if leaseLost then Some(JOB_LEASE_ERROR) else None
        case Typed(typed) => Some(typed)
        case Untyped => Some(INTERNAL_ERROR);
      ghost var before := store.State();
      var clock := env.clock;
      held := Finish(store, job, succeeded, code, clock);
      completion := Completion(job, before, store.State(), clock, succeeded, code);
      LeaseStepEvolves(before, Transactions.Finish(owner, job, succeeded, code), clock);
    }

    /** Runs a claimed job up to the result that its pass reports. */
    method RunClaimed(store: Store.MetadataStore, env: Environment, job: Job, work: Work)
      returns (result: Result<Option<Job>, Failure>, ghost completion: Completion)
      requires Keyed(store.State()) && job.leaseOwner == Some(owner)
      requires job.jobId in store.jobs && store.jobs[job.jobId] == job && job.status == Running
      modifies store, env
      ensures Keyed(store.State()) && JobsEvolve(old(store.State()), store.State())
      ensures ClaimsOnly(old(store.State()), store.State(), None)
      ensures completion.job == job && Accounted(completion) && JobsEvolve(completion.after, store.State())
      ensures completion.succeeded ==> work.ending.Returned? && Raises !in work.beats
      ensures Reports(result, Some(completion), work)
      ensures store.writer.owner == old(store.writer).owner
      ensures env.clock >= old(env.clock)
      ensures old(env.Peaceful()) ==> env.Peaceful() && OnlyRow(old(store.jobs), store.jobs, job.jobId)
      ensures completion.succeeded && Passes(completion.before, job, completion.clock) ==>
        job.jobId in store.jobs && result == Ok(Some(store.jobs[job.jobId]))
      ensures old(env.Peaceful()) && old(Passes(store.State(), job, env.clock + 3 * env.pace)) && Ample(env)
              && work.ending.Returned? && Raises !in work.beats ==>
        result.Ok? && result.value.Some? && Completed(store.jobs, result.value.value)
    {
      var held, leaseLost;
      held, leaseLost, completion := Attempt(store, env, job, work);
      env.Others(store);
      if !work.ending.Returned? {
        result := Err(HandlerFailed(if work.ending.Typed? then work.ending.code else INTERNAL_ERROR));
      } else if leaseLost || !held {
        result := Err(LeaseLost);
      } else {
        result := Ok(Some(store.jobs[job.jobId]));
      }
    }

    /** Runs what was claimed, if anything was. */
    method RunTaken(store: Store.MetadataStore, env: Environment, claimed: Option<Job>, work: Work)
      returns (result: Result<Option<Job>, Failure>, ghost completion: Option<Completion>)
      requires Keyed(store.State())
      requires claimed.Some? ==>
        && claimed.value.leaseOwner == Some(owner) && claimed.value.status == Running
        && claimed.value.jobId in store.jobs && store.jobs[claimed.value.jobId] == claimed.value
      modifies store, env
      ensures Keyed(store.State()) && JobsEvolve(old(store.State()), store.State())
      ensures ClaimsOnly(old(store.State()), store.State(), None) && store.writer.owner == old(store.writer).owner
      ensures completion.Some? <==> claimed.Some?
      ensures env.clock >= old(env.clock)
      ensures claimed.None? ==> result == Ok(None) && store.State() == old(store.State()) && env.clock == old(env.clock)
      ensures completion.Some? ==>
        && completion.value.job == claimed.value && Accounted(completion.value)
        && JobsEvolve(completion.value.after, store.State())
        && (completion.value.succeeded ==> work.ending.Returned? && Raises !in work.beats)
      ensures Reports(result, completion, work) && result != Err(WriterHeld) && (claimed.Some? ==> result != Ok(None))
      ensures old(env.Peaceful()) ==>
        env.Peaceful() && (claimed.Some? ==> OnlyRow(old(store.jobs), store.jobs, claimed.value.jobId))
      ensures claimed.Some? && old(env.Peaceful()) && Ample(env)
              && old(Passes(store.State(), claimed.value, env.clock + 3 * env.pace))
              && work.ending.Returned? && Raises !in work.beats ==>
        result.Ok? && result.value.Some? && Completed(store.jobs, result.value.value)
    {
      if claimed.None? {
        return Ok(None), None;
      }
      ghost var done;
      result, done := RunClaimed(store, env, claimed.value, work);
      completion := Some(done);
    }

    /**
     One pass with the kernel lock held. On every way out the executor no longer
     owns the writer lease. A claimed attempt is accounted for: it succeeded
     only if the handler returned, no heartbeat was refused or raised and the fence
     held at completion. A targeted pass claims nothing but its target. A pass that
     takes the writer lease comes back without a job only if the queue had none for
     it; and left to itself, with a job to do and a handler that returns, it ends
     with that job succeeded.
     */
    method RunOnceLocked(store: Store.MetadataStore, env: Environment, target: Option<JobId>, work: Work)
      returns (result: Result<Option<Job>, Failure>, ghost completion: Option<Completion>, ghost moment: Moment)
      requires Keyed(store.State())
      modifies store, env
      ensures Keyed(store.State()) && JobsEvolve(old(store.State()), store.State())
      ensures store.writer.owner != Some(owner)
      ensures ClaimsOnly(old(store.State()), store.State(),
        if completion.Some? then Some(completion.value.job.jobId) else None)
      ensures completion.Some? ==>
        && Accounted(completion.value) && completion.value.job.leaseOwner == Some(owner)
        && JobsEvolve(completion.value.after, store.State())
        && (target.Some? ==> completion.value.job.jobId == target.value)
        && (completion.value.succeeded ==> work.ending.Returned? && Raises !in work.beats)
      ensures Reports(result, completion, work)
      ensures env.clock >= old(env.clock)
      ensures JobsEvolve(old(store.State()), moment.db) && old(env.clock) <= moment.at
      ensures result == Err(WriterHeld) ==> !Free(moment.db.writer, owner, moment.at)
      ensures result == Ok(None) || (completion.None? && result != Err(WriterHeld)) ==>
        Idle(moment.db.jobs, moment.at, target)
      ensures completion.Some? ==> Took(moment.db.jobs, moment.at, target, completion.value.job)
      ensures old(env.Peaceful()) ==>
        && env.Peaceful() && moment.db.jobs == old(store.jobs)
        && (if completion.Some? then OnlyRow(old(store.jobs), store.jobs, completion.value.job.jobId)
            else store.jobs == old(store.jobs))
        && (Free(old(store.writer), owner, old(env.clock)) ==> store.writer.owner.None?)
      ensures old(env.Peaceful()) && Ample(env) && Free(old(store.writer), owner, old(env.clock))
              && work.ending.Returned? && Raises !in work.beats ==>
        && result.Ok? && (result.value.Some? <==> completion.Some?)
        && (result.value.Some? ==> Completed(store.jobs, result.value.value))
        && (!Idle(old(store.jobs), old(env.clock), target) ==> completion.Some?)
    {
      var acquired, claimed;
      acquired, claimed, moment := TakeJob(store, env, target);
      if !acquired {
        return Err(WriterHeld), None, moment;
      }
      result, completion := RunTaken(store, env, claimed, work);
      store.ReleaseWriter(owner);
    }

    /**
     Recovery under the kernel lock, refused while another process holds it. It
     requeues exactly the running rows, as the others left them, whose lease had
     ended at the reading of the clock, and leaves every other row alone.
     */
    method Reconcile(store: Store.MetadataStore, env: Environment, lockFree: bool)
      returns (result: Result<nat, Failure>, ghost found: Db)
      requires Keyed(store.State())
      modifies store, env
      ensures Keyed(store.State()) && JobsEvolve(old(store.State()), store.State())
      ensures result.Ok? <==> lockFree
      ensures !lockFree ==> store.State() == old(store.State())
      ensures ClaimsOnly(old(store.State()), store.State(), None)
      ensures lockFree ==>
        Rely(old(store.State()), found) && store.State() == Metadata.Reconcile(found, old(env.clock)).db
      ensures lockFree ==> forall id :: id in found.jobs ==>
        id in store.jobs && if Interrupted(found.jobs[id], old(env.clock))
        then store.jobs[id].status == Queued && store.jobs[id].leaseOwner.None?
        else store.jobs[id] == found.jobs[id]
      ensures lockFree ==> result == Ok(|set id | id in found.jobs && Interrupted(found.jobs[id], old(env.clock))|)
      ensures env.clock >= old(env.clock)
      ensures old(env.Peaceful()) && lockFree ==>
        env.Peaceful() && env.clock <= old(env.clock) + env.pace && found == old(store.State())
    {
      found := store.State();
      if !lockFree {
        return Err(LockHeld), found;
      }
      var now := env.Read(store);
      found := store.State();
      var requeued := store.Reconcile(now);
      RequeuedAreInterrupted(found.jobs, store.jobs, now);
      QueueStepEvolves(found, Requeue(now), env.clock);
      return Ok(requeued), found;
    }

    /** One pass of a worker that drains the queue in order, first created first. */
    method RunOnce(store: Store.MetadataStore, env: Environment, lockFree: bool, work: Work)
      returns (result: Result<Option<Job>, Failure>, ghost completion: Option<Completion>, ghost moment: Moment)
      requires Keyed(store.State())
      modifies store, env
      ensures JobsEvolve(old(store.State()), store.State())
      ensures Keyed(store.State()) && (lockFree ==> Reports(result, completion, work))
      ensures env.clock >= old(env.clock)
      ensures result == Err(LockHeld) <==> !lockFree
      ensures !lockFree ==> store.State() == old(store.State()) && completion.None?
      ensures lockFree ==> store.writer.owner != Some(owner)
      ensures completion.Some? ==> Accounted(completion.value) && (completion.value.succeeded ==> work.ending.Returned?)
      ensures result.Ok? && result.value.Some? ==> completion.Some? && completion.value.succeeded
      ensures JobsEvolve(old(store.State()), moment.db) && old(env.clock) <= moment.at
      ensures result == Ok(None) ==>
        forall x :: x in moment.db.jobs ==>
          moment.db.jobs[x].status != Queued || moment.db.jobs[x].availableAt > moment.at
      ensures result == Err(WriterHeld) ==> !Free(moment.db.writer, owner, moment.at)
      ensures completion.Some? ==> Took(moment.db.jobs, moment.at, None, completion.value.job)
      ensures lockFree && old(env.Peaceful()) ==>
        && env.Peaceful() && moment.db.jobs == old(store.jobs)
        && (if completion.Some? then OnlyRow(old(store.jobs), store.jobs, completion.value.job.jobId)
            else store.jobs == old(store.jobs))
        && (Free(old(store.writer), owner, old(env.clock)) ==> store.writer.owner.None?)
      ensures lockFree && old(env.Peaceful()) && Ample(env) && Free(old(store.writer), owner, old(env.clock))
              && work.ending.Returned? && Raises !in work.beats ==>
        && result.Ok? && (result.value.Some? <==> completion.Some?)
        && (result.value.Some? ==> Completed(store.jobs, result.value.value))
        && (!Idle(old(store.jobs), old(env.clock), None) ==> completion.Some?)
    {
      if !lockFree {
        return Err(LockHeld), None, Moment(store.State(), env.clock);
      }
      result, completion, moment := RunOnceLocked(store, env, None, work);
    }

    /** Recovers expired rows, then requeues the target if it had failed; replies with the status it found. */
    method ReadyTarget(store: Store.MetadataStore, env: Environment, jobId: JobId) returns (found: Job)
      requires Keyed(store.State()) && jobId in store.jobs
      modifies store, env
      ensures Keyed(store.State()) && JobsEvolve(old(store.State()), store.State())
      ensures ClaimsOnly(old(store.State()), store.State(), None)
      ensures found.jobId == jobId && found.attemptCount == old(store.jobs)[jobId].attemptCount
      ensures found.status == Failed ==> store.jobs[jobId].status == Queued
      ensures found.status != Failed ==> store.jobs[jobId] == found
      ensures found.status == Running ==> !Expired(found.leaseExpires, old(env.clock))
      ensures env.clock >= old(env.clock) && (old(env.Peaceful()) ==> env.Peaceful())
      ensures old(env.Peaceful()) && old(Runnable(store.jobs, jobId, env.clock)) ==>
        (found.status == Queued || found.status == Failed) && !Idle(store.jobs, env.clock, Some(jobId))
      ensures old(env.Peaceful()) && old(Free(store.writer, owner, env.clock)) ==>
        Free(store.writer, owner, env.clock)
    {
      var _, _ := Reconcile(store, env, true);
      found := store.jobs[jobId];
      ghost var recovered := store.jobs;
      if found.status == Failed {
        RetryTarget(store, env, jobId);
      }
      if old(env.Peaceful()) && old(Runnable(store.jobs, jobId, env.clock)) {
        ReadiedIsNotIdle(old(store.jobs), recovered, store.jobs, jobId, old(env.clock), env.clock);
      }
    }

    /** Requeues a failed target, unless another process has done so meanwhile. */
    method RetryTarget(store: Store.MetadataStore, env: Environment, jobId: JobId)
      requires Keyed(store.State()) && jobId in store.jobs && store.jobs[jobId].status == Failed
      modifies store, env
      ensures Keyed(store.State()) && JobsEvolve(old(store.State()), store.State())
      ensures ClaimsOnly(old(store.State()), store.State(), None)
      ensures store.jobs[jobId].status == Queued && env.clock >= old(env.clock)
      ensures old(env.Peaceful()) ==>
        && env.Peaceful() && store.writer == old(store.writer)
        && store.jobs[jobId].availableAt == old(env.clock) && store.jobs.Keys == old(store.jobs).Keys
        && (forall x :: x in store.jobs && x != jobId ==> store.jobs[x] == old(store.jobs)[x])
    {
      var now := env.Read(store);
      ghost var before := store.State();
      store.RetryJob(jobId, false, now);
      assert forall x :: x in store.jobs && x != jobId ==> x in store.jobs - {jobId};
      RetryStepEvolves(before, Retry(jobId, false, now), env.clock);
    }

    /** The targeted run behind the kernel lock: recovery, the retry of a failed target, and its pass. */
    method RunTarget(store: Store.MetadataStore, env: Environment, jobId: JobId, work: Work)
      returns (result: Result<Job, Failure>, ghost completion: Option<Completion>, ghost moment: Moment)
      requires Keyed(store.State()) && jobId in store.jobs
      modifies store, env
      ensures Keyed(store.State()) && JobsEvolve(old(store.State()), store.State())
      ensures result.Ok? ==> result.value.jobId == jobId && result.value.status == Succeeded
      ensures completion.Some? ==> Accounted(completion.value) && completion.value.job.jobId == jobId
      ensures ClaimsOnly(old(store.State()), store.State(), if completion.Some? then Some(jobId) else None)
      ensures completion.Some? || (result.Err? && !result.error.LeaseActive?) ==> store.writer.owner != Some(owner)
      ensures result.Err? ==> !result.error.JobNotFound? && !result.error.LockHeld?
      ensures result.Ok? && completion.Some? ==>
        && completion.value.succeeded && work.ending.Returned?
        && Passes(completion.value.before, completion.value.job, completion.value.clock)
      ensures result == Err(LeaseActive) ==>
        store.jobs[jobId].status == Running && !Expired(store.jobs[jobId].leaseExpires, old(env.clock))
      ensures JobsEvolve(old(store.State()), moment.db) && old(env.clock) <= moment.at
      ensures result == Err(JobNotReady) ==> Idle(moment.db.jobs, moment.at, Some(jobId))
      ensures result == Err(WriterHeld) ==> !Free(moment.db.writer, owner, moment.at)
      ensures completion.Some? ==> Took(moment.db.jobs, moment.at, Some(jobId), completion.value.job)
      ensures old(env.Peaceful()) && Ample(env) && old(Free(store.writer, owner, env.clock))
              && old(Runnable(store.jobs, jobId, env.clock)) && work.ending.Returned? && Raises !in work.beats ==>
        result.Ok? && completion.Some?
    {
      completion := None;
      var found := ReadyTarget(store, env, jobId);
      if found.status == Succeeded {
        return Ok(found), None, Moment(store.State(), env.clock);
      }
      if found.status == Running {
        return Err(LeaseActive), None, Moment(store.State(), env.clock);
      }
      var pass;
      pass, completion, moment := RunOnceLocked(store, env, Some(jobId), work);
      match pass {
        case Ok(None) => result := Err(JobNotReady);
        case Ok(Some(completed)) =>
          result := if completed.jobId != jobId || completed.status != Succeeded then Err(JobExecution)
                    else Ok(completed);
        case Err(failure) =>
          result := Err(if failure.HandlerFailed? && work.ending.Untyped? then JobExecution else failure);
      }
    }

    /**
     The targeted run of one job. It returns a job only if that job is the one
     asked for and has succeeded, it starts no attempt of any other job, and
     whenever it went as far as a pass it has released the writer lease. It says
     that the job is not ready only when it is not; and left to itself, with a job
     that it can run and a handler that returns, it completes that job.
     */
    method RunJob(store: Store.MetadataStore, env: Environment, jobId: JobId, lockFree: bool, work: Work)
      returns (result: Result<Job, Failure>, ghost completion: Option<Completion>, ghost moment: Moment)
      requires Keyed(store.State())
      modifies store, env
      ensures Keyed(store.State()) && JobsEvolve(old(store.State()), store.State())
      ensures result.Ok? ==> result.value.jobId == jobId && result.value.status == Succeeded
      ensures completion.Some? ==> Accounted(completion.value) && completion.value.job.jobId == jobId
      ensures ClaimsOnly(old(store.State()), store.State(), if completion.Some? then Some(jobId) else None)
      ensures completion.Some? ==> lockFree && store.writer.owner != Some(owner)
      ensures result.Err? && !result.error.JobNotFound? && !result.error.LockHeld? && !result.error.LeaseActive? ==>
        lockFree && store.writer.owner != Some(owner)
      ensures result.Ok? && completion.Some? ==>
        && completion.value.succeeded && work.ending.Returned?
        && Passes(completion.value.before, completion.value.job, completion.value.clock)
      ensures result == Err(JobNotFound) <==> jobId !in old(store.jobs)
      ensures jobId in old(store.jobs) && old(store.jobs)[jobId].status == Succeeded ==>
        result == Ok(old(store.jobs)[jobId]) && store.State() == old(store.State())
      ensures result == Err(LockHeld) <==>
        jobId in old(store.jobs) && old(store.jobs)[jobId].status != Succeeded && !lockFree
      ensures result == Err(LeaseActive) ==>
        store.jobs[jobId].status == Running && !Expired(store.jobs[jobId].leaseExpires, old(env.clock))
      ensures JobsEvolve(old(store.State()), moment.db) && old(env.clock) <= moment.at
      ensures result == Err(JobNotReady) ==> Idle(moment.db.jobs, moment.at, Some(jobId))
      ensures result == Err(WriterHeld) ==> !Free(moment.db.writer, owner, moment.at)
      ensures completion.Some? ==> Took(moment.db.jobs, moment.at, Some(jobId), completion.value.job)
      ensures lockFree && old(env.Peaceful()) && Ample(env) && old(Free(store.writer, owner, env.clock))
              && old(Runnable(store.jobs, jobId, env.clock)) && work.ending.Returned? && Raises !in work.beats ==>
        result.Ok? && completion.Some?
    {
      completion := None;
      moment := Moment(store.State(), env.clock);
      if jobId !in store.jobs {
        return Err(JobNotFound), None, moment;
      }
      if store.jobs[jobId].status == Succeeded {
        return Ok(store.jobs[jobId]), None, moment;
      }
      env.Others(store);
      if !lockFree {
        return Err(LockHeld), None, moment;
      }
      result, completion, moment := RunTarget(store, env, jobId, work);
    }
  }
}
