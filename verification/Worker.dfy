/**
 The worker that drains the queue until it is told to stop. Each round recovers
 expired rows and then runs one pass; whatever a round raises is left behind.
 Undisturbed, it completes every job that was due, in the order of creation.
 */
module Worker {
  import opened Wrappers
  import opened Metadata
  import opened Transactions
  import opened Fencing
  import opened Interference
  import opened Executor
  import Store = MetadataStore

  /** Whether the kernel lock is free at the two calls of a round, and the run of the handler. */
  datatype Round = Round(recovery: bool, pass: bool, work: Work)

  /** Both calls get the lock, the handler returns, and no heartbeat raises. */
  predicate Untroubled(round: Round) {
    round.recovery && round.pass && round.work.ending.Returned? && Raises !in round.work.beats
  }

  // ----- What one round does to the rows -----

  predicate IsOpen(row: Job) {
    row.status == Queued || row.status == Running
  }

  /** The row is queued and due, or will be again once recovery finds its lease ended. */
  predicate Due(row: Job, at: Time) {
    && row.availableAt <= at
    && (row.status == Queued || (row.status == Running && row.leaseExpires.Some? && row.leaseExpires.value < at))
  }

  predicate NoLater(a: Job, b: Job) {
    a.createdAt < b.createdAt || (a.createdAt == b.createdAt && a.jobId <= b.jobId)
  }

  /** The row keeps its input and is as open as before; if it was due it still is. */
  predicate Waits(before: Job, after: Job, at: Time, later: Time) {
    && SameInput(before, after) && (IsOpen(after) <==> IsOpen(before))
    && (after.status == Succeeded <==> before.status == Succeeded)
    && (Due(before, at) ==> Due(after, later))
  }

  /** A job that was open has succeeded, and none that was due was created before it. */
  predicate Takes(before: map<JobId, Job>, after: map<JobId, Job>, at: Time, job: Job) {
    && job.jobId in before && IsOpen(before[job.jobId]) && SameInput(before[job.jobId], job)
    && Completed(after, job)
    && forall x | x in before && Due(before[x], at) :: NoLater(job, before[x])
  }

  /** One round completes the first due job, if there is one, and leaves the other rows waiting. */
  predicate Progressed(before: map<JobId, Job>, after: map<JobId, Job>, at: Time, later: Time, done: Option<Job>) {
    && after.Keys == before.Keys
    && (done.Some? ==> Takes(before, after, at, done.value))
    && (done.None? ==> forall x | x in before :: !Due(before[x], at))
    && forall x | x in before && (done.None? || x != done.value.jobId) :: Waits(before[x], after[x], at, later)
  }

  lemma RecoveredWaits(row: Job, at: Time, later: Time)
    requires at <= later
    ensures Waits(row, Requeued(row, at), at, later)
    ensures Due(row, at) ==> Requeued(row, at).status == Queued
  {
  }

  /** Recovery and a pass that completes a job. */
  lemma PassProgresses(
    before: map<JobId, Job>, recovered: map<JobId, Job>, after: map<JobId, Job>,
    at: Time, reading: Time, later: Time, job: Job, done: Job)
    requires at <= reading && at <= later && recovered.Keys == before.Keys
    requires forall x :: x in before ==> before[x].jobId == x && recovered[x] == Requeued(before[x], at)
    requires Took(recovered, reading, None, job) && done.jobId == job.jobId
    requires OnlyRow(recovered, after, job.jobId) && Completed(after, done) && SameInput(recovered[job.jobId], done)
    ensures Progressed(before, after, at, later, Some(done))
  {
    forall x | x in before ensures Waits(before[x], recovered[x], at, later)
      ensures Due(before[x], at) ==> NoLater(done, before[x])
    {
      RecoveredWaits(before[x], at, later);
    }
  }

  /** Recovery and a pass that finds nothing. */
  lemma NothingProgresses(
    before: map<JobId, Job>, recovered: map<JobId, Job>, at: Time, reading: Time, later: Time)
    requires at <= reading && at <= later && recovered.Keys == before.Keys
    requires forall x :: x in before ==> recovered[x] == Requeued(before[x], at)
    requires Idle(recovered, reading, None)
    ensures Progressed(before, recovered, at, later, None)
  {
    forall x | x in before ensures Waits(before[x], recovered[x], at, later) && !Due(before[x], at) {
      RecoveredWaits(before[x], at, later);
    }
  }

  // ----- What many rounds do -----

  function Open(jobs: map<JobId, Job>): set<JobId> {
    set id | id in jobs && IsOpen(jobs[id])
  }

  /** A round that completes a job leaves one open job fewer. */
  lemma OneFewer(before: map<JobId, Job>, after: map<JobId, Job>, at: Time, later: Time, done: Job)
    requires Progressed(before, after, at, later, Some(done))
    ensures |Open(after)| == |Open(before)| - 1
  {
    assert done.jobId in Open(before) && done.jobId !in Open(after);
    forall x ensures x in Open(after) <==> x in Open(before) - {done.jobId} {
      if x in before && x != done.jobId {
        assert Waits(before[x], after[x], at, later);
      }
    }
    assert Open(after) == Open(before) - {done.jobId};
  }

  lemma NoneFewer(before: map<JobId, Job>, after: map<JobId, Job>, at: Time, later: Time)
    requires Progressed(before, after, at, later, None)
    ensures Open(after) == Open(before)
  {
    forall x ensures x in Open(after) <==> x in Open(before) {
      if x in before {
        assert Waits(before[x], after[x], at, later);
      }
    }
  }

  /** So far: what was due is done or still due, and what is done comes before whatever is not. */
  ghost predicate Drained(start: map<JobId, Job>, from: Time, now: map<JobId, Job>, at: Time, completed: seq<Job>) {
    && now.Keys == start.Keys
    && (forall x | x in start :: SameInput(start[x], now[x]))
    && (forall x | x in start && Due(start[x], from) :: now[x].status == Succeeded || Due(now[x], at))
    && (forall c | c in completed :: c.jobId in start && SameInput(start[c.jobId], c) && c.status == Succeeded)
    && (forall x, i {:trigger now[x], completed[i]} |
          x in start && Due(start[x], from) && now[x].status != Succeeded && 0 <= i < |completed| ::
          NoLater(completed[i], start[x]))
    && (forall i, k | 0 <= i < k < |completed| && Due(start[completed[k].jobId], from) ::
          NoLater(completed[i], completed[k]))
    && |completed| + |Open(now)| == |Open(start)|
  }

  lemma DrainedByOne(
    start: map<JobId, Job>, from: Time, before: map<JobId, Job>, at: Time, completed: seq<Job>,
    after: map<JobId, Job>, later: Time, done: Job)
    requires Drained(start, from, before, at, completed) && Progressed(before, after, at, later, Some(done))
    ensures Drained(start, from, after, later, completed + [done])
  {
    OneFewer(before, after, at, later, done);
    forall x | x in start && x != done.jobId ensures Waits(before[x], after[x], at, later) {
    }
  }

  lemma DrainedByNone(
    start: map<JobId, Job>, from: Time, before: map<JobId, Job>, at: Time, completed: seq<Job>,
    after: map<JobId, Job>, later: Time)
    requires Drained(start, from, before, at, completed) && Progressed(before, after, at, later, None)
    ensures Drained(start, from, after, later, completed)
    ensures forall x | x in start && Due(start[x], from) :: after[x].status == Succeeded
  {
    NoneFewer(before, after, at, later);
    forall x | x in start ensures Waits(before[x], after[x], at, later) {
    }
  }

  /** When no job is open any more, all that were due have succeeded. */
  lemma NothingLeft(start: map<JobId, Job>, from: Time, now: map<JobId, Job>, at: Time, completed: seq<Job>)
    requires Drained(start, from, now, at, completed) && |completed| >= |Open(start)|
    ensures forall x | x in start && Due(start[x], from) :: now[x].status == Succeeded
  {
    assert Open(now) == {};
    forall x | x in start && Due(start[x], from) ensures now[x].status == Succeeded {
      assert x !in Open(now);
    }
  }

  /** One round: what it returns is the job that its pass completed, if it got so far. */
  method RunRound(executor: DurableJobExecutor, store: Store.MetadataStore, env: Environment, round: Round)
    returns (done: Option<Job>)
    requires Keyed(store.State())
    modifies store, env
    ensures Keyed(store.State()) && JobsEvolve(old(store.State()), store.State()) && env.clock >= old(env.clock)
    ensures old(env.Peaceful()) && executor.Ample(env) && Untroubled(round)
            && old(Free(store.writer, executor.owner, env.clock)) ==>
      && env.Peaceful() && Free(store.writer, executor.owner, env.clock)
      && Progressed(old(store.jobs), store.jobs, old(env.clock), env.clock, done)
  {
    var recovered, found := executor.Reconcile(store, env, round.recovery);
    if recovered.Err? {
      return None;
    }
    ghost var rows, reading := store.jobs, env.clock;
    var result, completion, moment := executor.RunOnce(store, env, round.pass, round.work);
    done := if result.Ok? then result.value else None;
    if old(env.Peaceful()) && executor.Ample(env) && Untroubled(round)
       && old(Free(store.writer, executor.owner, env.clock)) {
      if done.Some? {
        PassProgresses(old(store.jobs), rows, store.jobs, old(env.clock), moment.at, env.clock,
                       completion.value.job, done.value);
      } else {
        NothingProgresses(old(store.jobs), rows, old(env.clock), moment.at, env.clock);
      }
    }
  }

  /**
   The loop, for as many rounds as it is given. Undisturbed, after as many rounds
   as there were open jobs, every job that was due at the start has succeeded; each
   was completed behind all that were completed before it in the order of creation.
   */
  method RunForever(executor: DurableJobExecutor, store: Store.MetadataStore, env: Environment, rounds: seq<Round>)
    returns (completed: seq<Job>)
    requires Keyed(store.State())
    modifies store, env
    ensures Keyed(store.State()) && JobsEvolve(old(store.State()), store.State())
    ensures old(env.Peaceful()) && executor.Ample(env) && (forall round <- rounds :: Untroubled(round))
            && old(Free(store.writer, executor.owner, env.clock)) ==>
      && Drained(old(store.jobs), old(env.clock), store.jobs, env.clock, completed)
      && (|rounds| >= |Open(old(store.jobs))| ==>
            forall x :: x in old(store.jobs) && Due(old(store.jobs)[x], old(env.clock)) ==>
              store.jobs[x].status == Succeeded)
  {
    completed := [];
    ghost var start, from := store.jobs, env.clock;
    ghost var peaceful := env.Peaceful() && executor.Ample(env) && (forall round <- rounds :: Untroubled(round))
      && Free(store.writer, executor.owner, env.clock);
    for i := 0 to |rounds|
      invariant Keyed(store.State()) && JobsEvolve(old(store.State()), store.State())
      invariant peaceful ==>
        && env.Peaceful() && Free(store.writer, executor.owner, env.clock)
        && Drained(start, from, store.jobs, env.clock, completed)
        && (|completed| == i || forall x :: x in start && Due(start[x], from) ==> store.jobs[x].status == Succeeded)
    {
      assert rounds[i] in rounds;
      ghost var before, at := store.jobs, env.clock;
      var done := RunRound(executor, store, env, rounds[i]);
      if done.Some? {
        if peaceful {
          DrainedByOne(start, from, before, at, completed, store.jobs, env.clock, done.value);
        }
        completed := completed + [done.value];
      } else if peaceful {
        DrainedByNone(start, from, before, at, completed, store.jobs, env.clock);
      }
    }
    if peaceful && |completed| >= |Open(start)| {
      NothingLeft(start, from, store.jobs, env.clock, completed);
    }
  }
}
