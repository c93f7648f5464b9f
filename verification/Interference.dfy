/**
 The other participants of an installation, as seen by the process that holds
 the kernel lock: between any two of its calls they may let time pass, import,
 delete, retry, report progress, send heartbeats and write the manifest.
 */
module Interference {
  import opened Wrappers
  import opened Metadata
  import opened Transactions
  import opened Fencing
  import Store = MetadataStore

  datatype Interruption =
    | Wait(duration: nat)
    | Issue(transaction: Transaction)

  /** Everything but what takes the kernel lock: acquiring, claiming, finishing, releasing and recovery. */
  predicate Permitted(t: Transaction) {
    match t
    case Submit(job, _, _) => job.status == Queued
    case Delete(_, _, job, _, _) => job.status == Queued
    case Acquire(_, _, _) => false
    case Release(_) => false
    case Claim(_, _, _, _) => false
    case Finish(_, _, _, _) => false
    case Requeue(_) => false
    case _ => true
  }

  /** What the lock holder can rely on across the others' transactions. */
  ghost predicate Rely(db: Db, db': Db) {
    && Keyed(db')
    && db'.writer.owner == db.writer.owner
    && JobsEvolve(db, db')
    && forall id :: id in db.jobs ==>
         && id in db'.jobs && db'.jobs[id].attemptCount == db.jobs[id].attemptCount
         && (db.jobs[id].status == Running ==>
               db'.jobs[id].status == Running && db'.jobs[id].leaseOwner == db.jobs[id].leaseOwner)
         && (db'.jobs[id].status == Succeeded ==> db.jobs[id].status == Succeeded)
  }

  lemma RelyComposes(a: Db, b: Db, c: Db)
    requires Rely(a, b) && Rely(b, c)
    ensures Rely(a, c)
  {
  }

  lemma QueuedStepRelied(db: Db, t: Transaction, clock: Time)
    requires Keyed(db) && Permitted(t) && (t.Submit? || t.Retry? || t.Progress? || t.Beat?)
    ensures Rely(db, Apply(db, t, clock).db)
  {
    StepEvolves(db, t, clock);
  }

  lemma DeleteRelied(db: Db, t: Transaction, clock: Time)
    requires Keyed(db) && Permitted(t) && t.Delete?
    ensures Rely(db, Apply(db, t, clock).db)
  {
    StepEvolves(db, t, clock);
  }

  lemma PermittedStepRelied(db: Db, t: Transaction, clock: Time)
    requires Keyed(db) && Permitted(t)
    ensures Rely(db, Apply(db, t, clock).db)
  {
    if t.Delete? {
      DeleteRelied(db, t, clock);
    } else if t.Submit? || t.Retry? || t.Progress? || t.Beat? {
      QueuedStepRelied(db, t, clock);
    } else {
      DocumentStepEvolves(db, t, clock);
    }
  }

  /** Commits one permitted transaction on the store. */
  method Perform(store: Store.MetadataStore, t: Transaction, clock: Time)
    requires Permitted(t)
    modifies store
    ensures store.State() == Apply(old(store.State()), t, clock).db
  {
    match t {
      case StoreDocument(id, name, active, allowRestore) => var _ := store.PutDocument(id, name, active, allowRestore);
      case StoreVersion(id, version) => var _ := store.PutVersion(id, version);
      case StoreChunks(id, chunkIds) => var _ := store.ReplaceChunks(id, chunkIds);
      case MarkVersion(job, status, code) =>
        var _ := store.SetVersionStatus(job.versionId, status, code, Some(job), clock);
      case Publish(job, heads) => var _ := store.PublishVersion(job.versionId, job, heads, clock);
      case Submit(job, limit, now) => var _ := store.PutJob(job, limit, now);
      case Delete(id, expected, job, room, now) => var _ := store.TombstoneAndPutJob(id, expected, job, room, now);
      case Retry(id, includeSucceeded, now) => store.RetryJob(id, includeSucceeded, now);
      case Progress(id, owner, percent, now) => var _ := store.UpdateJobProgress(id, owner, percent, now);
      case Beat(owner, job, now, expires) => var _ := store.Heartbeat(job.jobId, owner, now, expires, Some(job), clock);
    }
  }

  /** The time that passes in a batch. */
  function Waiting(batch: seq<Interruption>): nat {
    if batch == [] then 0 else
      Waiting(batch[..|batch| - 1])
      + if batch[|batch| - 1].Wait? then batch[|batch| - 1].duration else 0
  }

  /** In the batch nothing happens but the passing of at most this much time. */
  predicate OnlyWaits(batch: seq<Interruption>, pace: nat) {
    (forall i <- batch :: i.Wait?) && Waiting(batch) <= pace
  }

  /** The clock and an arbitrary script of what the others do before each of the holder's calls. */
  class Environment {
    var clock: Time
    var script: seq<seq<Interruption>>
    /** How long one call may take when the others keep still. */
    ghost const pace: nat

    constructor (clock: Time, script: seq<seq<Interruption>>, ghost pace: nat)
      ensures this.clock == clock && this.script == script && this.pace == pace
    {
      this.clock, this.script, this.pace := clock, script, pace;
    }

    /** From here on the others keep still, and no call takes longer than the pace. */
    ghost predicate Peaceful()
      reads this
    {
      forall batch <- script :: OnlyWaits(batch, pace)
    }

    /** Lets the others run the next batch of the script. */
    method Others(store: Store.MetadataStore)
      requires Keyed(store.State())
      modifies this, store
      ensures Rely(old(store.State()), store.State())
      ensures clock >= old(clock)
      ensures old(Peaceful()) ==> Peaceful() && store.State() == old(store.State()) && clock <= old(clock) + pace
    {
      if script == [] {
        return;
      }
      var batch := script[0];
      var rest := script[1..];
      assert batch in script && forall later <- rest :: later in script;
      script := rest;
      for i := 0 to |batch|
        invariant script == rest
        invariant Rely(old(store.State()), store.State())
        invariant clock >= old(clock)
        invariant old(Peaceful()) ==> store.State() == old(store.State()) && clock == old(clock) + Waiting(batch[..i])
      {
        assert batch[i] in batch && batch[..i + 1][..i] == batch[..i];
        ghost var before := store.State();
        match batch[i] {
          case Wait(duration) => clock := clock + duration;
          case Issue(t) =>
            if Permitted(t) {
              PermittedStepRelied(before, t, clock);
              Perform(store, t, clock);
              RelyComposes(old(store.State()), before, store.State());
            }
        }
      }
      assert batch[..|batch|] == batch;
    }

    /** A reading of the clock that may be old by the time it is used. */
    method Read(store: Store.MetadataStore) returns (now: Time)
      requires Keyed(store.State())
      modifies this, store
      ensures Rely(old(store.State()), store.State())
      ensures now == old(clock) <= clock
      ensures old(Peaceful()) ==> Peaceful() && store.State() == old(store.State()) && clock <= old(clock) + pace
    {
      now := clock;
      Others(store);
    }
  }
}
