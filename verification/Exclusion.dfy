/**
 At most one job row holds its lease at any instant, and what that rests on.

 The writer lease and the job lease come from different clock readings, so the
 job lease may outlast the writer lease. An owner that acquires the writer
 lease again while one of its earlier rows is still unexpired would revive it.
 */
module Exclusion {
  import opened Wrappers
  import opened Metadata
  import opened Transactions
  import opened Fencing
  import opened Installation
  import MetadataStore

  /** The row is running under this owner and its own lease has not run out. */
  ghost predicate Live(db: Db, id: JobId, owner: string, clock: Time) {
    && id in db.jobs && db.jobs[id].status == Running
    && db.jobs[id].leaseOwner == Some(owner) && After(db.jobs[id].leaseExpires, clock)
  }

  ghost predicate NoLiveRow(db: Db, owner: string, clock: Time) {
    forall id :: !Live(db, id, owner, clock)
  }

  /** The row passes the lease check with its own current contents. */
  ghost predicate Passing(db: Db, id: JobId, clock: Time) {
    id in db.jobs && db.jobs[id].jobId == id && Passes(db, db.jobs[id], clock)
  }

  ghost predicate AtMostOnePasses(db: Db, clock: Time) {
    forall x, y :: Passing(db, x, clock) && Passing(db, y, clock) ==> x == y
  }

  ghost predicate ExclusionInv(s: Sys) {
    && Keyed(s.db)
    && (forall o, x, y ::
          s.db.writer.owner == Some(o) && Live(s.db, x, o, s.clock) && Live(s.db, y, o, s.clock) ==> x == y)
    && (s.phase.Acquired? && s.db.writer.owner == Some(s.phase.owner) ==> NoLiveRow(s.db, s.phase.owner, s.clock))
  }

  /** No row becomes live, and the writer lease stays with its owner or with nobody. */
  ghost predicate NothingRevives(db: Db, db': Db, clock: Time) {
    && Keyed(db')
    && (db'.writer.owner == db.writer.owner || db'.writer.owner.None?)
    && forall id, o :: Live(db', id, o, clock) ==> Live(db, id, o, clock)
  }

  lemma OutsideRevivesNothing(plan: Plan, db: Db, t: Transaction, clock: Time)
    requires Keyed(db) && IssuedOutside(plan, db, clock, t)
    ensures NothingRevives(db, Apply(db, t, clock).db, clock)
  {
    match t {
      case Submit(_, _, _) => SubmissionRevivesNothing(plan, db, t, clock);
      case Delete(_, _, _, _, _) => DeletionRevivesNothing(plan, db, t, clock);
      case Beat(owner, job, now, expires) => HeartbeatRevivesNothing(db, owner, job, now, expires, clock);
      case _ =>
    }
  }

  lemma SubmissionRevivesNothing(plan: Plan, db: Db, t: Transaction, clock: Time)
    requires Keyed(db) && t.Submit? && IssuedOutside(plan, db, clock, t)
    ensures NothingRevives(db, Apply(db, t, clock).db, clock)
  {
  }

  lemma DeletionRevivesNothing(plan: Plan, db: Db, t: Transaction, clock: Time)
    requires Keyed(db) && t.Delete? && IssuedOutside(plan, db, clock, t)
    ensures NothingRevives(db, Apply(db, t, clock).db, clock)
  {
  }

  lemma HeartbeatRevivesNothing(db: Db, owner: string, job: Job, now: Time, expires: Time, clock: Time)
    requires Keyed(db)
    ensures NothingRevives(db, Heartbeat(db, job.jobId, owner, now, expires, Some(job), clock).db, clock)
  {
  }

  lemma LockedStepRevivesNothing(plan: Plan, s: Sys, e: Event)
    requires Keyed(s.db) && Enabled(plan, s, e)
    requires !e.Outside? && !e.Tick? && !e.AcquireLease? && !e.ClaimJob?
    ensures NothingRevives(s.db, Effect(s, e).db, s.clock) && Effect(s, e).clock == s.clock
    ensures !Effect(s, e).phase.Acquired?
  {
  }

  lemma ClaimKeepsExclusion(plan: Plan, s: Sys, now: Time, expires: Time, target: Option<JobId>)
    requires ExclusionInv(s) && Enabled(plan, s, ClaimJob(now, expires, target))
    ensures ExclusionInv(Effect(s, ClaimJob(now, expires, target)))
  {
    var db' := Effect(s, ClaimJob(now, expires, target)).db;
    var next := Next(s.db, now, target);
    forall o, x | Live(db', x, o, s.clock)
      ensures Live(s.db, x, o, s.clock) || (next == Some(x) && o == s.phase.owner)
    {
    }
  }

  lemma EventKeepsExclusion(plan: Plan, s: Sys, e: Event)
    requires ExclusionInv(s) && Enabled(plan, s, e)
    requires e.AcquireLease? ==> NoLiveRow(s.db, s.phase.owner, s.clock)
    ensures ExclusionInv(Effect(s, e))
  {
    var s' := Effect(s, e);
    match e {
      case Outside(t) => OutsideRevivesNothing(plan, s.db, t, s.clock);
      case ClaimJob(now, expires, target) => ClaimKeepsExclusion(plan, s, now, expires, target);
      case AcquireLease(_, _) =>
        assert forall id, o :: Live(s'.db, id, o, s.clock) ==> Live(s.db, id, o, s.clock);
      case Tick(_) =>
        assert forall id, o :: Live(s.db, id, o, s'.clock) ==> Live(s.db, id, o, s.clock);
      case _ => LockedStepRevivesNothing(plan, s, e);
    }
  }

  /**
   Mutual exclusion. If no owner acquires the writer lease while one of its own
   rows is still unexpired, then in every reachable state at most one job row
   passes the lease check.
   */
  lemma {:induction false} AtMostOneRowHoldsItsLease(plan: Plan, states: seq<Sys>, events: seq<Event>, i: nat)
    requires Run(plan, states, events) && i < |states|
    requires forall n :: 0 <= n < i ==> events[n].AcquireLease? ==>
      states[n].phase.Locked? && NoLiveRow(states[n].db, states[n].phase.owner, states[n].clock)
    ensures ExclusionInv(states[i])
    ensures AtMostOnePasses(states[i].db, states[i].clock)
  {
    if i > 0 {
      assert Moment(i - 1);
      AtMostOneRowHoldsItsLease(plan, states, events, i - 1);
      EventKeepsExclusion(plan, states[i - 1], events[i - 1]);
    }
    var db, clock := states[i].db, states[i].clock;
    forall x, y | Passing(db, x, clock) && Passing(db, y, clock) ensures x == y {
      var o := db.writer.owner.value;
      assert Live(db, x, o, clock) && Live(db, y, o, clock);
    }
  }

  /**
   The hypothesis is exact. When an owner that holds the writer lease claims a
   job, at most one row passes afterwards if and only if the owner had no
   unexpired row before.
   */
  lemma ClaimExcludesExactlyWhenNoRowIsLive(
    db: Db, owner: string, now: Time, expires: Time, target: Option<JobId>, clock: Time)
    requires Keyed(db) && db.writer.owner == Some(owner) && After(db.writer.expires, clock)
    requires Next(db, now, target).Some? && expires > clock
    ensures AtMostOnePasses(ClaimNextJob(db, owner, now, expires, target).db, clock) <==> NoLiveRow(db, owner, clock)
  {
    var db' := ClaimNextJob(db, owner, now, expires, target).db;
    var id := Next(db, now, target).value;
    assert Passing(db', id, clock);
    if x :| Live(db, x, owner, clock) {
      assert x != id && Passing(db', x, clock);
    } else {
      forall y | Passing(db', y, clock) ensures y == id {
        assert y != id ==> Live(db, y, owner, clock);
      }
    }
  }

  // ----- A run in which the hypothesis fails -----

  ghost predicate Reaches(plan: Plan, s: Sys) {
    exists states, events :: Run(plan, states, events) && states[|events|] == s
  }

  lemma Advance(plan: Plan, s: Sys, e: Event, s': Sys)
    requires Reaches(plan, s) && Enabled(plan, s, e) && s' == Effect(s, e)
    ensures Reaches(plan, s')
  {
    var states, events :| Run(plan, states, events) && states[|events|] == s;
    var states', events' := states + [s'], events + [e];
    forall i | Moment(i) && 0 <= i < |events'|
      ensures Enabled(plan, states'[i], events'[i]) && states'[i + 1] == Effect(states'[i], events'[i])
    {
      assert i < |events| ==> states'[i] == states[i] && states'[i + 1] == states[i + 1];
    }
    assert Run(plan, states', events') && states'[|events'|] == s';
  }

  function QueuedImport(id: JobId, key: string): Job {
    Job(id, key, ImportTxt, "d", "v", "{}", Queued, 0, 0, None, None, None, 0, None, 0, 0)
  }

  function FirstAttempt(): Job {
    Claimed(QueuedImport(1, "a"), "w", 5, 15)
  }

  function Station(jobs: map<JobId, Job>, writer: Writer, clock: Time, phase: Phase): Sys {
    Sys(Db(map[], map[], map[], jobs, writer), clock, map[], map[], phase)
  }

  lemma TwoImportsAreQueued(plan: Plan)
    requires plan("v").documentId == "d"
    ensures Reaches(plan,
      Station(map[1 := QueuedImport(1, "a"), 2 := QueuedImport(2, "b")], Writer(None, None), 0, Free))
  {
    var a, b := QueuedImport(1, "a"), QueuedImport(2, "b");
    var s0 := Station(map[], Writer(None, None), 0, Free);
    var none: seq<Event> := [];
    assert Run(plan, [s0], none) && [s0][|none|] == s0;
    var s1 := Station(map[1 := a], Writer(None, None), 0, Free);
    assert s1.db.jobs == s0.db.jobs[1 := a];
    Advance(plan, s0, Outside(Submit(a, None, 0)), s1);
    var s2 := Station(map[1 := a, 2 := b], Writer(None, None), 0, Free);
    assert s2.db.jobs == s1.db.jobs[2 := b];
    Advance(plan, s1, Outside(Submit(b, None, 0)), s2);
  }

  /** The writer lease taken at 0 ends at 10, the job lease taken at 5 ends at 15. */
  lemma FirstImportIsClaimed(plan: Plan)
    requires plan("v").documentId == "d"
    ensures Reaches(plan, Station(map[1 := FirstAttempt(), 2 := QueuedImport(2, "b")], Writer(Some("w"), Some(10)), 5,
      Handling("w", FirstAttempt(), Handler(false, false, None, false))))
  {
    TwoImportsAreQueued(plan);
    var queued := map[1 := QueuedImport(1, "a"), 2 := QueuedImport(2, "b")];
    var s0 := Station(queued, Writer(None, None), 0, Free);
    Advance(plan, s0, TakeLock("w"), s0.(phase := Locked("w")));
    var s1 := Station(queued, Writer(Some("w"), Some(10)), 0, Acquired("w"));
    Advance(plan, s0.(phase := Locked("w")), AcquireLease(0, 10), s1);
    var s2 := s1.(clock := 5);
    Advance(plan, s1, Tick(5), s2);
    assert IsNext(s2.db, 5, None, 1);
    MetadataStore.NextFinds(s2.db, 5, None);
    var s3 := Station(map[1 := FirstAttempt(), 2 := QueuedImport(2, "b")], Writer(Some("w"), Some(10)), 5,
      Handling("w", FirstAttempt(), Handler(false, false, None, false)));
    assert s3.db.jobs == queued[1 := FirstAttempt()];
    Advance(plan, s2, ClaimJob(5, 15, None), s3);
  }

  /** The attempt cannot be finished at 11, and recovery at 11 leaves its row alone. */
  lemma FirstLeaseIsLost(plan: Plan)
    requires plan("v").documentId == "d"
    ensures Reaches(plan,
      Station(map[1 := FirstAttempt(), 2 := QueuedImport(2, "b")], Writer(None, None), 11, Locked("w")))
  {
    FirstImportIsClaimed(plan);
    var jobs := map[1 := FirstAttempt(), 2 := QueuedImport(2, "b")];
    var handling := Handling("w", FirstAttempt(), Handler(false, false, None, false));
    var s0 := Station(jobs, Writer(Some("w"), Some(10)), 5, handling);
    Advance(plan, s0, Tick(11), s0.(clock := 11));
    var s1 := Station(jobs, Writer(Some("w"), Some(10)), 11, Finished("w"));
    Advance(plan, s0.(clock := 11), FinishRow(false, Some("internal_error")), s1);
    var s2 := Station(jobs, Writer(None, None), 11, Locked("w"));
    Advance(plan, s1, ReleaseLease, s2);
    assert Reconcile(s2.db, 11).db.jobs == jobs;
    Advance(plan, s2, Recover(11), s2);
  }

  /**
   Without the hypothesis exclusion fails: a worker whose writer lease ran out
   before its job lease, and which then takes the next job, has two rows that
   pass the lease check.
   */
  lemma ReacquiringRevivesAnOldAttempt(plan: Plan)
    requires plan("v").documentId == "d"
    ensures exists s :: Reaches(plan, s) && !AtMostOnePasses(s.db, s.clock)
  {
    FirstLeaseIsLost(plan);
    var jobs := map[1 := FirstAttempt(), 2 := QueuedImport(2, "b")];
    var s0 := Station(jobs, Writer(None, None), 11, Locked("w"));
    var s1 := Station(jobs, Writer(Some("w"), Some(21)), 11, Acquired("w"));
    Advance(plan, s0, AcquireLease(11, 21), s1);
    assert IsNext(s1.db, 11, None, 2);
    MetadataStore.NextFinds(s1.db, 11, None);
    var second := Claimed(QueuedImport(2, "b"), "w", 11, 21);
    var s2 := Station(map[1 := FirstAttempt(), 2 := second], Writer(Some("w"), Some(21)), 11,
      Handling("w", second, Handler(false, false, None, false)));
    assert s2.db.jobs == jobs[2 := second];
    Advance(plan, s1, ClaimJob(11, 21, None), s2);
    assert Passing(s2.db, 1, 11) && Passing(s2.db, 2, 11);
  }

  /** The events lead from one state to the other. */
  ghost predicate Leads(plan: Plan, s: Sys, events: seq<Event>, s': Sys)
    decreases |events|
  {
    if events == [] then s == s' else Enabled(plan, s, events[0]) && Leads(plan, Effect(s, events[0]), events[1..], s')
  }

  /** The moment at which the attempt is to be completed, with its writer lease over and its own lease running. */
  function AtCompletion(): Sys {
    Station(map[1 := FirstAttempt(), 2 := QueuedImport(2, "b")], Writer(Some("w"), Some(10)), 11,
      Handling("w", FirstAttempt(), Handler(false, false, None, false)))
  }

  /** The same worker has given the writer lease back and taken it once more. */
  function AfterReacquiring(): Sys {
    Station(map[1 := FirstAttempt(), 2 := QueuedImport(2, "b")], Writer(Some("w"), Some(21)), 11, Acquired("w"))
  }

  /**
   A refused completion is not always the end of an attempt: this one is refused
   while only the writer lease is over, and the same snapshot passes again once
   the worker takes the lease for its next pass.
   */
  lemma RefusedAttemptPassesAgain(plan: Plan)
    requires plan("v").documentId == "d"
    ensures Reaches(plan, AtCompletion()) && Suspended(AtCompletion().db, FirstAttempt(), 11)
    ensures Effect(AtCompletion(), FinishRow(true, None)).db == AtCompletion().db
    ensures Leads(plan, AtCompletion(), [FinishRow(true, None), ReleaseLease, AcquireLease(11, 21)], AfterReacquiring())
    ensures Passes(AfterReacquiring().db, FirstAttempt(), 11)
  {
    FirstImportIsClaimed(plan);
    var s := AtCompletion();
    Advance(plan, s.(clock := 5), Tick(11), s);
    var refused := s.(phase := Finished("w"));
    assert Effect(s, FinishRow(true, None)) == refused;
    var released := refused.(db := refused.db.(writer := Writer(None, None)), phase := Locked("w"));
    assert Effect(refused, ReleaseLease) == released;
    assert Effect(released, AcquireLease(11, 21)) == AfterReacquiring();
    var last: seq<Event> := [AcquireLease(11, 21)];
    assert last[1..] == [];
    assert Leads(plan, released, last, AfterReacquiring());
    var two := [ReleaseLease] + last;
    assert two[1..] == last;
    assert Leads(plan, refused, two, AfterReacquiring());
    var three := [FinishRow(true, None)] + two;
    assert three[1..] == two && three == [FinishRow(true, None), ReleaseLease, AcquireLease(11, 21)];
  }
}
