/**
 The handlers of import and deletion jobs, call by call, with the rest of the
 installation running between the calls and with a failure at any of them.
 Each call is one event of the installation, so the handlers inherit its
 invariant, and their contracts say what a finished or failed job leaves behind.
 */
module Ingestion {
  import opened Wrappers
  import opened Metadata
  import opened Transactions
  import opened Installation
  import opened Cleanup
  import opened Manifest
  import opened Safety
  import opened Interference
  import Store = MetadataStore

  /** A retrieval store: an upsert touches only its own version, but need not store what it was given. */
  class ChunkStore {
    var entries: Entries

    constructor ()
      ensures entries == map[]
    {
      entries := map[];
    }

    method UpsertVersion(versionId: string, stored: set<string>)
      modifies this
      ensures entries == old(entries)[versionId := stored]
    {
      entries := entries[versionId := stored];
    }

    /** Removes the entries of every version of the document, or fails after removing some of them. */
    method DeleteDocument(plan: Plan, documentId: string, survivors: set<string>) returns (complete: bool)
      modifies this
      ensures ErasesOnly(plan, old(entries), entries, documentId)
      ensures complete <==> forall v :: v in entries ==> plan(v).documentId != documentId
      ensures survivors == {} ==> complete
    {
      entries := map v | v in entries && (plan(v).documentId != documentId || v in survivors) :: entries[v];
      complete := forall v | v in entries :: plan(v).documentId != documentId;
    }
  }

  /** Calls into code outside this model that may fail, in the order in which a handler makes them. */
  datatype Point =
    | AtPrepare | AtStart | AtVector | AfterVector | AtGraph | AfterGraph | BeforePublish | AtComplete
    | AtHeads | AfterPublish | AtFailureRecord | AtInvalidate | AfterDeleteVector | AfterDeleteGraph | AtFiles
    | AfterDeleteFiles

  datatype Raised = LeaseError | OtherError

  /** Documents keep their active version or lose it; none gains one. */
  ghost predicate OnlyWithdraws(db: Db, db': Db) {
    && (forall d :: d in db.documents ==>
          d in db'.documents && (db'.documents[d].active == db.documents[d].active || db'.documents[d].active.None?))
    && (forall d :: d in db'.documents && d !in db.documents ==> db'.documents[d].active.None?)
  }

  lemma WithdrawalComposes(a: Db, b: Db, c: Db)
    requires OnlyWithdraws(a, b) && OnlyWithdraws(b, c)
    ensures OnlyWithdraws(a, c)
  {
  }

  lemma OutsideOnlyWithdraws(plan: Plan, db: Db, t: Transaction, clock: Time)
    requires IssuedOutside(plan, db, clock, t)
    ensures OnlyWithdraws(db, Apply(db, t, clock).db)
  {
  }

  /** As OnlyWithdraws on existing documents, except that document d may have gained version v. */
  ghost predicate OnlyPublishes(db: Db, db': Db, d: string, v: string) {
    forall e :: e in db.documents ==>
      && e in db'.documents
      && (db'.documents[e].active == db.documents[e].active || db'.documents[e].active.None?
          || (e == d && db'.documents[e].active == Some(v)))
  }

  lemma PublicationComposes(a: Db, b: Db, c: Db, d: string, v: string)
    requires (OnlyPublishes(a, b, d, v) && OnlyWithdraws(b, c)) || (OnlyWithdraws(a, b) && OnlyPublishes(b, c, d, v))
    ensures OnlyPublishes(a, c, d, v)
  {
  }

  /**
   What a handler keeps. The invariant of the installation holds whatever happens;
   so do, for each watched document, the entries of its active version; and a
   cleanup has its document tombstoned.
   */
  ghost predicate Sound(plan: Plan, s: Sys, watched: iset<string>) {
    && SysInv(plan, s)
    && (forall d :: d in watched ==> StoresHold(plan, s, d))
    && (Deleting(s) ==> PendingCleanup(s.db, s.phase.job.documentId))
  }

  /** Only a cleanup needs an order of deletions, and only of its own document. */
  predicate InOrder(job: Job, db: Db, e: Event) {
    job.operation == DeleteDocument ==> Ordered(db, e, job.documentId)
  }

  lemma StepIsSafe(plan: Plan, s: Sys, e: Event, watched: iset<string>)
    requires Sound(plan, s, watched) && Enabled(plan, s, e) && s.phase.Handling? && InOrder(s.phase.job, s.db, e)
    requires Effect(s, e).phase.Handling? && Effect(s, e).phase.job == s.phase.job
    ensures Sound(plan, Effect(s, e), watched)
  {
    EventKeepsSystem(plan, s, e);
    if Deleting(s) {
      EventKeepsCleanup(plan, s, e, s.phase.job.documentId);
      CleanupFindsTombstone(plan, s);
    }
    forall d | d in watched ensures StoresHold(plan, Effect(s, e), d) {
      EventKeepsStores(plan, s, e, d);
    }
  }

  // ----- Handlers that nothing disturbs -----

  /** All that publication asks of the rows but the lease. */
  predicate Publishable(db: Db, job: Job) {
    && job.versionId in db.versions && db.versions[job.versionId].documentId == job.documentId
    && job.documentId in db.documents && db.documents[job.documentId].deletedAt.None?
    && ReadIds(db, job.versionId).Some?
  }

  lemma MarkKeepsPublishable(db: Db, job: Job, status: VersionStatus, code: Option<string>, clock: Time)
    requires Passes(db, job, clock) && Publishable(db, job)
    ensures var tx := SetVersionStatus(db, job.versionId, status, code, Some(job), clock);
      && tx.error.None? && Passes(tx.db, job, clock) && Publishable(tx.db, job)
      && tx.db == db.(versions := tx.db.versions) && tx.db.versions[job.versionId].status == status
  {
  }

  lemma ProgressKeepsPublishable(db: Db, job: Job, percent: int, now: Time, clock: Time)
    requires Passes(db, job, clock) && Publishable(db, job)
    ensures var db' := UpdateProgress(db, job.jobId, job.leaseOwner.value, percent, now).db;
      Passes(db', job, clock) && Publishable(db', job) && db' == db.(jobs := db'.jobs)
  {
  }

  lemma PublicationSucceeds(db: Db, job: Job, clock: Time)
    requires Passes(db, job, clock) && Publishable(db, job)
    ensures var tx := PublishVersion(db, job.versionId, job, true, clock);
      && tx.error.None? && Passes(tx.db, job, clock) && Publishable(tx.db, job)
      && IsActive(tx.db, job.documentId, job.versionId)
  {
  }

  class IngestionService {
    const plan: Plan
    const owner: string
    const store: Store.MetadataStore
    const vector: ChunkStore
    const graph: ChunkStore
    const faults: set<Point>
    /** Documents whose entries in the stores are held by assumption at the start. */
    ghost const watched: iset<string>
    var clock: Time
    var script: seq<seq<Interruption>>
    ghost var memory: Handler

    constructor (
      plan: Plan, owner: string, store: Store.MetadataStore, vector: ChunkStore, graph: ChunkStore,
      faults: set<Point>, clock: Time, script: seq<seq<Interruption>>, ghost watched: iset<string>)
      ensures this.plan == plan && this.owner == owner && this.store == store
      ensures this.vector == vector && this.graph == graph && this.faults == faults && this.clock == clock
      ensures this.watched == watched
      ensures memory == Handler(false, false, None, false)
    {
      this.plan, this.owner, this.store, this.vector, this.graph := plan, owner, store, vector, graph;
      this.faults, this.clock, this.script, this.watched := faults, clock, script, watched;
      memory := Handler(false, false, None, false);
    }

    /** The installation as it stands, with this handler running `job` under the kernel lock. */
    ghost function Now(job: Job): Sys
      reads this, store, vector, graph
    {
      Sys(store.State(), clock, vector.entries, graph.entries, Handling(owner, job, memory))
    }

    ghost predicate Safe(job: Job)
      reads this, store, vector, graph
    {
      vector != graph && Sound(plan, Now(job), watched)
    }

    /** What interference can change, and whether there will be any. */
    ghost function Scene(): (Db, Time, seq<seq<Interruption>>)
      reads this, store
    {
      (store.State(), clock, script)
    }

    /** Nobody interferes, the attempt holds its lease and its version can be published. */
    ghost predicate Calm(job: Job)
      reads this, store
    {
      script == [] && Passes(store.State(), job, clock) && Publishable(store.State(), job)
    }

    /** Nobody interferes, and the attempt holds its lease. */
    ghost predicate Held(job: Job)
      reads this, store
    {
      script == [] && Passes(store.State(), job, clock)
    }

    /** The job's row shows this much progress. */
    predicate Shows(job: Job, percent: nat)
      reads store
    {
      job.jobId in store.jobs && store.jobs[job.jobId].progress == percent
    }

    /** Nobody interferes, and the attempt has lost its lease. */
    ghost predicate Lost(job: Job)
      reads this, store
    {
      script == [] && !Passes(store.State(), job, clock)
    }

    /** Lets every other process run the next batch; during a cleanup, none deletes its document out of order. */
    method Others(job: Job)
      requires Safe(job)
      modifies this`clock, this`script, store
      ensures Safe(job) && OnlyWithdraws(old(store.State()), store.State())
      ensures old(script) == [] ==> Scene() == old(Scene())
    {
      if script == [] {
        return;
      }
      var batch := script[0];
      script := script[1..];
      for i := 0 to |batch|
        invariant Safe(job) && OnlyWithdraws(old(store.State()), store.State())
      {
        ghost var before := Now(job);
        match batch[i] {
          case Wait(duration) =>
            clock := clock + duration;
            StepIsSafe(plan, before, Tick(clock), watched);
            assert Now(job) == Effect(before, Tick(clock));
          case Issue(t) =>
            if IssuedOutside(plan, store.State(), clock, t) && InOrder(job, store.State(), Outside(t)) {
              StepIsSafe(plan, before, Outside(t), watched);
              OutsideOnlyWithdraws(plan, before.db, t, clock);
              Perform(store, t, clock);
              assert Now(job) == Effect(before, Outside(t));
              WithdrawalComposes(old(store.State()), before.db, store.State());
            }
        }
      }
    }

    // ----- The handler's calls, each after the others have run -----

    method SeeDocument(job: Job) returns (present: bool, active: bool)
      requires Safe(job) && job.operation != DeleteDocument
      modifies this`clock, this`script, this`memory, store
      ensures Safe(job) && OnlyWithdraws(old(store.State()), store.State())
      ensures old(script) == [] ==> Scene() == old(Scene())
      ensures memory == old(memory).(sawActive := active, sawInactive := !active)
      ensures active <==> ActiveIs(store.State(), job.documentId, job.versionId)
      ensures present <==> job.documentId in store.documents
    {
      Others(job);
      present := job.documentId in store.documents;
      active := ActiveIs(store.State(), job.documentId, job.versionId);
      StepIsSafe(plan, Now(job), ReadDocument, watched);
      memory := memory.(sawActive := active, sawInactive := !active);
    }

    method SeeVersion(job: Job) returns (found: bool, ready: bool)
      requires Safe(job) && job.operation != DeleteDocument && (memory.sawActive || memory.sawInactive)
      modifies this`clock, this`script, this`memory, store
      ensures Safe(job) && OnlyWithdraws(old(store.State()), store.State())
      ensures old(script) == [] ==> Scene() == old(Scene())
      ensures found <==> job.versionId in store.versions
      ensures ready <==> found && store.versions[job.versionId].status == Ready
      ensures memory == old(memory).(sawInactive := !(old(memory).sawActive && ready))
    {
      Others(job);
      found := job.versionId in store.versions;
      ready := found && store.versions[job.versionId].status == Ready;
      StepIsSafe(plan, Now(job), ReadVersion, watched);
      memory := memory.(sawInactive := !(memory.sawActive && ready));
    }

    /** The staged chunk identifiers, if they match the version's count and digest. */
    method SeeManifest(job: Job) returns (ids: Option<set<string>>)
      requires Safe(job) && job.operation != DeleteDocument
      modifies this`clock, this`script, this`memory, store
      ensures Safe(job) && OnlyWithdraws(old(store.State()), store.State())
      ensures old(script) == [] ==> Scene() == old(Scene())
      ensures ids == ReadIds(store.State(), job.versionId)
      ensures memory == old(memory).(ids := ids, verified := false)
    {
      Others(job);
      ids := ReadIds(store.State(), job.versionId);
      StepIsSafe(plan, Now(job), ReadManifest, watched);
      memory := memory.(ids := ids, verified := false);
    }

    method Mark(job: Job, status: VersionStatus, code: Option<string>) returns (raised: Option<Raised>)
      requires Safe(job) && job.operation != DeleteDocument && memory.sawInactive
      requires status == Indexing || status == Unusable
      modifies this`clock, this`script, store
      ensures Safe(job) && OnlyWithdraws(old(store.State()), store.State())
      ensures old(Calm(job)) ==>
        && Calm(job) && raised.None? && store.versions[job.versionId].status == status
        && store.documents == old(store.documents)
      ensures old(Lost(job)) ==> raised == Some(LeaseError) && Scene() == old(Scene())
    {
      Others(job);
      ghost var seen := store.State();
      raised := MarkNow(job, status, code);
      WithdrawalComposes(old(store.State()), seen, store.State());
    }

    /** The transaction that marks the version. */
    method MarkNow(job: Job, status: VersionStatus, code: Option<string>) returns (raised: Option<Raised>)
      requires Safe(job) && job.operation != DeleteDocument && memory.sawInactive
      requires status == Indexing || status == Unusable
      modifies store
      ensures Safe(job) && OnlyWithdraws(old(store.State()), store.State())
      ensures store.State() == old(store.State()).(versions := store.versions)
      ensures raised == if old(Passes(store.State(), job, clock)) then None else Some(LeaseError)
      ensures raised.Some? ==> store.versions == old(store.versions)
      ensures old(Calm(job)) ==> Calm(job) && store.versions[job.versionId].status == status
    {
      ghost var before := Now(job);
      if Calm(job) {
        MarkKeepsPublishable(store.State(), job, status, code, clock);
      }
      StepIsSafe(plan, before, MarkVersionRow(status, code), watched);
      var error := store.SetVersionStatus(job.versionId, status, code, Some(job), clock);
      assert Now(job) == Effect(before, MarkVersionRow(status, code));
      raised := if error.Some? then Some(LeaseError) else None;
    }

    /** Checks the lease, then reports progress in a transaction of its own. */
    method ReportProgress(job: Job, percent: int) returns (raised: Option<Raised>)
      requires Safe(job)
      modifies this`clock, this`script, store
      ensures Safe(job) && OnlyWithdraws(old(store.State()), store.State())
      ensures old(Held(job)) ==> Held(job) && raised.None?
      ensures raised.None? && 0 <= percent <= 99 ==> Shows(job, percent)
      ensures old(Calm(job)) ==>
        && Calm(job) && raised.None? && store.versions == old(store.versions) && store.documents == old(store.documents)
      ensures old(Lost(job)) ==> raised == Some(LeaseError) && Scene() == old(Scene())
    {
      Others(job);
      if !Passes(store.State(), job, clock) || job.leaseOwner.None? {
        return Some(LeaseError);
      }
      Others(job);
      ghost var before := Now(job);
      if Calm(job) {
        ProgressKeepsPublishable(store.State(), job, percent, clock, clock);
      }
      var report := Transactions.Progress(job.jobId, job.leaseOwner.value, percent, clock);
      StepIsSafe(plan, before, Outside(report), watched);
      OutsideOnlyWithdraws(plan, before.db, report, clock);
      var updated := store.UpdateJobProgress(job.jobId, job.leaseOwner.value, percent, clock);
      assert Now(job) == Effect(before, Outside(report));
      raised := if updated then None else Some(LeaseError);
    }

    method UpsertInto(job: Job, target: ChunkStore, stored: set<string>)
      requires Safe(job) && job.operation != DeleteDocument && memory.sawInactive
      requires target == vector || target == graph
      modifies this`clock, this`script, this`memory, store, target
      ensures Safe(job) && OnlyWithdraws(old(store.State()), store.State())
      ensures old(script) == [] ==> Scene() == old(Scene())
      ensures target.entries == old(target.entries)[job.versionId := stored]
      ensures memory == old(memory).(verified := false)
    {
      Others(job);
      ghost var before := Now(job);
      ghost var e := if target == vector then UpsertVector(stored) else UpsertGraph(stored);
      StepIsSafe(plan, before, e, watched);
      target.UpsertVersion(job.versionId, stored);
      memory := memory.(verified := false);
      assert Now(job) == Effect(before, e);
    }

    /** Whether both stores hold exactly the staged identifiers. */
    method Verify(job: Job, ids: set<string>) returns (equal: bool)
      requires Safe(job) && job.operation != DeleteDocument && memory.ids == Some(ids)
      modifies this`clock, this`script, this`memory, store
      ensures Safe(job) && OnlyWithdraws(old(store.State()), store.State())
      ensures old(script) == [] ==> Scene() == old(Scene())
      ensures memory == old(memory).(verified := equal)
      ensures equal <==> StoresAgree(vector.entries, graph.entries, job.versionId, IdSet(plan(job.versionId).chunkIds))
    {
      Others(job);
      equal := StoresAgree(vector.entries, graph.entries, job.versionId, ids);
      StepIsSafe(plan, Now(job), VerifyStores, watched);
      memory := memory.(verified := equal);
    }

    method PublishStaged(job: Job) returns (raised: Option<Raised>)
      requires Safe(job) && job.operation != DeleteDocument && memory.verified
      modifies this`clock, this`script, this`memory, store
      ensures Safe(job)
      ensures raised.Some? ==> OnlyWithdraws(old(store.State()), store.State())
      ensures OnlyPublishes(old(store.State()), store.State(), job.documentId, job.versionId)
      ensures memory == old(memory).(sawActive := false, sawInactive := false)
      ensures old(Calm(job)) ==> Calm(job) && raised != Some(LeaseError)
      ensures old(Calm(job)) && AtHeads !in faults ==>
        raised.None? && IsActive(store.State(), job.documentId, job.versionId)
      ensures old(Lost(job)) ==> raised == Some(LeaseError) && Scene() == old(Scene())
    {
      Others(job);
      ghost var seen := store.State();
      raised := PublishNow(job, AtHeads !in faults);
      PublicationComposes(old(store.State()), seen, store.State(), job.documentId, job.versionId);
    }

    /** The transaction that publishes the version, with its index heads if these can be moved. */
    method PublishNow(job: Job, heads: bool) returns (raised: Option<Raised>)
      requires Safe(job) && job.operation != DeleteDocument && memory.verified
      modifies this`memory, store
      ensures Safe(job) && OnlyPublishes(old(store.State()), store.State(), job.documentId, job.versionId)
      ensures raised.Some? ==> store.State() == old(store.State())
      ensures memory == old(memory).(sawActive := false, sawInactive := false)
      ensures old(!Passes(store.State(), job, clock)) ==> raised == Some(LeaseError)
      ensures old(Calm(job)) ==> Calm(job) && raised == if heads then None else Some(OtherError)
      ensures old(Calm(job)) && heads ==> IsActive(store.State(), job.documentId, job.versionId)
    {
      ghost var before := Now(job);
      if Calm(job) && heads {
        PublicationSucceeds(store.State(), job, clock);
      }
      StepIsSafe(plan, before, PublishRow(heads), watched);
      PublicationLifecycleOf(before, job, heads);
      var error := store.PublishVersion(job.versionId, job, heads, clock);
      memory := memory.(sawActive := false, sawInactive := false);
      assert Now(job) == Effect(before, PublishRow(heads));
      raised := if error.None? then None else Some(if error.value == JobLease then LeaseError else OtherError);
    }

    lemma PublicationLifecycleOf(s: Sys, job: Job, heads: bool)
      requires SysInv(plan, s) && s.phase.Handling? && s.phase.job == job && job.operation != DeleteDocument
      ensures var tx := PublishVersion(s.db, job.versionId, job, heads, s.clock);
              && OnlyPublishes(s.db, tx.db, job.documentId, job.versionId)
              && (tx.error.Some? ==> tx.db == s.db)
    {
      assert s.db.jobs[job.jobId].operation != DeleteDocument;
    }

    // ----- Import -----

    /** The lease check by itself. */
    method CheckLease(job: Job) returns (raised: Option<Raised>)
      requires Safe(job)
      modifies this`clock, this`script, store
      ensures Safe(job) && OnlyWithdraws(old(store.State()), store.State())
      ensures old(script) == [] ==> Scene() == old(Scene())
      ensures raised == if Passes(store.State(), job, clock) then None else Some(LeaseError)
    {
      Others(job);
      raised := if Passes(store.State(), job, clock) then None else Some(LeaseError);
    }

    /** Writes one store and reports progress; the store keeps what it keeps. */
    method FillStore(job: Job, target: ChunkStore, stored: set<string>, percent: int, during: Point, after: Point)
      returns (raised: Option<Raised>)
      requires Safe(job) && job.operation != DeleteDocument && memory.sawInactive
      requires target == vector || target == graph
      modifies this`clock, this`script, this`memory, store, target
      ensures Safe(job) && OnlyWithdraws(old(store.State()), store.State())
      ensures target.entries - {job.versionId} == old(target.entries) - {job.versionId}
      ensures memory == old(memory).(verified := memory.verified)
      ensures raised.None? ==> job.versionId in target.entries && target.entries[job.versionId] == stored
      ensures old(Calm(job)) ==> Calm(job) && raised != Some(LeaseError)
      ensures old(Calm(job)) && during !in faults && after !in faults ==> raised.None?
    {
      UpsertInto(job, target, stored);
      if during in faults {
        return Some(OtherError);
      }
      raised := ReportProgress(job, percent);
      if raised.None? && after in faults {
        raised := Some(OtherError);
      }
    }

    /** Writes both stores, and checks the lease in between. */
    method FillStores(job: Job, storedVector: set<string>, storedGraph: set<string>) returns (raised: Option<Raised>)
      requires Safe(job) && job.operation != DeleteDocument && memory.sawInactive
      modifies this`clock, this`script, this`memory, store, vector, graph
      ensures Safe(job) && OnlyWithdraws(old(store.State()), store.State())
      ensures vector.entries - {job.versionId} == old(vector.entries) - {job.versionId}
      ensures graph.entries - {job.versionId} == old(graph.entries) - {job.versionId}
      ensures memory == old(memory).(verified := memory.verified)
      ensures raised.None? ==>
        && job.versionId in vector.entries && vector.entries[job.versionId] == storedVector
        && job.versionId in graph.entries && graph.entries[job.versionId] == storedGraph
      ensures old(Calm(job)) ==> Calm(job) && raised != Some(LeaseError)
      ensures old(Calm(job)) && faults == {} ==> raised.None?
    {
      raised := FillStore(job, vector, storedVector, 40, AtVector, AfterVector);
      if raised.Some? { return; }
      raised := CheckLease(job);
      if raised.Some? { return; }
      raised := FillStore(job, graph, storedGraph, 70, AtGraph, AfterGraph);
    }

    /** Marks the version as indexing and fills and verifies both stores; nothing is published. */
    method StageStores(job: Job, ids: set<string>, storedVector: set<string>, storedGraph: set<string>)
      returns (raised: Option<Raised>)
      requires Safe(job) && job.operation != DeleteDocument && memory.sawInactive && memory.ids == Some(ids)
      modifies this`clock, this`script, this`memory, store, vector, graph
      ensures Safe(job) && OnlyWithdraws(old(store.State()), store.State())
      ensures vector.entries - {job.versionId} == old(vector.entries) - {job.versionId}
      ensures graph.entries - {job.versionId} == old(graph.entries) - {job.versionId}
      ensures raised.None? ==> memory.verified
      ensures old(Calm(job)) ==> Calm(job) && raised != Some(LeaseError)
      ensures old(Calm(job)) && faults == {} && storedVector == storedGraph == ids ==> raised.None?
      ensures old(Lost(job)) ==>
        && raised == Some(LeaseError) && Scene() == old(Scene())
        && vector.entries == old(vector.entries) && graph.entries == old(graph.entries)
    {
      raised := Mark(job, Indexing, None);
      if raised.Some? { return; }
      raised := ReportProgress(job, 10);
      if raised.Some? { return; }
      raised := FillStores(job, storedVector, storedGraph);
      if raised.Some? { return; }
      var equal := Verify(job, ids);
      if !equal {
        return Some(OtherError);
      }
      raised := ReportProgress(job, 90);
    }

    /** Publishes the verified version, if it is to be published, and reports the end. */
    method Conclude(job: Job, publish: bool) returns (raised: Option<Raised>, published: bool)
      requires Safe(job) && job.operation != DeleteDocument && memory.verified
      modifies this`clock, this`script, this`memory, store
      ensures Safe(job) && memory.verified
      ensures !published ==> OnlyWithdraws(old(store.State()), store.State())
      ensures OnlyPublishes(old(store.State()), store.State(), job.documentId, job.versionId)
      ensures published ==> publish
      ensures raised.None? && publish ==> published
      ensures raised.None? ==> Shows(job, 99)
      ensures old(Calm(job)) ==> Calm(job) && raised != Some(LeaseError)
      ensures old(Calm(job)) && faults == {} ==>
        raised.None? && (publish ==> IsActive(store.State(), job.documentId, job.versionId))
      ensures old(Lost(job)) ==> raised == Some(LeaseError) && !published && Scene() == old(Scene())
    {
      published := false;
      if publish {
        raised := PublishStaged(job);
        if raised.Some? { return; }
        published := true;
      }
      ghost var done := store.State();
      raised := ReportProgress(job, 99);
      PublicationComposes(old(store.State()), done, store.State(), job.documentId, job.versionId);
      if raised.None? && AfterPublish in faults {
        raised := Some(OtherError);
      }
    }

    /** An already active version is only compared with both stores. */
    method Recheck(job: Job, ids: set<string>) returns (raised: Option<Raised>)
      requires Safe(job) && job.operation != DeleteDocument && memory.ids == Some(ids)
      modifies this`clock, this`script, this`memory, store
      ensures Safe(job) && OnlyWithdraws(old(store.State()), store.State())
      ensures raised.None? ==> memory.verified
      ensures raised.None? ==> Shows(job, 99)
      ensures old(Calm(job)) ==>
        Calm(job) && raised != Some(LeaseError) && store.versions == old(store.versions)
        && store.documents == old(store.documents)
      ensures old(Calm(job)) && faults == {} && StoresAgree(vector.entries, graph.entries, job.versionId, ids) ==>
        raised.None?
      ensures old(Lost(job)) ==> raised.Some? && Scene() == old(Scene())
    {
      var equal := Verify(job, ids);
      if !equal || AtComplete in faults {
        return Some(OtherError);
      }
      raised := ReportProgress(job, 99);
    }

    /** The guarded body of an import, from its first write to its last. */
    method ImportBody(
      job: Job, publish: bool, active: bool, ids: Option<set<string>>,
      storedVector: set<string>, storedGraph: set<string>)
      returns (raised: Option<Raised>, published: bool)
      requires Safe(job) && job.operation != DeleteDocument && memory.ids == ids
      requires !active ==> memory.sawInactive
      modifies this`clock, this`script, this`memory, store, vector, graph
      ensures Safe(job)
      ensures !published ==> OnlyWithdraws(old(store.State()), store.State())
      ensures OnlyPublishes(old(store.State()), store.State(), job.documentId, job.versionId)
      ensures vector.entries - {job.versionId} == old(vector.entries) - {job.versionId}
      ensures graph.entries - {job.versionId} == old(graph.entries) - {job.versionId}
      ensures raised.None? ==> memory.verified
      ensures raised.None? && publish && !active ==> published
      ensures raised.None? ==> Shows(job, 99)
      ensures published ==> publish && !active
      ensures active ==> vector.entries == old(vector.entries) && graph.entries == old(graph.entries)
      ensures old(Calm(job)) ==> Calm(job) && raised != Some(LeaseError)
      ensures old(Calm(job)) && faults == {} && ids.Some?
              && (if active then StoresAgree(old(vector.entries), old(graph.entries), job.versionId, ids.value)
                  else storedVector == storedGraph == ids.value) ==>
        && raised.None?
        && (active ==> store.versions == old(store.versions) && store.documents == old(store.documents))
        && (publish && !active ==> IsActive(store.State(), job.documentId, job.versionId))
      ensures old(Lost(job)) ==>
        && raised.Some? && !published && Scene() == old(Scene())
        && vector.entries == old(vector.entries) && graph.entries == old(graph.entries)
    {
      published := false;
      if AtStart in faults || ids.None? {
        return Some(OtherError), false;
      }
      if active {
        raised := Recheck(job, ids.value);
        return;
      }
      raised := StageStores(job, ids.value, storedVector, storedGraph);
      if raised.Some? { return; }
      if BeforePublish in faults || AtComplete in faults {
        return Some(OtherError), false;
      }
      ghost var staged := store.State();
      raised, published := Conclude(job, publish);
      PublicationComposes(old(store.State()), staged, store.State(), job.documentId, job.versionId);
    }

    /** The readings an import starts from. */
    method Prepare(job: Job) returns (prepared: bool, active: bool, ids: Option<set<string>>)
      requires Safe(job) && job.operation != DeleteDocument
      modifies this`clock, this`script, this`memory, store
      ensures Safe(job) && OnlyWithdraws(old(store.State()), store.State())
      ensures prepared ==> memory.ids == ids && (!active ==> memory.sawInactive)
      ensures active ==> ActiveIs(old(store.State()), job.documentId, job.versionId)
      ensures old(script) == [] ==>
        && Scene() == old(Scene())
        && (prepared <==> job.documentId in store.documents && job.versionId in store.versions && AtPrepare !in faults)
        && (active <==> ActiveIs(store.State(), job.documentId, job.versionId)
                        && job.versionId in store.versions && store.versions[job.versionId].status == Ready)
        && (prepared ==> ids == ReadIds(store.State(), job.versionId))
    {
      ids := None;
      var present, shown := SeeDocument(job);
      var found, ready := SeeVersion(job);
      active := shown && ready;
      prepared := present && found && AtPrepare !in faults;
      if prepared {
        ids := SeeManifest(job);
      }
    }

    /** The stores will hold what the version has, or already do when it is active. */
    ghost predicate Fillable(job: Job, storedVector: set<string>, storedGraph: set<string>)
      reads this, store, vector, graph
    {
      var ids := IdSet(plan(job.versionId).chunkIds);
      if && ActiveIs(store.State(), job.documentId, job.versionId)
         && job.versionId in store.versions && store.versions[job.versionId].status == Ready
      then StoresAgree(vector.entries, graph.entries, job.versionId, ids)
      else storedVector == storedGraph == ids
    }

    /**
     The handler of an import job. Whatever fails, and whatever the others do
     meanwhile, the installation stays safe, watched documents keep the entries
     of their active versions, and the stores change at most at the job's own
     version. Without publication no document gains a version;
     with it, only the job's document does, and only this version. A normal
     return means that both stores held exactly the version's chunks and, if
     publication was asked for, that the version was published or active before.
     Left to itself, with stores that keep what they are given, it publishes a
     complete version; when a call fails it marks the version unusable unless it is
     active; and without its lease it writes nothing at all.
     */
    method ProcessImport(job: Job, publish: bool, storedVector: set<string>, storedGraph: set<string>)
      returns (raised: Option<Raised>, published: bool)
      requires Safe(job) && job.operation != DeleteDocument
      modifies this`clock, this`script, this`memory, store, vector, graph
      ensures Safe(job)
      ensures !published ==> OnlyWithdraws(old(store.State()), store.State())
      ensures OnlyPublishes(old(store.State()), store.State(), job.documentId, job.versionId)
      ensures vector.entries - {job.versionId} == old(vector.entries) - {job.versionId}
      ensures graph.entries - {job.versionId} == old(graph.entries) - {job.versionId}
      ensures raised.None? ==>
        && StoresAgree(vector.entries, graph.entries, job.versionId, IdSet(plan(job.versionId).chunkIds))
        && memory.verified
      ensures published ==> publish
      ensures raised.None? && publish ==> published || ActiveIs(old(store.State()), job.documentId, job.versionId)
      ensures raised.None? ==> Shows(job, 99)
      ensures old(Calm(job)) && faults == {} && old(Fillable(job, storedVector, storedGraph)) ==>
        raised.None? && Calm(job) && (publish ==> IsActive(store.State(), job.documentId, job.versionId))
      ensures old(Calm(job)) && AtPrepare !in faults && AtFailureRecord !in faults ==>
        Calm(job) && (raised.Some? ==> raised == Some(OtherError) && Recorded(job))
      ensures old(Lost(job)) ==>
        && raised.Some? && !published && Scene() == old(Scene())
        && vector.entries == old(vector.entries) && graph.entries == old(graph.entries)
    {
      var prepared, active, ids := Prepare(job);
      if !prepared {
        return Some(OtherError), false;
      }
      ghost var read := store.State();
      raised, published := ImportPrepared(job, publish, active, ids, storedVector, storedGraph);
      PublicationComposes(old(store.State()), read, store.State(), job.documentId, job.versionId);
    }

    /** A failure is on record: the version is unusable, unless it is what its document shows. */
    ghost predicate Recorded(job: Job)
      reads store
    {
      || (job.versionId in store.versions && store.versions[job.versionId].status == Unusable)
      || ActiveIs(store.State(), job.documentId, job.versionId)
    }

    /** The guarded body, and the record of its failure unless the lease was lost. */
    method ImportPrepared(
      job: Job, publish: bool, active: bool, ids: Option<set<string>>,
      storedVector: set<string>, storedGraph: set<string>)
      returns (raised: Option<Raised>, published: bool)
      requires Safe(job) && job.operation != DeleteDocument && memory.ids == ids
      requires !active ==> memory.sawInactive
      modifies this`clock, this`script, this`memory, store, vector, graph
      ensures Safe(job)
      ensures !published ==> OnlyWithdraws(old(store.State()), store.State())
      ensures OnlyPublishes(old(store.State()), store.State(), job.documentId, job.versionId)
      ensures vector.entries - {job.versionId} == old(vector.entries) - {job.versionId}
      ensures graph.entries - {job.versionId} == old(graph.entries) - {job.versionId}
      ensures raised.None? ==> memory.verified
      ensures raised.None? && publish && !active ==> published
      ensures raised.None? ==> Shows(job, 99)
      ensures published ==> publish && !active
      ensures old(Calm(job)) && faults == {} && ids.Some?
              && (if active then StoresAgree(old(vector.entries), old(graph.entries), job.versionId, ids.value)
                  else storedVector == storedGraph == ids.value) ==>
        && raised.None? && Calm(job)
        && (active ==> store.versions == old(store.versions) && store.documents == old(store.documents))
        && (publish && !active ==> IsActive(store.State(), job.documentId, job.versionId))
      ensures old(Calm(job)) && AtFailureRecord !in faults ==>
        Calm(job) && (raised.Some? ==> raised == Some(OtherError) && Recorded(job))
      ensures old(Lost(job)) ==>
        && raised.Some? && !published && Scene() == old(Scene())
        && vector.entries == old(vector.entries) && graph.entries == old(graph.entries)
    {
      raised, published := ImportBody(job, publish, active, ids, storedVector, storedGraph);
      assert raised in {None, Some(LeaseError), Some(OtherError)} by {
        assert raised.Some? ==> raised.value == LeaseError || raised.value == OtherError;
      }
      if raised == Some(OtherError) && AtFailureRecord !in faults {
        ghost var failed := store.State();
        var failure := RecordFailure(job);
        PublicationComposes(old(store.State()), failed, store.State(), job.documentId, job.versionId);
        raised := Some(failure);
      }
    }

    /** Marks the version unusable unless a fresh reading shows it active. */
    method RecordFailure(job: Job) returns (raised: Raised)
      requires Safe(job) && job.operation != DeleteDocument
      modifies this`clock, this`script, this`memory, store
      ensures Safe(job) && OnlyWithdraws(old(store.State()), store.State())
      ensures old(Calm(job)) ==>
        Calm(job) && raised == OtherError && Recorded(job)
      ensures old(Lost(job)) ==> Scene() == old(Scene())
    {
      raised := OtherError;
      var present, active := SeeDocument(job);
      if !present || !active {
        var error := Mark(job, Unusable, Some("failure"));
        if error.Some? {
          raised := error.value;
        }
      }
    }

    /** As for one target, and again after it: the stores keep what they are given, and what is active is in them. */
    ghost predicate Rebuildable(job: Job, storedVector: set<string>, storedGraph: set<string>)
      reads this, store, vector, graph
    {
      && storedVector == storedGraph == IdSet(plan(job.versionId).chunkIds)
      && Fillable(job, storedVector, storedGraph)
    }

    /** Builds every target of the job in both stores, without publishing; `targets[i]` says whether it can be built. */
    method BuildTargets(job: Job, targets: seq<bool>, storedVector: set<string>, storedGraph: set<string>)
      returns (raised: Option<Raised>)
      requires Safe(job) && job.operation != DeleteDocument && |targets| > 0
      modifies this`clock, this`script, this`memory, store, vector, graph
      ensures Safe(job) && OnlyWithdraws(old(store.State()), store.State())
      ensures vector.entries - {job.versionId} == old(vector.entries) - {job.versionId}
      ensures graph.entries - {job.versionId} == old(graph.entries) - {job.versionId}
      ensures raised.None? ==> memory.verified
      ensures old(Calm(job)) && AtPrepare !in faults && AtFailureRecord !in faults ==>
        Calm(job) && raised != Some(LeaseError)
      ensures old(Calm(job)) && faults == {} && (forall target <- targets :: target)
              && old(Rebuildable(job, storedVector, storedGraph)) ==>
        raised.None? && Calm(job) && Rebuildable(job, storedVector, storedGraph)
      ensures old(Lost(job)) ==>
        && raised.Some? && Scene() == old(Scene())
        && vector.entries == old(vector.entries) && graph.entries == old(graph.entries)
    {
      raised := None;
      ghost var calm, lost := Calm(job) && AtPrepare !in faults && AtFailureRecord !in faults, Lost(job);
      ghost var smooth := Calm(job) && faults == {} && Rebuildable(job, storedVector, storedGraph);
      for i := 0 to |targets|
        invariant Safe(job) && OnlyWithdraws(old(store.State()), store.State())
        invariant vector.entries - {job.versionId} == old(vector.entries) - {job.versionId}
        invariant graph.entries - {job.versionId} == old(graph.entries) - {job.versionId}
        invariant i > 0 ==> memory.verified
        invariant raised.None? && (calm ==> Calm(job))
        invariant smooth ==> Rebuildable(job, storedVector, storedGraph)
        invariant lost ==> i == 0 && Lost(job)
        invariant i == 0 ==>
          && Scene() == old(Scene()) && vector.entries == old(vector.entries) && graph.entries == old(graph.entries)
      {
        assert targets[i] in targets;
        ghost var before := store.State();
        raised := BuildTarget(job, targets[i], storedVector, storedGraph);
        WithdrawalComposes(old(store.State()), before, store.State());
        if raised.Some? {
          return;
        }
      }
    }

    /** Builds one target. */
    method BuildTarget(job: Job, target: bool, storedVector: set<string>, storedGraph: set<string>)
      returns (raised: Option<Raised>)
      requires Safe(job) && job.operation != DeleteDocument
      modifies this`clock, this`script, this`memory, store, vector, graph
      ensures Safe(job) && OnlyWithdraws(old(store.State()), store.State())
      ensures vector.entries - {job.versionId} == old(vector.entries) - {job.versionId}
      ensures graph.entries - {job.versionId} == old(graph.entries) - {job.versionId}
      ensures raised.None? ==> memory.verified
      ensures old(Calm(job)) && AtPrepare !in faults && AtFailureRecord !in faults ==>
        Calm(job) && raised != Some(LeaseError)
      ensures old(Calm(job)) && faults == {} && target && old(Rebuildable(job, storedVector, storedGraph)) ==>
        raised.None? && Rebuildable(job, storedVector, storedGraph)
      ensures old(Lost(job)) ==>
        && raised.Some? && Scene() == old(Scene())
        && vector.entries == old(vector.entries) && graph.entries == old(graph.entries)
    {
      if !target {
        return Some(OtherError);
      }
      var published;
      raised, published := ProcessImport(job, false, storedVector, storedGraph);
    }

    /** Marks a version that is not active as indexing, and builds the targets. */
    method Build(job: Job, active: bool, targets: seq<bool>, storedVector: set<string>, storedGraph: set<string>)
      returns (raised: Option<Raised>)
      requires Safe(job) && job.operation != DeleteDocument && |targets| > 0
      requires !active ==> memory.sawInactive
      modifies this`clock, this`script, this`memory, store, vector, graph
      ensures Safe(job) && OnlyWithdraws(old(store.State()), store.State())
      ensures vector.entries - {job.versionId} == old(vector.entries) - {job.versionId}
      ensures graph.entries - {job.versionId} == old(graph.entries) - {job.versionId}
      ensures raised.None? ==> memory.verified
      ensures old(Calm(job)) && AtPrepare !in faults && AtFailureRecord !in faults ==>
        Calm(job) && raised != Some(LeaseError)
      ensures old(Calm(job)) && faults == {} && (forall target <- targets :: target)
              && old(Rebuildable(job, storedVector, storedGraph)) ==>
        raised.None?
      ensures old(Lost(job)) ==>
        && raised.Some? && Scene() == old(Scene())
        && vector.entries == old(vector.entries) && graph.entries == old(graph.entries)
      ensures old(Lost(job)) && !active ==> raised == Some(LeaseError)
    {
      raised := None;
      if !active {
        raised := Mark(job, Indexing, None);
        if raised.Some? { return; }
      }
      ghost var marked := store.State();
      raised := BuildTargets(job, targets, storedVector, storedGraph);
      WithdrawalComposes(old(store.State()), marked, store.State());
    }

    /** Publishes the version, or only its index heads when it was already active. */
    method ConcludeSelected(job: Job, active: bool) returns (raised: Option<Raised>, published: bool)
      requires Safe(job) && job.operation != DeleteDocument && memory.verified
      modifies this`clock, this`script, this`memory, store
      ensures Safe(job) && memory.verified
      ensures !published ==> OnlyWithdraws(old(store.State()), store.State())
      ensures OnlyPublishes(old(store.State()), store.State(), job.documentId, job.versionId)
      ensures published ==> !active
      ensures raised.None? && !active ==> published
      ensures raised.None? ==> Shows(job, 99)
      ensures old(Calm(job)) ==> Calm(job) && raised != Some(LeaseError)
      ensures old(Calm(job)) && faults == {} ==>
        raised.None? && (!active ==> IsActive(store.State(), job.documentId, job.versionId))
      ensures old(Lost(job)) ==> raised.Some? && !published && Scene() == old(Scene())
    {
      published := false;
      if BeforePublish in faults || (active && AtHeads in faults) {
        return Some(OtherError), false;
      }
      raised, published := Conclude(job, !active);
    }

    /** The document shows the version, and the version is ready. */
    ghost predicate ReadyIs(job: Job)
      reads store
    {
      && ActiveIs(store.State(), job.documentId, job.versionId)
      && job.versionId in store.versions && store.versions[job.versionId].status == Ready
    }

    /** The readings a job with targets starts from. */
    method Admit(job: Job) returns (admitted: bool, active: bool)
      requires Safe(job) && job.operation != DeleteDocument
      modifies this`clock, this`script, this`memory, store
      ensures Safe(job) && OnlyWithdraws(old(store.State()), store.State())
      ensures !active ==> memory.sawInactive
      ensures active ==> ActiveIs(old(store.State()), job.documentId, job.versionId)
      ensures admitted && job.operation == BuildIndex ==> active
      ensures old(script) == [] ==>
        && Scene() == old(Scene()) && (active <==> ReadyIs(job))
        && (admitted <==>
              && job.documentId in store.documents && store.documents[job.documentId].deletedAt.None?
              && job.versionId in store.versions && (job.operation == BuildIndex ==> active))
    {
      var present, shown := SeeDocument(job);
      var deleted := present && store.documents[job.documentId].deletedAt.Some?;
      var found, ready := SeeVersion(job);
      active := shown && ready;
      admitted := present && found && !deleted && (job.operation == BuildIndex ==> active);
    }

    /**
     The handler of jobs that name their index targets. As for an import, and a
     normal return means that the version was published or active before.
     */
    method ProcessSelected(job: Job, targets: seq<bool>, storedVector: set<string>, storedGraph: set<string>)
      returns (raised: Option<Raised>, published: bool)
      requires Safe(job) && job.operation != DeleteDocument && |targets| > 0
      modifies this`clock, this`script, this`memory, store, vector, graph
      ensures Safe(job)
      ensures !published ==> OnlyWithdraws(old(store.State()), store.State())
      ensures OnlyPublishes(old(store.State()), store.State(), job.documentId, job.versionId)
      ensures vector.entries - {job.versionId} == old(vector.entries) - {job.versionId}
      ensures graph.entries - {job.versionId} == old(graph.entries) - {job.versionId}
      ensures raised.None? ==>
        StoresAgree(vector.entries, graph.entries, job.versionId, IdSet(plan(job.versionId).chunkIds))
      ensures job.operation == BuildIndex ==> !published
      ensures raised.None? ==> published || ActiveIs(old(store.State()), job.documentId, job.versionId)
      ensures raised.None? ==> Shows(job, 99)
      ensures old(Calm(job)) && faults == {} && (forall target <- targets :: target)
              && old(Rebuildable(job, storedVector, storedGraph))
              && (job.operation == BuildIndex ==> old(ReadyIs(job))) ==>
        raised.None? && (old(!ReadyIs(job)) ==> IsActive(store.State(), job.documentId, job.versionId))
      ensures old(Calm(job)) && raised.Some? && AtPrepare !in faults && AtFailureRecord !in faults
              && job.operation != BuildIndex && old(!ReadyIs(job)) ==>
        raised == Some(OtherError) && Recorded(job)
      ensures old(Lost(job)) ==>
        && raised.Some? && !published && Scene() == old(Scene())
        && vector.entries == old(vector.entries) && graph.entries == old(graph.entries)
    {
      var admitted, active := Admit(job);
      if !admitted {
        return Some(OtherError), false;
      }
      ghost var read := store.State();
      raised, published := SelectedAdmitted(job, active, targets, storedVector, storedGraph);
      PublicationComposes(old(store.State()), read, store.State(), job.documentId, job.versionId);
    }

    /** The guarded body, and the record of its failure for a version that was not active. */
    method SelectedAdmitted(
      job: Job, active: bool, targets: seq<bool>, storedVector: set<string>, storedGraph: set<string>)
      returns (raised: Option<Raised>, published: bool)
      requires Safe(job) && job.operation != DeleteDocument && |targets| > 0
      requires !active ==> memory.sawInactive
      modifies this`clock, this`script, this`memory, store, vector, graph
      ensures Safe(job)
      ensures !published ==> OnlyWithdraws(old(store.State()), store.State())
      ensures OnlyPublishes(old(store.State()), store.State(), job.documentId, job.versionId)
      ensures vector.entries - {job.versionId} == old(vector.entries) - {job.versionId}
      ensures graph.entries - {job.versionId} == old(graph.entries) - {job.versionId}
      ensures raised.None? ==> memory.verified && (published || active)
      ensures raised.None? ==> Shows(job, 99)
      ensures published ==> !active
      ensures old(Calm(job)) && faults == {} && (forall target <- targets :: target)
              && old(Rebuildable(job, storedVector, storedGraph)) ==>
        raised.None? && (!active ==> IsActive(store.State(), job.documentId, job.versionId))
      ensures old(Calm(job)) && AtPrepare !in faults && AtFailureRecord !in faults && raised.Some? && !active ==>
        raised == Some(OtherError) && Recorded(job)
      ensures old(Lost(job)) ==>
        && raised.Some? && !published && Scene() == old(Scene())
        && vector.entries == old(vector.entries) && graph.entries == old(graph.entries)
    {
      raised, published := SelectedBody(job, active, targets, storedVector, storedGraph);
      assert raised in {None, Some(LeaseError), Some(OtherError)} by {
        assert raised.Some? ==> raised.value == LeaseError || raised.value == OtherError;
      }
      if raised == Some(OtherError) && !active {
        ghost var failed := store.State();
        var failure := RecordFailure(job);
        PublicationComposes(old(store.State()), failed, store.State(), job.documentId, job.versionId);
        raised := Some(failure);
      }
    }

    method SelectedBody(
      job: Job, active: bool, targets: seq<bool>, storedVector: set<string>, storedGraph: set<string>)
      returns (raised: Option<Raised>, published: bool)
      requires Safe(job) && job.operation != DeleteDocument && |targets| > 0
      requires !active ==> memory.sawInactive
      modifies this`clock, this`script, this`memory, store, vector, graph
      ensures Safe(job)
      ensures !published ==> OnlyWithdraws(old(store.State()), store.State())
      ensures OnlyPublishes(old(store.State()), store.State(), job.documentId, job.versionId)
      ensures vector.entries - {job.versionId} == old(vector.entries) - {job.versionId}
      ensures graph.entries - {job.versionId} == old(graph.entries) - {job.versionId}
      ensures raised.None? ==> memory.verified && (published || active)
      ensures raised.None? ==> Shows(job, 99)
      ensures published ==> !active
      ensures old(Calm(job)) && AtPrepare !in faults && AtFailureRecord !in faults ==>
        Calm(job) && raised != Some(LeaseError)
      ensures old(Calm(job)) && faults == {} && (forall target <- targets :: target)
              && old(Rebuildable(job, storedVector, storedGraph)) ==>
        raised.None? && (!active ==> IsActive(store.State(), job.documentId, job.versionId))
      ensures old(Lost(job)) ==>
        && raised.Some? && !published && Scene() == old(Scene())
        && vector.entries == old(vector.entries) && graph.entries == old(graph.entries)
    {
      published := false;
      raised := Build(job, active, targets, storedVector, storedGraph);
      if raised.Some? { return; }
      ghost var built := store.State();
      raised, published := ConcludeSelected(job, active);
      PublicationComposes(old(store.State()), built, store.State(), job.documentId, job.versionId);
    }

    // ----- Deletion -----

    /** Erases an indexed document from one store and reports progress. */
    method EraseFrom(
      job: Job, indexed: bool, target: ChunkStore, survivors: set<string>, percent: int, after: Point)
      returns (raised: Option<Raised>)
      requires Safe(job) && job.operation == DeleteDocument
      requires target == vector || target == graph
      modifies this`clock, this`script, store, target
      ensures Safe(job) && OnlyWithdraws(old(store.State()), store.State())
      ensures ErasesOnly(plan, old(target.entries), target.entries, job.documentId)
      ensures raised.None? && indexed ==> forall v :: v in target.entries ==> plan(v).documentId != job.documentId
      ensures !indexed ==> target.entries == old(target.entries)
      ensures old(Held(job)) ==> Held(job) && raised != Some(LeaseError)
      ensures old(Held(job)) && survivors == {} && after !in faults ==> raised.None?
    {
      Others(job);
      if indexed {
        var complete := Erase(job, target, survivors);
        if !complete {
          return Some(OtherError);
        }
      }
      raised := ReportProgress(job, percent);
      if raised.None? && after in faults {
        raised := Some(OtherError);
      }
    }

    /** The call into the store. */
    method Erase(job: Job, target: ChunkStore, survivors: set<string>) returns (complete: bool)
      requires Safe(job) && job.operation == DeleteDocument
      requires target == vector || target == graph
      modifies target
      ensures Safe(job) && ErasesOnly(plan, old(target.entries), target.entries, job.documentId)
      ensures complete ==> forall v :: v in target.entries ==> plan(v).documentId != job.documentId
      ensures survivors == {} ==> complete
    {
      ghost var before := Now(job);
      complete := target.DeleteDocument(plan, job.documentId, survivors);
      ghost var e := if target == vector then EraseVector(target.entries) else EraseGraph(target.entries);
      StepIsSafe(plan, before, e, watched);
      assert Now(job) == Effect(before, e);
    }

    /**
     The handler of a deletion job, while the document's own deletions keep their
     order. It runs on a tombstoned document only, reaches only entries of that
     document, and for an indexed document returns normally only when neither store
     holds any of them. Left to itself, with stores that erase what they are told
     to, it returns normally; and without its lease it erases nothing.
     */
    method ProcessDelete(job: Job, indexed: bool, survivorsVector: set<string>, survivorsGraph: set<string>)
      returns (raised: Option<Raised>)
      requires Safe(job) && job.operation == DeleteDocument
      modifies this`clock, this`script, store, vector, graph
      ensures Safe(job) && Tombstoned(store.State(), job.documentId)
      ensures OnlyWithdraws(old(store.State()), store.State())
      ensures ErasesOnly(plan, old(vector.entries), vector.entries, job.documentId)
      ensures ErasesOnly(plan, old(graph.entries), graph.entries, job.documentId)
      ensures raised.None? && indexed ==>
        forall v :: v in vector.entries || v in graph.entries ==> plan(v).documentId != job.documentId
      ensures !indexed ==> vector.entries == old(vector.entries) && graph.entries == old(graph.entries)
      ensures raised.None? ==> Shows(job, 99)
      ensures old(Held(job)) && faults == {} && survivorsVector == survivorsGraph == {} ==> raised.None?
      ensures old(Lost(job)) ==>
        && raised == Some(LeaseError) && Scene() == old(Scene())
        && vector.entries == old(vector.entries) && graph.entries == old(graph.entries)
    {
      CleanupFindsTombstone(plan, Now(job));
      raised := CheckLease(job);
      if raised.None? {
        raised := if AtInvalidate in faults then Some(OtherError) else None;
      }
      if raised.None? {
        raised := EraseStores(job, indexed, survivorsVector, survivorsGraph);
      }
      CleanupFindsTombstone(plan, Now(job));
    }

    /** Both stores and the files, with the lease checked before each. */
    method EraseStores(job: Job, indexed: bool, survivorsVector: set<string>, survivorsGraph: set<string>)
      returns (raised: Option<Raised>)
      requires Safe(job) && job.operation == DeleteDocument
      modifies this`clock, this`script, store, vector, graph
      ensures Safe(job) && OnlyWithdraws(old(store.State()), store.State())
      ensures ErasesOnly(plan, old(vector.entries), vector.entries, job.documentId)
      ensures ErasesOnly(plan, old(graph.entries), graph.entries, job.documentId)
      ensures raised.None? && indexed ==>
        forall v :: v in vector.entries || v in graph.entries ==> plan(v).documentId != job.documentId
      ensures !indexed ==> vector.entries == old(vector.entries) && graph.entries == old(graph.entries)
      ensures raised.None? ==> Shows(job, 99)
      ensures old(Held(job)) && faults == {} && survivorsVector == survivorsGraph == {} ==> raised.None?
    {
      raised := EraseFrom(job, indexed, vector, survivorsVector, 35, AfterDeleteVector);
      if raised.Some? { return; }
      raised := CheckLease(job);
      if raised.Some? { return; }
      raised := EraseFrom(job, indexed, graph, survivorsGraph, 70, AfterDeleteGraph);
      if raised.Some? { return; }
      raised := CheckLease(job);
      if raised.Some? { return; }
      if AtFiles in faults {
        return Some(OtherError);
      }
      raised := ReportProgress(job, 99);
      if raised.None? && AfterDeleteFiles in faults {
        raised := Some(OtherError);
      }
    }
  }
}
