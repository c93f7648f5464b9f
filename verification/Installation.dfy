/**
 One installation: the metadata database, the two retrieval stores, the clock
 and whichever process holds the kernel lock, with every interleaving of
 importers, a deleter, operators, heartbeat threads, the worker and crashes.

 A version identifier is derived from the content and the fingerprints, so all
 importers agree on its document and chunks: that agreement is the `plan`.
 */
module Installation {
  import opened Wrappers
  import opened Metadata
  import opened Transactions

  datatype VersionPlan = VersionPlan(documentId: string, chunkIds: seq<string>)

  type Plan = string -> VersionPlan

  /** The chunk identifiers that a retrieval store holds for each version. */
  type Entries = map<string, set<string>>

  function IdSet(chunkIds: seq<string>): set<string> {
    set c | c in chunkIds
  }

  /**
   What the running handler remembers: whether its last reading of the document
   showed its version active, whether its readings entitle it to treat the
   version as inactive, the identifiers of a staged manifest that matched its
   digest, and that both stores were found equal to them.
   */
  datatype Handler = Handler(sawActive: bool, sawInactive: bool, ids: Option<set<string>>, verified: bool)

  /** The process that holds the kernel lock, if any, and how far it is. */
  datatype Phase =
    | Free
    | Locked(owner: string)
    | Acquired(owner: string)
    | Handling(owner: string, job: Job, handler: Handler)
    | Finished(owner: string)

  datatype Sys = Sys(db: Db, clock: Time, vector: Entries, graph: Entries, phase: Phase)

  datatype Event =
    | Tick(instant: Time)
    | Outside(transaction: Transaction)
    | TakeLock(holder: string)
    | Recover(now: Time)
    | AcquireLease(now: Time, expires: Time)
    | ClaimJob(now: Time, expires: Time, target: Option<JobId>)
    | ReadDocument
    | ReadVersion
    | ReadManifest
    | MarkVersionRow(status: VersionStatus, failureCode: Option<string>)
    | UpsertVector(got: set<string>)
    | UpsertGraph(got: set<string>)
    | VerifyStores
    | PublishRow(heads: bool)
    | EraseVector(left: Entries)
    | EraseGraph(left: Entries)
    | FinishRow(succeeded: bool, errorCode: Option<string>)
    | ReleaseLease
    | Unlock
    | Crash

  // ----- What each participant may do -----

  predicate FreshRow(job: Job) {
    && job.status == Queued && job.attemptCount == 0
    && job.leaseOwner.None? && job.leaseExpires.None? && job.heartbeatAt.None?
  }

  /**
   The new cleanup job, dated `now`, sorts after every earlier cleanup job of its
   document: by its reading of the clock and, at the same reading, by its identifier.
   */
  predicate SortsLast(db: Db, job: Job, now: Time) {
    forall x | x in db.jobs && IsDeleteOf(db.jobs[x], job.documentId) ::
      Before(db.jobs[x], job.(createdAt := now))
  }

  /** The transactions that processes without the kernel lock issue, as their call sites build them. */
  predicate IssuedOutside(plan: Plan, db: Db, clock: Time, t: Transaction) {
    match t
    case StoreDocument(id, _, active, _) => id !in db.documents ==> active.None?
    case StoreVersion(id, v) =>
      v == Version(plan(id).documentId, |plan(id).chunkIds|, plan(id).chunkIds, Staged, None)
    case StoreChunks(id, chunkIds) => chunkIds == plan(id).chunkIds
    case Submit(job, _, now) =>
      && FreshRow(job) && job.operation != DeleteDocument && now <= clock
      && job.documentId == plan(job.versionId).documentId
    case Delete(id, _, job, _, now) => FreshRow(job) && !KeyTaken(db, job.key) && now <= clock
    case Retry(id, includeSucceeded, now) =>
      now <= clock && (includeSucceeded && id in db.jobs ==> db.jobs[id].operation != DeleteDocument)
    case Progress(_, _, _, now) => now <= clock
    case Beat(_, _, now, _) => now <= clock
    case _ => false
  }

  ghost predicate Importing(s: Sys) {
    s.phase.Handling? && s.phase.job.operation != DeleteDocument
  }

  ghost predicate Deleting(s: Sys) {
    s.phase.Handling? && s.phase.job.operation == DeleteDocument
  }

  /** A store deletion may fail half way, but it reaches only versions of its own document. */
  ghost predicate ErasesOnly(plan: Plan, before: Entries, left: Entries, documentId: string) {
    forall v :: plan(v).documentId != documentId ==>
      (v in before <==> v in left) && (v in before ==> before[v] == left[v])
  }

  ghost predicate Enabled(plan: Plan, s: Sys, e: Event) {
    match e
    case Tick(instant) => s.clock <= instant
    case Outside(t) => IssuedOutside(plan, s.db, s.clock, t)
    case TakeLock(_) => s.phase.Free?
    case Recover(now) => s.phase.Locked? && now <= s.clock
    case AcquireLease(now, _) => s.phase.Locked? && now <= s.clock
    case ClaimJob(now, _, _) => s.phase.Acquired? && now <= s.clock
    case ReadDocument => Importing(s)
    case ReadVersion => Importing(s) && (s.phase.handler.sawActive || s.phase.handler.sawInactive)
    case ReadManifest => Importing(s)
    case MarkVersionRow(status, _) =>
      Importing(s) && s.phase.handler.sawInactive && (status == Indexing || status == Unusable)
    case UpsertVector(_) => Importing(s) && s.phase.handler.sawInactive
    case UpsertGraph(_) => Importing(s) && s.phase.handler.sawInactive
    case VerifyStores => Importing(s)
    case PublishRow(_) => Importing(s) && s.phase.handler.verified
    case EraseVector(left) => Deleting(s) && ErasesOnly(plan, s.vector, left, s.phase.job.documentId)
    case EraseGraph(left) => Deleting(s) && ErasesOnly(plan, s.graph, left, s.phase.job.documentId)
    case FinishRow(_, _) => s.phase.Handling?
    case ReleaseLease => s.phase.Finished? || s.phase.Acquired?
    case Unlock => s.phase.Locked?
    case Crash => !s.phase.Free?
  }

  // ----- The effect of each event -----

  predicate ActiveIs(db: Db, documentId: string, versionId: string) {
    documentId in db.documents && db.documents[documentId].active == Some(versionId)
  }

  function ReadIds(db: Db, versionId: string): Option<set<string>> {
    if && versionId in db.versions
       && |Rows(db, versionId)| == db.versions[versionId].expected
       && Rows(db, versionId) == db.versions[versionId].digest
    then Some(IdSet(Rows(db, versionId)))
    else None
  }

  predicate StoresAgree(vector: Entries, graph: Entries, versionId: string, ids: set<string>) {
    versionId in vector && versionId in graph && vector[versionId] == ids && graph[versionId] == ids
  }

  ghost function Remember(s: Sys, handler: Handler): Sys
    requires s.phase.Handling?
  {
    s.(phase := s.phase.(handler := handler))
  }

  ghost function HandlerStep(s: Sys, e: Event): Sys
    requires s.phase.Handling?
  {
    var job, h := s.phase.job, s.phase.handler;
    match e
    case ReadDocument =>
      var active := ActiveIs(s.db, job.documentId, job.versionId);
      Remember(s, h.(sawActive := active, sawInactive := !active))
    case ReadVersion =>
      var ready := job.versionId in s.db.versions && s.db.versions[job.versionId].status == Ready;
      Remember(s, h.(sawInactive := !(h.sawActive && ready)))
    case ReadManifest => Remember(s, h.(ids := ReadIds(s.db, job.versionId), verified := false))
    case MarkVersionRow(status, code) =>
      s.(db := SetVersionStatus(s.db, job.versionId, status, code, Some(job), s.clock).db)
    case UpsertVector(got) => Remember(s.(vector := s.vector[job.versionId := got]), h.(verified := false))
    case UpsertGraph(got) => Remember(s.(graph := s.graph[job.versionId := got]), h.(verified := false))
    case VerifyStores =>
      Remember(s, h.(verified := h.ids.Some? && StoresAgree(s.vector, s.graph, job.versionId, h.ids.value)))
    case PublishRow(heads) =>
      Remember(s.(db := PublishVersion(s.db, job.versionId, job, heads, s.clock).db),
               h.(sawActive := false, sawInactive := false))
    case EraseVector(left) => s.(vector := left)
    case EraseGraph(left) => s.(graph := left)
    case FinishRow(succeeded, code) =>
      s.(db := FinishJob(s.db, job.jobId, s.phase.owner, succeeded, code, Some(job), s.clock).db,
        phase := Finished(s.phase.owner))
    case _ => s
  }

  ghost function Effect(s: Sys, e: Event): Sys {
    match e
    case Tick(instant) => s.(clock := instant)
    case Outside(t) => s.(db := Apply(s.db, t, s.clock).db)
    case TakeLock(owner) => s.(phase := Locked(owner))
    case Recover(now) => s.(db := Reconcile(s.db, now).db)
    case Unlock => s.(phase := Free)
    case Crash => s.(phase := Free)
    case AcquireLease(now, expires) =>
      if !s.phase.Locked? then s else
      s.(db := AcquireWriter(s.db, s.phase.owner, now, expires).db,
        phase := if WriterAvailable(s.db, s.phase.owner, now) then Acquired(s.phase.owner) else s.phase)
    case ClaimJob(now, expires, target) =>
      if !s.phase.Acquired? then s else
      var db' := ClaimNextJob(s.db, s.phase.owner, now, expires, target).db;
      var next := Next(s.db, now, target);
      s.(db := db', phase :=
        if next.Some? then Handling(s.phase.owner, db'.jobs[next.value], Handler(false, false, None, false))
        else Finished(s.phase.owner))
    case ReleaseLease =>
      if !(s.phase.Finished? || s.phase.Acquired?) then s else
      s.(db := ReleaseWriter(s.db, s.phase.owner).db, phase := Locked(s.phase.owner))
    case _ => if s.phase.Handling? then HandlerStep(s, e) else s
  }

  ghost predicate Initial(s: Sys) {
    && s.db == Db(map[], map[], map[], map[], Writer(None, None))
    && s.vector == map[] && s.graph == map[] && s.phase == Free
  }

  /** A deletion of the document is not dated back behind an earlier cleanup job of it. */
  predicate Ordered(db: Db, e: Event, d: string) {
    e.Outside? && e.transaction.Delete? && e.transaction.documentId == d ==>
      SortsLast(db, e.transaction.submission, e.transaction.now)
  }

  /** Names a moment of a run, so that a proof unfolds only the steps it mentions. */
  predicate Moment(i: int) { true }

  /** A run: states before and after each event, from an empty installation. */
  ghost predicate Run(plan: Plan, states: seq<Sys>, events: seq<Event>) {
    && |states| == |events| + 1
    && Initial(states[0])
    && forall i {:trigger Moment(i)} :: Moment(i) && 0 <= i < |events| ==>
         Enabled(plan, states[i], events[i]) && states[i + 1] == Effect(states[i], events[i])
  }

  /** No deletion of the document before moment i is dated back. */
  ghost predicate DeletionsOrdered(states: seq<Sys>, events: seq<Event>, i: nat, d: string)
    requires i <= |events| < |states|
  {
    forall n {:trigger Moment(n)} :: Moment(n) && 0 <= n < i ==> Ordered(states[n].db, events[n], d)
  }
}
