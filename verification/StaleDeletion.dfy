/**
 What happens when a deletion is dated back. The reading that dates a cleanup
 job is taken before its transaction, so it may lie behind an earlier cleanup
 job of the document; then the deletion can be undone while its job is queued.
 */
module StaleDeletion {
  import opened Wrappers
  import opened Metadata
  import opened Transactions
  import opened Installation
  import opened Cleanup
  import opened Exclusion
  import MetadataStore

  /** The cleanup jobs of a document have a latest one. */
  lemma {:induction false} LatestExists(db: Db, d: string, rows: set<JobId>) returns (id: JobId)
    requires Keyed(db) && (exists x :: x in rows) && forall x :: x in rows ==> x in db.jobs && IsDeleteOf(db.jobs[x], d)
    ensures id in rows && forall x :: x in rows ==> x == id || Before(db.jobs[x], db.jobs[id])
    decreases |rows|
  {
    id :| id in rows;
    if x :| x in rows && x != id {
      var rest := rows - {id};
      assert x in rest;
      var other := LatestExists(db, d, rest);
      forall y | y in rows ensures y == id || y in rest { }
      if Before(db.jobs[id], db.jobs[other]) {
        id := other;
      }
    }
  }

  /** Restoring is possible exactly when the latest cleanup job has succeeded, and there is one. */
  lemma LatestDecides(db: Db, d: string, id: JobId)
    requires Keyed(db) && IsLatestDelete(db, d, id)
    ensures CleanupSucceeded(db, d) <==> db.jobs[id].status == Succeeded
  {
  }

  lemma CleanupJobsAfterDeletion(db: Db, d: string, expected: Option<string>, job: Job, room: nat, now: Time)
    requires Keyed(db) && !KeyTaken(db, job.key) && d in db.documents && !Tombstoned(db, d)
    requires TombstoneAndPutJob(db, d, expected, job, room, now).error.None?
    ensures var deleted := TombstoneAndPutJob(db, d, expected, job, room, now).db;
      && Keyed(deleted) && Tombstoned(deleted, d) && job.jobId !in db.jobs && IsDeleteOf(job, d)
      && job.jobId in deleted.jobs && deleted.jobs[job.jobId] == job.(createdAt := now, updatedAt := now)
      && (forall x :: x in db.jobs && IsDeleteOf(db.jobs[x], d) ==> x in deleted.jobs && deleted.jobs[x] == db.jobs[x])
      && (forall x :: x in deleted.jobs && IsDeleteOf(deleted.jobs[x], d) && x != job.jobId ==>
            x in db.jobs && deleted.jobs[x] == db.jobs[x])
  {
  }

  /**
   The condition of the guarantee, from the caller's side. After a live document
   was tombstoned, an immediate restore is refused if and only if the new cleanup
   job sorts after the earlier ones. If it does not, the restore leaves the
   document live with its cleanup job queued.
   */
  lemma RestoreIsRefusedExactlyWhenOrdered(
    db: Db, d: string, expected: Option<string>, job: Job, room: nat, now: Time, name: string)
    requires Keyed(db) && PendingCleanup(db, d) && FreshRow(job) && !KeyTaken(db, job.key)
    requires d in db.documents && !Tombstoned(db, d)
    requires TombstoneAndPutJob(db, d, expected, job, room, now).error.None?
    ensures var deleted := TombstoneAndPutJob(db, d, expected, job, room, now).db;
      var restored := PutDocument(deleted, d, name, None, true);
      && (restored.error.Some? <==> SortsLast(db, job, now))
      && (restored.error.None? ==>
            && !Tombstoned(restored.db, d)
            && job.jobId in restored.db.jobs && restored.db.jobs[job.jobId].status == Queued)
  {
    var deleted := TombstoneAndPutJob(db, d, expected, job, room, now).db;
    CleanupJobsAfterDeletion(db, d, expected, job, room, now);
    var rows := set x | x in deleted.jobs && IsDeleteOf(deleted.jobs[x], d);
    assert job.jobId in rows;
    var latest := LatestExists(deleted, d, rows);
    assert IsLatestDelete(deleted, d, latest);
    LatestDecides(deleted, d, latest);
    if SortsLast(db, job, now) {
      assert latest == job.jobId;
    } else {
      var x :| x in db.jobs && IsDeleteOf(db.jobs[x], d) && !Before(db.jobs[x], job.(createdAt := now));
      assert x in rows && latest != job.jobId;
      assert db.jobs[latest].status == Succeeded;
    }
  }

  // ----- A run in which cleanup reaches a live document -----

  function CleanupJob(id: JobId, key: string, now: Time): Job {
    Job(id, key, DeleteDocument, "d", "none", "{}", Queued, 0, 0, None, None, None, 0, None, now, now)
  }

  /** The first cleanup, dated 100, claimed and then succeeded. */
  function First(): Job { CleanupJob(1, "x", 100) }

  function FirstClaimed(): Job { Claimed(First(), "w", 100, 200) }

  function FirstDone(): Job { Metadata.Finished(FirstClaimed(), true, None, 100) }

  /** The second cleanup, dated 99. */
  function Second(): Job { CleanupJob(2, "y", 99) }

  function SecondClaimed(): Job { Claimed(Second(), "w", 100, 200) }

  function At(deletedAt: Option<Time>, jobs: map<JobId, Job>, writer: Writer, clock: Time, phase: Phase): Sys {
    Sys(Db(map["d" := Document("n", None, deletedAt)], map[], map[], jobs, writer), clock, map[], map[], phase)
  }

  const IDLE := Writer(None, None)
  const HELD := Writer(Some("w"), Some(200))

  lemma DocumentIsDeleted(plan: Plan)
    ensures Reaches(plan, At(Some(100), map[1 := First()], IDLE, 100, Free))
  {
    var s0 := Sys(Db(map[], map[], map[], map[], IDLE), 0, map[], map[], Free);
    var none: seq<Event> := [];
    assert Run(plan, [s0], none) && [s0][|none|] == s0;
    var s1 := At(None, map[], IDLE, 0, Free);
    assert s1.db.documents == s0.db.documents["d" := Document("n", None, None)];
    Advance(plan, s0, Outside(StoreDocument("d", "n", None, false)), s1);
    var s2 := At(None, map[], IDLE, 100, Free);
    Advance(plan, s1, Tick(100), s2);
    var s3 := At(Some(100), map[1 := First()], IDLE, 100, Free);
    assert s3.db.documents == s2.db.documents["d" := Document("n", None, Some(100))];
    assert SupersedeImports(s2.db, "d", 100).jobs == map[];
    assert s3.db.jobs == map[][1 := First()];
    assert UnfinishedJobs(s2.db) == {};
    Advance(plan, s2, Outside(Delete("d", None, First(), 10, 100)), s3);
  }

  lemma FirstCleanupIsClaimed(plan: Plan)
    ensures Reaches(plan, At(Some(100), map[1 := FirstClaimed()], HELD, 100,
      Handling("w", FirstClaimed(), Handler(false, false, None, false))))
  {
    DocumentIsDeleted(plan);
    var s0 := At(Some(100), map[1 := First()], IDLE, 100, Free);
    Advance(plan, s0, TakeLock("w"), s0.(phase := Locked("w")));
    var s1 := At(Some(100), map[1 := First()], HELD, 100, Acquired("w"));
    Advance(plan, s0.(phase := Locked("w")), AcquireLease(100, 200), s1);
    assert IsNext(s1.db, 100, None, 1);
    MetadataStore.NextFinds(s1.db, 100, None);
    var s2 := At(Some(100), map[1 := FirstClaimed()], HELD, 100,
      Handling("w", FirstClaimed(), Handler(false, false, None, false)));
    assert s2.db.jobs == s1.db.jobs[1 := FirstClaimed()];
    Advance(plan, s1, ClaimJob(100, 200, None), s2);
  }

  lemma FirstCleanupSucceeds(plan: Plan)
    ensures Reaches(plan, At(Some(100), map[1 := FirstDone()], IDLE, 100, Locked("w")))
  {
    FirstCleanupIsClaimed(plan);
    var s0 := At(Some(100), map[1 := FirstClaimed()], HELD, 100,
      Handling("w", FirstClaimed(), Handler(false, false, None, false)));
    var s1 := At(Some(100), map[1 := FirstDone()], HELD, 100, Finished("w"));
    assert s1.db.jobs == s0.db.jobs[1 := FirstDone()];
    Advance(plan, s0, FinishRow(true, None), s1);
    Advance(plan, s1, ReleaseLease, At(Some(100), map[1 := FirstDone()], IDLE, 100, Locked("w")));
  }

  lemma DocumentIsRestored(plan: Plan, jobs: map<JobId, Job>, deletedAt: Time)
    requires jobs == map[1 := FirstDone()] || jobs == map[1 := FirstDone(), 2 := Second()]
    requires Reaches(plan, At(Some(deletedAt), jobs, IDLE, 100, Locked("w")))
    ensures Reaches(plan, At(None, jobs, IDLE, 100, Locked("w")))
  {
    var s0, s1 := At(Some(deletedAt), jobs, IDLE, 100, Locked("w")), At(None, jobs, IDLE, 100, Locked("w"));
    assert IsLatestDelete(s0.db, "d", 1);
    assert s1.db.documents == s0.db.documents["d" := Document("n", None, None)];
    Advance(plan, s0, Outside(StoreDocument("d", "n", None, true)), s1);
  }

  lemma DeletionIsDatedBack(plan: Plan)
    ensures Reaches(plan, At(Some(99), map[1 := FirstDone(), 2 := Second()], IDLE, 100, Locked("w")))
  {
    FirstCleanupSucceeds(plan);
    DocumentIsRestored(plan, map[1 := FirstDone()], 100);
    var s0 := At(None, map[1 := FirstDone()], IDLE, 100, Locked("w"));
    var s1 := At(Some(99), map[1 := FirstDone(), 2 := Second()], IDLE, 100, Locked("w"));
    assert s1.db.documents == s0.db.documents["d" := Document("n", None, Some(99))];
    assert SupersedeImports(s0.db, "d", 99).jobs == s0.db.jobs;
    assert s1.db.jobs == s0.db.jobs[2 := Second()];
    assert UnfinishedJobs(s0.db) == {};
    Advance(plan, s0, Outside(Delete("d", None, Second(), 10, 99)), s1);
  }

  /**
   Without the order the guarantee fails: in this run the second deletion is
   dated 99, behind the first cleanup of 100; the document is imported again at
   once, and the worker comes to erase the entries of a live document.
   */
  lemma BackdatedDeletionErasesALiveDocument(plan: Plan) returns (s: Sys)
    ensures s == At(None, map[1 := FirstDone(), 2 := SecondClaimed()], HELD, 100,
      Handling("w", SecondClaimed(), Handler(false, false, None, false)))
    ensures Reaches(plan, s) && Enabled(plan, s, EraseVector(map[]))
    ensures s.phase.job.documentId == "d" && "d" in s.db.documents && !Tombstoned(s.db, "d")
  {
    DeletionIsDatedBack(plan);
    var jobs := map[1 := FirstDone(), 2 := Second()];
    DocumentIsRestored(plan, jobs, 99);
    var s0 := At(None, jobs, IDLE, 100, Locked("w"));
    var s1 := At(None, jobs, HELD, 100, Acquired("w"));
    Advance(plan, s0, AcquireLease(100, 200), s1);
    assert IsNext(s1.db, 100, None, 2);
    MetadataStore.NextFinds(s1.db, 100, None);
    s := At(None, map[1 := FirstDone(), 2 := SecondClaimed()], HELD, 100,
      Handling("w", SecondClaimed(), Handler(false, false, None, false)));
    assert s.db.jobs == jobs[2 := SecondClaimed()];
    Advance(plan, s1, ClaimJob(100, 200, None), s);
  }

  // ----- A run in which an active version loses its entries -----

  /** The document is live at 100; the version may be filed, in part or whole. */
  function Scene(plan: Plan, active: Option<string>, version: Option<VersionStatus>, chunked: bool,
                 jobs: map<JobId, Job>, writer: Writer, vector: Entries, graph: Entries, phase: Phase): Sys {
    var ids := plan("v").chunkIds;
    var versions := if version.None? then map[] else map["v" := Version("d", |ids|, ids, version.value, None)];
    Sys(Db(map["d" := Document("n", active, None)], versions, if chunked then map["v" := ids] else map[], jobs, writer),
        100, vector, graph, phase)
  }

  /** The second cleanup failed, and is later queued and claimed once more. */
  function SecondFailed(): Job { Metadata.Finished(SecondClaimed(), false, Some("x"), 100) }

  function SecondRetried(): Job {
    SecondFailed().(status := Queued, availableAt := 100, errorCode := None, progress := 0)
  }

  function SecondAgain(): Job { Claimed(SecondRetried(), "w", 100, 200) }

  function Import(): Job {
    Job(3, "z", ImportTxt, "d", "v", "{}", Queued, 0, 0, None, None, None, 0, None, 100, 100)
  }

  function ImportClaimed(): Job { Claimed(Import(), "w", 100, 200) }

  function ImportDone(): Job { Metadata.Finished(ImportClaimed(), true, None, 100) }

  function Jobs(second: Job, third: Job): map<JobId, Job> {
    map[1 := FirstDone(), 2 := second, 3 := third]
  }

  /** The stores hold the version and nothing else. */
  function Held(plan: Plan): Entries { map["v" := IdSet(plan("v").chunkIds)] }

  lemma SecondCleanupFails(plan: Plan)
    ensures Reaches(plan,
      Scene(plan, None, None, false, map[1 := FirstDone(), 2 := SecondFailed()], IDLE, map[], map[], Locked("w")))
  {
    var s := BackdatedDeletionErasesALiveDocument(plan);
    var jobs := map[1 := FirstDone(), 2 := SecondFailed()];
    var s1 := Scene(plan, None, None, false, jobs, HELD, map[], map[], Finished("w"));
    assert jobs == s.db.jobs[2 := SecondFailed()];
    Advance(plan, s, FinishRow(false, Some("x")), s1);
    Advance(plan, s1, ReleaseLease, Scene(plan, None, None, false, jobs, IDLE, map[], map[], Locked("w")));
  }

  lemma VersionIsFiled(plan: Plan)
    requires plan("v").documentId == "d"
    ensures Reaches(plan,
      Scene(plan, None, Some(Staged), true, Jobs(SecondFailed(), Import()), IDLE, map[], map[], Locked("w")))
  {
    SecondCleanupFails(plan);
    var jobs := map[1 := FirstDone(), 2 := SecondFailed()];
    var s0 := Scene(plan, None, None, false, jobs, IDLE, map[], map[], Locked("w"));
    var s1 := Scene(plan, None, Some(Staged), false, jobs, IDLE, map[], map[], Locked("w"));
    var ids := plan("v").chunkIds;
    Advance(plan, s0, Outside(StoreVersion("v", Version("d", |ids|, ids, Staged, None))), s1);
    var s2 := Scene(plan, None, Some(Staged), true, jobs, IDLE, map[], map[], Locked("w"));
    Advance(plan, s1, Outside(StoreChunks("v", ids)), s2);
    assert Jobs(SecondFailed(), Import()) == jobs[3 := Import()];
    Advance(plan, s2, Outside(Submit(Import(), None, 100)),
      Scene(plan, None, Some(Staged), true, Jobs(SecondFailed(), Import()), IDLE, map[], map[], Locked("w")));
  }

  lemma ImportIsClaimed(plan: Plan)
    requires plan("v").documentId == "d"
    ensures Reaches(plan,
      Scene(plan, None, Some(Staged), true, Jobs(SecondFailed(), ImportClaimed()), HELD, map[], map[],
            Handling("w", ImportClaimed(), Handler(false, false, None, false))))
  {
    VersionIsFiled(plan);
    var queued := Jobs(SecondFailed(), Import());
    var s0 := Scene(plan, None, Some(Staged), true, queued, IDLE, map[], map[], Locked("w"));
    var s1 := Scene(plan, None, Some(Staged), true, queued, HELD, map[], map[], Acquired("w"));
    Advance(plan, s0, AcquireLease(100, 200), s1);
    assert IsNext(s1.db, 100, None, 3);
    MetadataStore.NextFinds(s1.db, 100, None);
    assert Jobs(SecondFailed(), ImportClaimed()) == queued[3 := ImportClaimed()];
    Advance(plan, s1, ClaimJob(100, 200, None),
      Scene(plan, None, Some(Staged), true, Jobs(SecondFailed(), ImportClaimed()), HELD, map[], map[],
            Handling("w", ImportClaimed(), Handler(false, false, None, false))));
  }

  /** The handler at work: what it remembers, and what the stores hold by then. */
  function AtWork(plan: Plan, vector: Entries, graph: Entries, handler: Handler): Sys {
    Scene(plan, None, Some(Staged), true, Jobs(SecondFailed(), ImportClaimed()), HELD, vector, graph,
          Handling("w", ImportClaimed(), handler))
  }

  lemma ImportIsVerified(plan: Plan)
    requires plan("v").documentId == "d"
    ensures Reaches(plan, AtWork(plan, Held(plan), Held(plan),
      Handler(false, true, Some(IdSet(plan("v").chunkIds)), true)))
  {
    ImportIsClaimed(plan);
    var ids := IdSet(plan("v").chunkIds);
    var blank, inactive := Handler(false, false, None, false), Handler(false, true, None, false);
    var read := Handler(false, true, Some(ids), false);
    Advance(plan, AtWork(plan, map[], map[], blank), ReadDocument, AtWork(plan, map[], map[], inactive));
    Advance(plan, AtWork(plan, map[], map[], inactive), ReadVersion, AtWork(plan, map[], map[], inactive));
    Advance(plan, AtWork(plan, map[], map[], inactive), ReadManifest, AtWork(plan, map[], map[], read));
    Advance(plan, AtWork(plan, map[], map[], read), UpsertVector(ids), AtWork(plan, Held(plan), map[], read));
    Advance(plan, AtWork(plan, Held(plan), map[], read), UpsertGraph(ids), AtWork(plan, Held(plan), Held(plan), read));
    Advance(plan, AtWork(plan, Held(plan), Held(plan), read), VerifyStores,
      AtWork(plan, Held(plan), Held(plan), read.(verified := true)));
  }

  lemma ImportIsPublished(plan: Plan)
    requires plan("v").documentId == "d"
    ensures Reaches(plan,
      Scene(plan, Some("v"), Some(Ready), true, Jobs(SecondFailed(), ImportDone()), IDLE, Held(plan), Held(plan),
            Locked("w")))
  {
    ImportIsVerified(plan);
    var claimed, done := Jobs(SecondFailed(), ImportClaimed()), Jobs(SecondFailed(), ImportDone());
    var h := Handler(false, true, Some(IdSet(plan("v").chunkIds)), true);
    var s0 := AtWork(plan, Held(plan), Held(plan), h);
    var s1 := Scene(plan, Some("v"), Some(Ready), true, claimed, HELD, Held(plan), Held(plan),
      Handling("w", ImportClaimed(), h.(sawInactive := false)));
    assert s1.db.documents == s0.db.documents["d" := Document("n", Some("v"), None)];
    assert s1.db.versions == s0.db.versions["v" := s0.db.versions["v"].(status := Ready)];
    Advance(plan, s0, PublishRow(true), s1);
    var s2 := Scene(plan, Some("v"), Some(Ready), true, done, HELD, Held(plan), Held(plan), Finished("w"));
    assert done == claimed[3 := ImportDone()];
    Advance(plan, s1, FinishRow(true, None), s2);
    Advance(plan, s2, ReleaseLease,
      Scene(plan, Some("v"), Some(Ready), true, done, IDLE, Held(plan), Held(plan), Locked("w")));
  }

  lemma CleanupIsRetried(plan: Plan)
    requires plan("v").documentId == "d"
    ensures Reaches(plan,
      Scene(plan, Some("v"), Some(Ready), true, Jobs(SecondRetried(), ImportDone()), IDLE, Held(plan), Held(plan),
            Locked("w")))
  {
    ImportIsPublished(plan);
    var failed, queued := Jobs(SecondFailed(), ImportDone()), Jobs(SecondRetried(), ImportDone());
    assert queued == failed[2 := SecondRetried()];
    Advance(plan,
      Scene(plan, Some("v"), Some(Ready), true, failed, IDLE, Held(plan), Held(plan), Locked("w")),
      Outside(Retry(2, false, 100)),
      Scene(plan, Some("v"), Some(Ready), true, queued, IDLE, Held(plan), Held(plan), Locked("w")));
  }

  lemma CleanupIsClaimedAgain(plan: Plan)
    requires plan("v").documentId == "d"
    ensures Reaches(plan,
      Scene(plan, Some("v"), Some(Ready), true, Jobs(SecondAgain(), ImportDone()), HELD, Held(plan), Held(plan),
            Handling("w", SecondAgain(), Handler(false, false, None, false))))
  {
    CleanupIsRetried(plan);
    var queued, running := Jobs(SecondRetried(), ImportDone()), Jobs(SecondAgain(), ImportDone());
    var s1 := Scene(plan, Some("v"), Some(Ready), true, queued, IDLE, Held(plan), Held(plan), Locked("w"));
    var s2 := Scene(plan, Some("v"), Some(Ready), true, queued, HELD, Held(plan), Held(plan), Acquired("w"));
    Advance(plan, s1, AcquireLease(100, 200), s2);
    assert IsNext(s2.db, 100, None, 2);
    MetadataStore.NextFinds(s2.db, 100, None);
    assert running == queued[2 := SecondAgain()];
    Advance(plan, s2, ClaimJob(100, 200, None),
      Scene(plan, Some("v"), Some(Ready), true, running, HELD, Held(plan), Held(plan),
            Handling("w", SecondAgain(), Handler(false, false, None, false))));
  }

  /**
   And so does the store half of the manifest: the cleanup dated back fails, a
   version is imported and published, the cleanup is retried, and it takes the
   entries of the active version. The database half still holds.
   */
  lemma BackdatedDeletionEmptiesAnActiveVersion(plan: Plan) returns (s: Sys)
    requires plan("v").documentId == "d"
    ensures Reaches(plan, s) && IsActive(s.db, "d", "v")
    ensures !StoresAgree(s.vector, s.graph, "v", IdSet(plan("v").chunkIds))
  {
    CleanupIsClaimedAgain(plan);
    var s0 := Scene(plan, Some("v"), Some(Ready), true, Jobs(SecondAgain(), ImportDone()), HELD, Held(plan), Held(plan),
      Handling("w", SecondAgain(), Handler(false, false, None, false)));
    s := s0.(vector := map[]);
    Advance(plan, s0, EraseVector(map[]), s);
  }
}
