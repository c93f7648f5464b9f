/**
 The metadata store as an object whose tables are updated in place. Every
 method is one transaction: it leaves the tables as the transaction function
 of module Metadata says, and replies as documented. Clock readings are
 arguments: `now` is the reading before the transaction, `clock` the one inside.
 */
module MetadataStore {
  import opened Wrappers
  import opened Metadata

  // ----- The queue always has a least claimable row -----

  lemma {:induction false} LeastExists(db: Db, candidates: set<JobId>)
    requires Keyed(db)
    requires (exists x :: x in candidates) && forall x :: x in candidates ==> x in db.jobs
    ensures exists id :: id in candidates && forall x :: x in candidates ==> x == id || !Before(db.jobs[x], db.jobs[id])
  {
    var pick :| pick in candidates;
    if x :| x in candidates && x != pick {
      var rest := candidates - {pick};
      assert x in rest;
      LeastExists(db, rest);
      var least :| least in rest && forall x :: x in rest ==> x == least || !Before(db.jobs[x], db.jobs[least]);
      var id := if Before(db.jobs[pick], db.jobs[least]) then pick else least;
      forall y | y in candidates ensures y == id || !Before(db.jobs[y], db.jobs[id]) {
        assert y == pick || y in rest;
      }
    }
  }

  /**
   A claim finds a job exactly when some job is claimable, and which one is
   determined: of the available queued rows the one created first, identifiers
   breaking ties, or else the target, once no earlier job of its document is left.
   */
  lemma NextFinds(db: Db, now: Time, target: Option<JobId>)
    requires Keyed(db)
    ensures Next(db, now, target).Some? <==> exists id :: Claimable(db, now, target, id)
    ensures forall id :: IsNext(db, now, target, id) ==> Next(db, now, target) == Some(id)
    ensures Next(db, now, target).Some? ==>
      var id := Next(db, now, target).value;
      id in db.jobs && db.jobs[id].status == Queued && db.jobs[id].availableAt <= now
    ensures target.None? ==>
      forall x :: x in db.jobs && db.jobs[x].status == Queued && db.jobs[x].availableAt <= now ==>
        && Next(db, now, target).Some?
        && var id := Next(db, now, target).value;
        && db.jobs[id].createdAt <= db.jobs[x].createdAt
        && (db.jobs[id].createdAt == db.jobs[x].createdAt ==> id <= x)
    ensures target.Some? ==> (
      Next(db, now, target) == target <==>
        && target.value in db.jobs
        && var row := db.jobs[target.value];
        && row.status == Queued && row.availableAt <= now
        && forall x :: x in db.jobs && db.jobs[x].documentId == row.documentId ==>
             && (db.jobs[x].createdAt < row.createdAt ==> db.jobs[x].status == Succeeded || db.jobs[x].status == Failed)
             && (db.jobs[x].createdAt == row.createdAt && x < target.value ==>
                   db.jobs[x].status == Succeeded || db.jobs[x].status == Failed))
    ensures target.Some? && Next(db, now, target) != target ==> Next(db, now, target).None?
  {
    var candidates := set id | id in db.jobs && Claimable(db, now, target, id);
    if exists id :: Claimable(db, now, target, id) {
      var some :| Claimable(db, now, target, some);
      assert some in candidates;
      LeastExists(db, candidates);
      var id :| id in candidates && forall x :: x in candidates ==> x == id || !Before(db.jobs[x], db.jobs[id]);
      assert IsNext(db, now, target, id);
    }
    forall id | IsNext(db, now, target, id) ensures Next(db, now, target) == Some(id) {
      assert Next(db, now, target).Some?;
      assert IsNext(db, now, target, Next(db, now, target).value);
    }
    if target.None? {
      forall x | x in db.jobs && db.jobs[x].status == Queued && db.jobs[x].availableAt <= now
        ensures Claimable(db, now, target, x) && Next(db, now, target).Some?
      {
        assert Claimable(db, now, target, x);
      }
    }
  }

  lemma UnfinishedAre(db: Db)
    ensures UnfinishedJobs(db) ==
      set id | id in db.jobs && (db.jobs[id].status == Queued || db.jobs[id].status == Running)
  {
    var unfinished := set id | id in db.jobs && (db.jobs[id].status == Queued || db.jobs[id].status == Running);
    forall id ensures id in unfinished <==> id in UnfinishedJobs(db) {
      assert id in db.jobs && Unfinished(db.jobs[id]) <==> id in UnfinishedJobs(db);
    }
  }

  lemma OneMoreUnfinished(db: Db, job: Job, limit: nat)
    requires |UnfinishedJobs(db)| < limit
    ensures var jobs := db.jobs[job.jobId := job];
      |set id | id in jobs && (jobs[id].status == Queued || jobs[id].status == Running)| <= limit
  {
    var db' := db.(jobs := db.jobs[job.jobId := job]);
    UnfinishedAre(db');
    var most := UnfinishedJobs(db) + {job.jobId};
    assert most == UnfinishedJobs(db') + (most - UnfinishedJobs(db'));
  }

  /** The check before a restore, on the columns: the document's last deletion has succeeded. */
  lemma CleanupSucceededMeans(db: Db, documentId: string)
    requires Keyed(db)
    ensures CleanupSucceeded(db, documentId) <==>
      exists x ::
        && x in db.jobs && db.jobs[x].operation == DeleteDocument && db.jobs[x].documentId == documentId
        && db.jobs[x].status == Succeeded
        && forall y :: y in db.jobs && db.jobs[y].operation == DeleteDocument && db.jobs[y].documentId == documentId ==>
             && db.jobs[y].createdAt <= db.jobs[x].createdAt
             && (db.jobs[y].createdAt == db.jobs[x].createdAt ==> y <= x)
  {
    forall x | x in db.jobs
      ensures IsLatestDelete(db, documentId, x) <==>
        && db.jobs[x].operation == DeleteDocument && db.jobs[x].documentId == documentId
        && forall y :: y in db.jobs && db.jobs[y].operation == DeleteDocument && db.jobs[y].documentId == documentId ==>
             && db.jobs[y].createdAt <= db.jobs[x].createdAt
             && (db.jobs[y].createdAt == db.jobs[x].createdAt ==> y <= x)
    {
    }
  }

  predicate Settled(job: Job) {
    job.status == Succeeded || job.status == Failed
  }

  class MetadataStore {
    var documents: map<string, Document>
    var versions: map<string, Version>
    var chunks: map<string, seq<string>>
    var jobs: map<JobId, Job>
    var writer: Writer

    function State(): Db
      reads this
    {
      Db(documents, versions, chunks, jobs, writer)
    }

    constructor ()
      ensures State() == Db(map[], map[], map[], map[], Writer(None, None))
    {
      documents, versions, chunks, jobs, writer := map[], map[], map[], map[], Writer(None, None);
    }

    method PutDocument(id: string, name: string, active: Option<string>, allowRestore: bool)
      returns (reply: Result<Document, Error>)
      modifies this`documents
      ensures Tx(State(), if reply.Ok? then None else Some(reply.error))
              == Metadata.PutDocument(old(State()), id, name, active, allowRestore)
      ensures documents - {id} == old(documents) - {id}
      ensures reply.Err? <==> Tombstoned(old(State()), id) && allowRestore && !CleanupSucceeded(old(State()), id)
      ensures reply.Err? ==> documents == old(documents)
      ensures reply.Ok? ==> id in documents && reply.value == documents[id] && reply.value.name == name
      ensures reply.Ok? && id in old(documents) ==>
        && reply.value.active == old(documents)[id].active
        && reply.value.deletedAt == if allowRestore then None else old(documents)[id].deletedAt
      ensures id !in old(documents) ==> reply == Ok(Document(name, active, None))
      ensures Tombstoned(old(State()), id) && !Tombstoned(State(), id) ==>
        allowRestore && CleanupSucceeded(old(State()), id)
    {
      if id in documents {
        var row := documents[id];
        if row.deletedAt.Some? && allowRestore && !CleanupSucceeded(State(), id) {
          return Err(DocumentBusy);
        }
        documents := documents[id := row.(name := name, deletedAt := if allowRestore then None else row.deletedAt)];
      } else {
        documents := documents[id := Document(name, active, None)];
      }
      return Ok(documents[id]);
    }

    method PutVersion(id: string, version: Version) returns (error: Option<Error>)
      modifies this`versions
      ensures Tx(State(), error) == Metadata.PutVersion(old(State()), id, version)
      ensures error.Some? <==> version.documentId !in documents
      ensures error.Some? ==> versions == old(versions)
      ensures versions - {id} == old(versions) - {id}
      ensures error.None? ==>
        id in versions && versions[id].expected == version.expected && versions[id].digest == version.digest
      ensures error.None? && id !in old(versions) ==> versions[id] == version
      ensures id in old(versions) ==>
        && versions[id].status == old(versions)[id].status && versions[id].documentId == old(versions)[id].documentId
        && versions[id].failureCode == old(versions)[id].failureCode
    {
      if version.documentId !in documents {
        return Some(Integrity);
      }
      if id in versions {
        versions := versions[id := versions[id].(expected := version.expected, digest := version.digest)];
      } else {
        versions := versions[id := version];
      }
      return None;
    }

    method ReplaceChunks(id: string, chunkIds: seq<string>) returns (error: Option<Error>)
      modifies this`chunks
      ensures Tx(State(), error) == Metadata.ReplaceChunks(old(State()), id, chunkIds)
      ensures error.Some? <==> id !in versions
      ensures chunks - {id} == old(chunks) - {id}
      ensures Rows(State(), id) == if error.None? then chunkIds else Rows(old(State()), id)
    {
      if id !in versions {
        return Some(Integrity);
      }
      chunks := chunks[id := chunkIds];
      return None;
    }

    method SetVersionStatus(
      id: string, status: VersionStatus, failureCode: Option<string>, job: Option<Job>, clock: Time)
      returns (error: Option<Error>)
      modifies this`versions
      ensures Tx(State(), error) == Metadata.SetVersionStatus(old(State()), id, status, failureCode, job, clock)
      ensures versions != old(versions) && job.Some? ==> Passes(old(State()), job.value, clock)
      ensures error.Some? ==> versions == old(versions)
      ensures versions.Keys == old(versions).Keys && versions - {id} == old(versions) - {id}
      ensures error.None? && id in versions ==>
        versions[id] == old(versions)[id].(status := status, failureCode := failureCode)
    {
      if job.Some? && !Passes(State(), job.value, clock) {
        return Some(JobLease);
      }
      if id in versions {
        versions := versions[id := versions[id].(status := status, failureCode := failureCode)];
      }
      return None;
    }

    method PublishVersion(id: string, job: Job, heads: bool, clock: Time) returns (error: Option<Error>)
      modifies this`versions, this`documents
      ensures Tx(State(), error) == Metadata.PublishVersion(old(State()), id, job, heads, clock)
      ensures error.None? <==>
        && Passes(old(State()), job, clock) && job.versionId == id && id in old(versions) && heads
        && old(versions)[id].documentId in old(documents) && !Tombstoned(old(State()), old(versions)[id].documentId)
        && |Rows(old(State()), id)| == old(versions)[id].expected
      ensures error.Some? ==> versions == old(versions) && documents == old(documents)
      ensures error.None? ==> id in versions && IsActive(State(), versions[id].documentId, id)
      ensures error.None? ==> versions[id] == old(versions)[id].(status := Ready, failureCode := None)
      ensures versions - {id} == old(versions) - {id} && versions.Keys == old(versions).Keys
      ensures error.None? ==>
        var d := versions[id].documentId;
        documents - {d} == old(documents) - {d} && documents[d].name == old(documents)[d].name
    {
      if !Passes(State(), job, clock) || job.versionId != id {
        return Some(JobLease);
      }
      if id !in versions || versions[id].documentId !in documents {
        return Some(ManifestUnavailable);
      }
      var documentId := versions[id].documentId;
      if documents[documentId].deletedAt.Some? || |Rows(State(), id)| != versions[id].expected {
        return Some(ManifestUnavailable);
      }
      if !heads {
        return Some(Publication);
      }
      versions := versions[id := versions[id].(status := Ready, failureCode := None)];
      documents := documents[documentId := documents[documentId].(active := Some(id), deletedAt := None)];
      return None;
    }

    method PutJob(job: Job, limit: Option<nat>, now: Time) returns (reply: Result<Job, Error>)
      modifies this`jobs
      ensures
        Tx(State(), if reply.Ok? then None else Some(reply.error)) == Metadata.PutJob(old(State()), job, limit, now)
      ensures reply.Ok? ==> reply.value in jobs.Values && reply.value.key == job.key && SameSubmission(reply.value, job)
      ensures (exists id :: id in old(jobs) && old(jobs)[id].key == job.key) || reply.Err? ==> jobs == old(jobs)
      ensures (exists id :: id in old(jobs) && old(jobs)[id].key == job.key
                 && (old(jobs)[id].documentId, old(jobs)[id].versionId, old(jobs)[id].payload)
                    != (job.documentId, job.versionId, job.payload)) ==>
        reply == Err(JobInput)
      ensures jobs != old(jobs) ==>
        && job.jobId !in old(jobs) && reply == Ok(job.(createdAt := now, updatedAt := now))
        && jobs == old(jobs)[job.jobId := reply.value]
        && (limit.Some? ==>
              |set id | id in old(jobs) && (old(jobs)[id].status == Queued || old(jobs)[id].status == Running)|
              < limit.value)
      ensures reply == Err(JobQueueFull) ==>
        && limit.Some?
        && |set id | id in jobs && (jobs[id].status == Queued || jobs[id].status == Running)| >= limit.value
    {
      if id :| id in jobs && jobs[id].key == job.key && !SameSubmission(jobs[id], job) {
        return Err(JobInput);
      }
      if id :| id in jobs && jobs[id].key == job.key {
        return Ok(jobs[id]);
      }
      UnfinishedAre(State());
      if limit.Some? && |UnfinishedJobs(State())| >= limit.value {
        return Err(JobQueueFull);
      }
      if job.jobId in jobs {
        return Err(Integrity);
      }
      jobs := jobs[job.jobId := job.(createdAt := now, updatedAt := now)];
      return Ok(jobs[job.jobId]);
    }

    method TombstoneAndPutJob(documentId: string, expected: Option<string>, job: Job, limit: nat, now: Time)
      returns (error: Option<Error>)
      modifies this`documents, this`jobs
      ensures Tx(State(), error) == Metadata.TombstoneAndPutJob(old(State()), documentId, expected, job, limit, now)
      ensures error.Some? ==> State() == old(State())
      ensures error.None? ==> Tombstoned(State(), documentId)
      ensures error.None? && !Tombstoned(old(State()), documentId) ==>
        documentId in old(documents) && old(documents)[documentId].active == expected
        && documents[documentId].active.None?
      ensures documents - {documentId} == old(documents) - {documentId}
      ensures forall id :: id in old(jobs) ==>
        id in jobs && (jobs[id] != old(jobs)[id] ==>
          old(jobs)[id].documentId == documentId && old(jobs)[id].status == Queued && jobs[id].status == Failed)
      ensures jobs != old(jobs) ==>
        && job.jobId in jobs && jobs[job.jobId].createdAt == now && job.jobId !in old(jobs)
        && forall id :: id in jobs && jobs[id].documentId == documentId && jobs[id].status == Queued ==>
             id == job.jobId || jobs[id].operation == DeleteDocument
      ensures jobs != old(jobs) ==>
        |set id | id in jobs && (jobs[id].status == Queued || jobs[id].status == Running)| <= limit
      ensures error.None? && !Tombstoned(old(State()), documentId)
              && (forall id :: id in old(jobs) ==> old(jobs)[id].key != job.key) ==>
        job.jobId in jobs && jobs[job.jobId] == job.(createdAt := now, updatedAt := now)
    {
      if job.operation != DeleteDocument || job.documentId != documentId
         || job.versionId != (if expected.Some? then expected.value else "none") {
        return Some(JobInput);
      }
      if documentId !in documents {
        return Some(DocumentNotFound);
      }
      if documents[documentId].deletedAt.Some? {
        return if HasDelete(State(), documentId) then None else Some(ManifestUnavailable);
      }
      if documents[documentId].active != expected {
        return Some(RetryableQuery);
      }
      var row := documents[documentId].(active := None, deletedAt := Some(now));
      if KeyTaken(State(), job.key) {
        documents := documents[documentId := row];
        return None;
      }
      var superseded := map id | id in jobs :: Superseded(jobs[id], documentId, now);
      assert State().(jobs := superseded) == SupersedeImports(State(), documentId, now);
      if |UnfinishedJobs(State().(jobs := superseded))| >= limit {
        return Some(JobQueueFull);
      }
      if job.jobId in jobs {
        return Some(Integrity);
      }
      documents := documents[documentId := row];
      jobs := superseded[job.jobId := job.(createdAt := now, updatedAt := now)];
      OneMoreUnfinished(State().(jobs := superseded), jobs[job.jobId], limit);
      return None;
    }

    method RetryJob(id: JobId, includeSucceeded: bool, now: Time)
      modifies this`jobs
      ensures State() == Metadata.RetryJob(old(State()), id, includeSucceeded, now).db
      ensures jobs.Keys == old(jobs).Keys && jobs - {id} == old(jobs) - {id}
      ensures id in jobs
              && (old(jobs)[id].status == Failed || (includeSucceeded && old(jobs)[id].status == Succeeded)) ==>
        jobs[id].status == Queued && jobs[id].availableAt == now
      ensures id in jobs && jobs[id] != old(jobs)[id] ==>
        && (old(jobs)[id].status == Failed || (includeSucceeded && old(jobs)[id].status == Succeeded))
        && jobs[id].status == Queued && jobs[id].leaseOwner.None? && jobs[id].leaseExpires.None?
        && jobs[id].errorCode.None? && jobs[id].progress == 0
        && jobs[id].attemptCount == old(jobs)[id].attemptCount && SameInput(jobs[id], old(jobs)[id])
    {
      if id in jobs && (jobs[id].status == Failed || (includeSucceeded && jobs[id].status == Succeeded)) {
        jobs := jobs[id := jobs[id].(
          status := Queued, availableAt := now, leaseOwner := None, leaseExpires := None, heartbeatAt := None,
          errorCode := None, progress := 0, updatedAt := now)];
      }
    }

    method UpdateJobProgress(id: JobId, owner: string, progress: int, now: Time) returns (updated: bool)
      modifies this`jobs
      ensures State() == Metadata.UpdateProgress(old(State()), id, owner, progress, now).db
      ensures updated <==> id in old(jobs) && old(jobs)[id].status == Running && old(jobs)[id].leaseOwner == Some(owner)
      ensures jobs.Keys == old(jobs).Keys && jobs - {id} == old(jobs) - {id}
      ensures if updated
        then 0 <= jobs[id].progress <= 99 && (0 <= progress <= 99 ==> jobs[id].progress == progress)
             && jobs[id] == old(jobs)[id].(progress := jobs[id].progress, updatedAt := now)
        else jobs == old(jobs)
    {
      updated := id in jobs && jobs[id].status == Running && jobs[id].leaseOwner == Some(owner);
      if updated {
        var bounded := if progress < 0 then 0 else if progress > 99 then 99 else progress;
        jobs := jobs[id := jobs[id].(progress := bounded, updatedAt := now)];
      }
    }

    method AcquireWriter(owner: string, now: Time, expires: Time) returns (acquired: bool)
      modifies this`writer
      ensures State() == Metadata.AcquireWriter(old(State()), owner, now, expires).db
      ensures acquired <==>
        || old(writer).owner.None? || old(writer).owner == Some(owner)
        || (old(writer).expires.Some? && old(writer).expires.value < now)
      ensures writer == if acquired then Writer(Some(owner), Some(expires)) else old(writer)
      ensures !acquired ==> writer.owner != Some(owner)
    {
      acquired := writer.owner.None? || writer.owner == Some(owner) || Expired(writer.expires, now);
      if acquired {
        writer := Writer(Some(owner), Some(expires));
      }
    }

    method ReleaseWriter(owner: string)
      modifies this`writer
      ensures State() == Metadata.ReleaseWriter(old(State()), owner).db
      ensures writer == if old(writer).owner == Some(owner) then Writer(None, None) else old(writer)
      ensures writer.owner != Some(owner)
    {
      if writer.owner == Some(owner) {
        writer := Writer(None, None);
      }
    }

    method Heartbeat(id: JobId, owner: string, now: Time, expires: Time, job: Option<Job>, clock: Time)
      returns (alive: bool)
      modifies this`jobs, this`writer
      ensures State() == Metadata.Heartbeat(old(State()), id, owner, now, expires, job, clock).db
      ensures alive <==>
        && (job.Some? ==> Passes(old(State()), job.value, clock))
        && id in old(jobs) && old(jobs)[id].status == Running && old(jobs)[id].leaseOwner == Some(owner)
        && old(jobs)[id].leaseExpires.Some? && old(jobs)[id].leaseExpires.value > now
        && old(writer).owner == Some(owner) && old(writer).expires.Some? && old(writer).expires.value > now
      ensures !alive ==> jobs == old(jobs) && writer == old(writer)
      ensures writer.owner == old(writer).owner && jobs.Keys == old(jobs).Keys && jobs - {id} == old(jobs) - {id}
      ensures alive ==>
        && id in jobs && jobs[id].status == Running && jobs[id].attemptCount == old(jobs)[id].attemptCount
        && SameInput(jobs[id], old(jobs)[id]) && jobs[id].leaseOwner == writer.owner == Some(owner)
        && jobs[id].leaseExpires == writer.expires == Some(expires)
    {
      if job.Some? && !Passes(State(), job.value, clock) {
        return false;
      }
      if id !in jobs {
        return false;
      }
      var row := jobs[id];
      if row.status != Running || row.leaseOwner != Some(owner) || !After(row.leaseExpires, now)
         || writer.owner != Some(owner) || !After(writer.expires, now) {
        return false;
      }
      writer := writer.(expires := Some(expires));
      jobs := jobs[id := row.(leaseExpires := Some(expires), heartbeatAt := Some(now), updatedAt := now)];
      return true;
    }

    /** The selection of a claim: the claimable rows in the order of the queue, cut to one. */
    method FindNext(now: Time, target: Option<JobId>) returns (next: Option<JobId>)
      requires Keyed(State())
      ensures next == Next(State(), now, target)
    {
      NextFinds(State(), now, target);
      var candidates := set id | id in jobs && Claimable(State(), now, target, id);
      if candidates == {} {
        assert forall id :: Claimable(State(), now, target, id) ==> id in candidates;
        return None;
      }
      LeastExists(State(), candidates);
      var id :| id in candidates && forall x | x in candidates :: x == id || !Before(jobs[x], jobs[id]);
      assert IsNext(State(), now, target, id);
      return Some(id);
    }

    method ClaimNextJob(owner: string, now: Time, expires: Time, target: Option<JobId>) returns (claimed: Option<Job>)
      requires Keyed(State())
      modifies this`jobs
      ensures State() == Metadata.ClaimNextJob(old(State()), owner, now, expires, target).db
      ensures claimed.None? ==> jobs == old(jobs) && forall id :: !Claimable(old(State()), now, target, id)
      ensures claimed.None? && target.None? ==>
        forall x :: x in jobs ==> !(jobs[x].status == Queued && jobs[x].availableAt <= now)
      ensures claimed.None? && target.Some? ==>
        || target.value !in jobs || jobs[target.value].status != Queued || jobs[target.value].availableAt > now
        || exists x :: x in jobs && jobs[x].documentId == jobs[target.value].documentId
             && (jobs[x].status == Queued || jobs[x].status == Running)
             && (jobs[x].createdAt < jobs[target.value].createdAt
                 || (jobs[x].createdAt == jobs[target.value].createdAt && x < target.value))
      ensures claimed.Some? ==>
        && var id := claimed.value.jobId;
        && id in old(jobs) && jobs == old(jobs)[id := claimed.value]
        && IsNext(old(State()), now, target, id)
        && old(jobs)[id].status == Queued && old(jobs)[id].availableAt <= now
        && SameInput(claimed.value, old(jobs)[id]) && claimed.value.status == Running
        && claimed.value.attemptCount == old(jobs)[id].attemptCount + 1
        && claimed.value.leaseOwner == Some(owner) && claimed.value.leaseExpires == Some(expires)
      ensures claimed.Some? && target.None? ==>
        forall x :: x in old(jobs) && old(jobs)[x].status == Queued && old(jobs)[x].availableAt <= now ==>
          && claimed.value.createdAt <= old(jobs)[x].createdAt
          && (claimed.value.createdAt == old(jobs)[x].createdAt ==> claimed.value.jobId <= x)
      ensures claimed.Some? && target.Some? ==>
        && claimed.value.jobId == target.value
        && forall x :: x in old(jobs) && old(jobs)[x].documentId == claimed.value.documentId ==>
             || old(jobs)[x].status == Succeeded || old(jobs)[x].status == Failed
             || old(jobs)[x].createdAt > claimed.value.createdAt
             || (old(jobs)[x].createdAt == claimed.value.createdAt && x >= target.value)
    {
      NextFinds(State(), now, target);
      var next := FindNext(now, target);
      if next.None? {
        return None;
      }
      jobs := jobs[next.value := Claimed(jobs[next.value], owner, now, expires)];
      return Some(jobs[next.value]);
    }

    method FinishJob(
      id: JobId, owner: string, succeeded: bool, errorCode: Option<string>, job: Option<Job>, clock: Time)
      returns (error: Option<Error>)
      modifies this`jobs
      ensures Tx(State(), error) == Metadata.FinishJob(old(State()), id, owner, succeeded, errorCode, job, clock)
      ensures job.Some? ==> (error.None? <==> Passes(old(State()), job.value, clock))
      ensures error.Some? ==> jobs == old(jobs)
      ensures jobs.Keys == old(jobs).Keys && jobs - {id} == old(jobs) - {id}
      ensures id in jobs && jobs[id] != old(jobs)[id] ==>
        && old(jobs)[id].status == Running && old(jobs)[id].leaseOwner == Some(owner) && Settled(jobs[id])
        && (jobs[id].status == Succeeded <==> succeeded) && jobs[id].errorCode == errorCode
        && jobs[id].progress == (if succeeded then 100 else old(jobs)[id].progress)
        && jobs[id].leaseOwner.None? && jobs[id].leaseExpires.None?
        && jobs[id].attemptCount == old(jobs)[id].attemptCount && SameInput(jobs[id], old(jobs)[id])
      ensures error.None? && id in jobs
              && old(jobs)[id].status == Running && old(jobs)[id].leaseOwner == Some(owner) ==>
        Settled(jobs[id])
      ensures error.None? && job.Some? && job.value.jobId == id && job.value.leaseOwner == Some(owner) ==>
        forall snapshot: Job, later :: snapshot.jobId == id ==> !Passes(State(), snapshot, later)
    {
      if job.Some? && !Passes(State(), job.value, clock) {
        return Some(JobLease);
      }
      if id in jobs && jobs[id].status == Running && jobs[id].leaseOwner == Some(owner) {
        jobs := jobs[id := Finished(jobs[id], succeeded, errorCode, clock)];
      }
      return None;
    }

    method Reconcile(now: Time) returns (requeued: nat)
      modifies this`jobs, this`writer
      ensures State() == Metadata.Reconcile(old(State()), now).db
      ensures jobs.Keys == old(jobs).Keys
      ensures forall id :: id in jobs ==>
        var row := old(jobs)[id];
        if row.status == Running && Expired(row.leaseExpires, now)
        then jobs[id].status == Queued && jobs[id].leaseOwner.None? && jobs[id].leaseExpires.None?
             && jobs[id].attemptCount == row.attemptCount && SameInput(jobs[id], row)
             && jobs[id].errorCode == Some("interrupted")
        else jobs[id] == row
      ensures forall id :: id in jobs && jobs[id].status == Running ==> !Expired(jobs[id].leaseExpires, now)
      ensures requeued == |set id | id in jobs && jobs[id] != old(jobs)[id]|
      ensures writer == if Expired(old(writer).expires, now) then Writer(None, None) else old(writer)
    {
      requeued := |set id | id in jobs && Interrupted(jobs[id], now)|;
      jobs := map id | id in jobs :: Requeued(jobs[id], now);
      assert (set id | id in jobs && jobs[id] != old(jobs)[id])
          == (set id | id in jobs && Interrupted(old(jobs)[id], now));
      if Expired(writer.expires, now) {
        writer := Writer(None, None);
      }
    }
  }
}
