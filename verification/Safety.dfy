/**
 Safety of whole runs of an installation, from an empty one, through any
 interleaving and any crashes. The database is safe in every run. What the stores
 hold of a document, and that its cleanup never runs while it is live, rests on
 the deletions of that one document alone.
 */
module Safety {
  import opened Wrappers
  import opened Metadata
  import opened Transactions
  import opened Installation
  import opened Cleanup
  import opened Manifest

  /** What holds in every reachable state. */
  ghost predicate SysInv(plan: Plan, s: Sys) {
    && Keyed(s.db) && TombstonesCovered(s.db)
    && ManifestInv(plan, s.db)
    && HandlerInv(plan, s)
  }

  /** What holds of a document as long as none of its deletions is dated back. */
  ghost predicate DocumentInv(plan: Plan, s: Sys, d: string) {
    PendingCleanup(s.db, d) && StoresHold(plan, s, d)
  }

  lemma ClaimEstablishesHandler(plan: Plan, s: Sys, now: Time, expires: Time, target: Option<JobId>)
    requires SysInv(plan, s) && Enabled(plan, s, ClaimJob(now, expires, target))
    ensures HandlerInv(plan, Effect(s, ClaimJob(now, expires, target)))
  {
  }

  /** A running cleanup job proves that its document is tombstoned, so nothing of it is active. */
  lemma CleanupFindsTombstone(plan: Plan, s: Sys)
    requires SysInv(plan, s) && Deleting(s) && PendingCleanup(s.db, s.phase.job.documentId)
    ensures Tombstoned(s.db, s.phase.job.documentId)
    ensures forall v :: !ActiveIs(s.db, s.phase.job.documentId, v)
  {
    assert IsDeleteOf(s.db.jobs[s.phase.job.jobId], s.phase.job.documentId);
  }

  lemma EventKeepsManifest(plan: Plan, s: Sys, e: Event)
    requires SysInv(plan, s) && Enabled(plan, s, e)
    ensures ManifestInv(plan, Effect(s, e).db)
    ensures HandlerInv(plan, Effect(s, e))
  {
    if e.Outside? {
      OutsideKeepsManifest(plan, s.db, s.clock, e.transaction);
      HarmlessKeepsHandler(plan, s, Apply(s.db, e.transaction, s.clock).db);
    } else if e.ClaimJob? {
      LeaseIsOnlyQueue(plan, s, e);
      OnlyQueueKeepsManifest(plan, s.db, Effect(s, e).db);
      ClaimEstablishesHandler(plan, s, e.now, e.expires, e.target);
    } else if e.MarkVersionRow? {
      MarkKeepsManifest(plan, s, e.status, e.failureCode);
    } else if e.UpsertVector? || e.UpsertGraph? {
      UpsertKeepsStores(plan, s, e);
    } else if e.PublishRow? {
      PublishKeepsManifest(plan, s, e.heads);
    } else if e.ReadVersion? || e.ReadDocument? || e.ReadManifest? || e.VerifyStores? {
      ReadKeepsHandler(plan, s, e);
    } else {
      QuietEventKeepsManifest(plan, s, e);
    }
  }

  lemma QuietEventKeepsManifest(plan: Plan, s: Sys, e: Event)
    requires SysInv(plan, s) && Enabled(plan, s, e)
    requires e.Tick? || e.TakeLock? || e.Unlock? || e.Crash? || e.Recover? || e.AcquireLease? || e.ReleaseLease?
             || e.FinishRow? || e.EraseVector? || e.EraseGraph?
    ensures ManifestInv(plan, Effect(s, e).db)
    ensures HandlerInv(plan, Effect(s, e))
  {
    if e.Recover? || e.AcquireLease? || e.ReleaseLease? || e.FinishRow? {
      LeaseIsOnlyQueue(plan, s, e);
      OnlyQueueKeepsManifest(plan, s.db, Effect(s, e).db);
    }
  }

  /** No event breaks what holds in every state. */
  lemma EventKeepsSystem(plan: Plan, s: Sys, e: Event)
    requires SysInv(plan, s) && Enabled(plan, s, e)
    ensures SysInv(plan, Effect(s, e))
  {
    EventKeepsCovered(plan, s, e);
    EventKeepsManifest(plan, s, e);
  }

  lemma SameStoresHold(plan: Plan, s: Sys, s': Sys, d: string)
    requires StoresHold(plan, s, d) && s'.vector == s.vector && s'.graph == s.graph
    requires forall v :: ActiveIs(s'.db, d, v) ==> ActiveIs(s.db, d, v)
    ensures StoresHold(plan, s', d)
  {
  }

  lemma OutsideKeepsStores(plan: Plan, s: Sys, t: Transaction, d: string)
    requires SysInv(plan, s) && StoresHold(plan, s, d) && Enabled(plan, s, Outside(t))
    ensures StoresHold(plan, Effect(s, Outside(t)), d)
  {
    OutsideKeepsManifest(plan, s.db, s.clock, t);
    SameStoresHold(plan, s, Effect(s, Outside(t)), d);
  }

  /** Every event keeps what the stores hold of a document, unless it erases entries of it while it shows a version. */
  lemma EventKeepsStores(plan: Plan, s: Sys, e: Event, d: string)
    requires SysInv(plan, s) && StoresHold(plan, s, d) && Enabled(plan, s, e)
    requires (e.EraseVector? || e.EraseGraph?) && s.phase.job.documentId == d ==> forall v :: !ActiveIs(s.db, d, v)
    ensures StoresHold(plan, Effect(s, e), d)
  {
    if e.Outside? {
      OutsideKeepsStores(plan, s, e.transaction, d);
    } else if e.UpsertVector? || e.UpsertGraph? {
      UpsertKeepsStores(plan, s, e);
    } else if e.PublishRow? {
      PublishKeepsManifest(plan, s, e.heads);
    } else if e.EraseVector? || e.EraseGraph? {
      EraseKeepsStores(plan, s, e, d);
    } else {
      QuietEventChangesNoDocument(plan, s, e);
      SameStoresHold(plan, s, Effect(s, e), d);
    }
  }

  lemma QuietEventChangesNoDocument(plan: Plan, s: Sys, e: Event)
    requires Enabled(plan, s, e) && !e.Outside? && !e.PublishRow?
    ensures Effect(s, e).db.documents == s.db.documents
    ensures !e.UpsertVector? && !e.UpsertGraph? && !e.EraseVector? && !e.EraseGraph? ==>
      Effect(s, e).vector == s.vector && Effect(s, e).graph == s.graph
  {
  }

  lemma EventKeepsDocument(plan: Plan, s: Sys, e: Event, d: string)
    requires SysInv(plan, s) && DocumentInv(plan, s, d) && Enabled(plan, s, e) && Ordered(s.db, e, d)
    ensures DocumentInv(plan, Effect(s, e), d)
  {
    EventKeepsCleanup(plan, s, e, d);
    if (e.EraseVector? || e.EraseGraph?) && s.phase.job.documentId == d {
      CleanupFindsTombstone(plan, s);
    }
    EventKeepsStores(plan, s, e, d);
  }

  /** Every reachable state of every run keeps the invariant of the database and the handler. */
  lemma {:induction false} ReachableStatesAreSafe(plan: Plan, states: seq<Sys>, events: seq<Event>, i: nat)
    requires Run(plan, states, events) && i < |states|
    ensures SysInv(plan, states[i])
  {
    if i == 0 {
    } else {
      assert Moment(i - 1);
      ReachableStatesAreSafe(plan, states, events, i - 1);
      EventKeepsSystem(plan, states[i - 1], events[i - 1]);
    }
  }

  /** A document whose deletions are not dated back keeps its cleanup discipline and its entries, whatever others do. */
  lemma {:induction false} ReachableDocumentsAreSafe(
    plan: Plan, states: seq<Sys>, events: seq<Event>, i: nat, d: string)
    requires Run(plan, states, events) && i < |states| && DeletionsOrdered(states, events, i, d)
    ensures DocumentInv(plan, states[i], d)
  {
    if i == 0 {
    } else {
      assert Moment(i - 1);
      ReachableDocumentsAreSafe(plan, states, events, i - 1, d);
      ReachableStatesAreSafe(plan, states, events, i - 1);
      EventKeepsDocument(plan, states[i - 1], events[i - 1], d);
    }
  }

  // ----- Whole-run theorems -----

  /**
   The active manifest is complete. Whenever a document shows an active version,
   the document is live, the version is its own and ready, and its chunk rows are
   exactly its chunks. If no deletion of the document was dated back, both
   retrieval stores hold exactly those identifiers.
   */
  lemma ActiveManifestIsComplete(plan: Plan, states: seq<Sys>, events: seq<Event>, i: nat, d: string, v: string)
    requires Run(plan, states, events) && i < |states|
    requires ActiveIs(states[i].db, d, v)
    ensures IsActive(states[i].db, d, v) && plan(v).documentId == d
    ensures Rows(states[i].db, v) == plan(v).chunkIds
    ensures ActiveChunks(states[i].db, d) == IdSet(plan(v).chunkIds)
    ensures DeletionsOrdered(states, events, i, d) ==>
      StoresAgree(states[i].vector, states[i].graph, v, IdSet(plan(v).chunkIds))
  {
    ReachableStatesAreSafe(plan, states, events, i);
    var db := states[i].db;
    assert !Tombstoned(db, d);
    assert forall c :: c in ActiveChunks(db, d) <==> c in Rows(db, v);
    if DeletionsOrdered(states, events, i, d) {
      ReachableDocumentsAreSafe(plan, states, events, i, d);
    }
  }

  /**
   Cleanup never runs against a live document. Any cleanup job of a document that
   is queued, running or failed has it tombstoned and without active version; and
   whenever the worker is about to erase entries of the document from a store, it
   is tombstoned at that moment, lease or no lease.
   */
  lemma CleanupNeverTouchesALiveDocument(plan: Plan, states: seq<Sys>, events: seq<Event>, i: nat, d: string)
    requires Run(plan, states, events) && i < |events| && DeletionsOrdered(states, events, i, d)
    ensures forall id | id in states[i].db.jobs && IsDeleteOf(states[i].db.jobs[id], d) ::
      states[i].db.jobs[id].status != Succeeded ==>
        && Tombstoned(states[i].db, d) && states[i].db.documents[d].active.None?
        && IsLatestDelete(states[i].db, d, id)
    ensures events[i].EraseVector? || events[i].EraseGraph? ==>
      && states[i].phase.Handling?
      && (states[i].phase.job.documentId == d ==>
            Tombstoned(states[i].db, d) && ActiveChunks(states[i].db, d) == {})
  {
    ReachableStatesAreSafe(plan, states, events, i);
    ReachableDocumentsAreSafe(plan, states, events, i, d);
    assert Moment(i);
    if (events[i].EraseVector? || events[i].EraseGraph?) && states[i].phase.job.documentId == d {
      CleanupFindsTombstone(plan, states[i]);
    }
  }

  ghost predicate Restores(e: Event, d: string) {
    e.Outside? && e.transaction.StoreDocument? && e.transaction.documentId == d && e.transaction.allowRestore
  }

  ghost predicate Deletes(e: Event, d: string) {
    e.Outside? && e.transaction.Delete? && e.transaction.documentId == d
  }

  /** A publication of a version of d by an attempt that holds its lease. */
  ghost predicate Publishes(s: Sys, e: Event, d: string) {
    && e.PublishRow? && s.phase.Handling? && s.phase.job.documentId == d && Passes(s.db, s.phase.job, s.clock)
  }

  lemma PublicationLifecycle(plan: Plan, s: Sys, heads: bool, d: string)
    requires SysInv(plan, s) && Enabled(plan, s, PublishRow(heads)) && d in s.db.documents
    ensures d in Effect(s, PublishRow(heads)).db.documents
    ensures Tombstoned(s.db, d) ==> Tombstoned(Effect(s, PublishRow(heads)).db, d)
    ensures Effect(s, PublishRow(heads)).db.documents[d].active != s.db.documents[d].active ==>
      Publishes(s, PublishRow(heads), d)
  {
    var v := s.phase.job.versionId;
    assert s.db.jobs[s.phase.job.jobId].operation != DeleteDocument;
    assert v in s.db.versions ==> s.db.versions[v].documentId == s.phase.job.documentId;
  }

  lemma OnlyThreeTouchDocuments(plan: Plan, s: Sys, e: Event)
    requires Enabled(plan, s, e) && !e.PublishRow?
    requires e.Outside? ==> !e.transaction.StoreDocument? && !e.transaction.Delete?
    ensures Effect(s, e).db.documents == s.db.documents
  {
    if !e.Outside? {
      QuietEventChangesNoDocument(plan, s, e);
    }
  }

  /** Who may change the lifecycle of document d at moment k of any run. */
  lemma DocumentLifecycle(plan: Plan, states: seq<Sys>, events: seq<Event>, k: nat, d: string)
    requires Run(plan, states, events) && k < |events| && d in states[k].db.documents
    ensures d in states[k + 1].db.documents
    ensures Tombstoned(states[k].db, d) && !Tombstoned(states[k + 1].db, d) ==>
      Restores(events[k], d) && states[k + 1].db.documents[d].active == states[k].db.documents[d].active
    ensures states[k + 1].db.documents[d].active != states[k].db.documents[d].active ==>
      Publishes(states[k], events[k], d) || (Deletes(events[k], d) && states[k + 1].db.documents[d].active.None?)
  {
    assert Moment(k);
    var e := events[k];
    if e.PublishRow? {
      ReachableStatesAreSafe(plan, states, events, k);
      PublicationLifecycle(plan, states[k], e.heads, d);
    } else if e.Outside? && (e.transaction.StoreDocument? || e.transaction.Delete?) {
    } else {
      OnlyThreeTouchDocuments(plan, states[k], e);
    }
  }

  /**
   After a tombstone commits, readers get nothing of the document until it is
   restored and then a version of it is published under a valid lease.
   */
  lemma {:induction false} HiddenUntilRepublished(
    plan: Plan, states: seq<Sys>, events: seq<Event>, i: nat, k: nat, d: string)
    requires Run(plan, states, events) && i <= k < |states|
    requires Tombstoned(states[i].db, d)
    ensures d in states[k].db.documents
    ensures !Tombstoned(states[k].db, d) ==> exists r :: i <= r < k && Restores(events[r], d)
    ensures ActiveChunks(states[k].db, d) != {} ==>
      exists r, p :: i <= r < p < k && Restores(events[r], d) && Publishes(states[p], events[p], d)
    ensures states[k].db.documents[d].active.Some? ==>
      exists r, p :: i <= r < p < k && Restores(events[r], d) && Publishes(states[p], events[p], d)
    decreases k
  {
    ReachableStatesAreSafe(plan, states, events, k);
    if i < k {
      HiddenUntilRepublished(plan, states, events, i, k - 1, d);
      ReachableStatesAreSafe(plan, states, events, k - 1);
      DocumentLifecycle(plan, states, events, k - 1, d);
    }
  }

  lemma {:induction false} ActiveUntilPublishedOrDeleted(
    plan: Plan, states: seq<Sys>, events: seq<Event>, i: nat, k: nat, d: string, v: string)
    requires Run(plan, states, events) && i <= k < |states|
    requires ActiveIs(states[i].db, d, v)
    requires forall n :: i <= n < k ==> !Publishes(states[n], events[n], d) && !Deletes(events[n], d)
    ensures ActiveIs(states[k].db, d, v)
    decreases k
  {
    if i < k {
      ActiveUntilPublishedOrDeleted(plan, states, events, i, k - 1, d, v);
      DocumentLifecycle(plan, states, events, k - 1, d);
    }
  }

  /**
   Staged publication is all or nothing. Between two moments with no
   publication and no deletion of document d, whatever else ran, failed or
   crashed, d shows the same active version, complete in the database; and if no
   deletion of d was ever dated back, complete in both stores.
   */
  lemma StagingNeverDisturbsTheActiveVersion(
    plan: Plan, states: seq<Sys>, events: seq<Event>, i: nat, k: nat, d: string, v: string)
    requires Run(plan, states, events) && i <= k < |states|
    requires ActiveIs(states[i].db, d, v)
    requires forall n :: i <= n < k ==> !Publishes(states[n], events[n], d) && !Deletes(events[n], d)
    ensures IsActive(states[k].db, d, v)
    ensures ActiveChunks(states[k].db, d) == ActiveChunks(states[i].db, d)
    ensures DeletionsOrdered(states, events, i, d) ==>
      && StoresAgree(states[i].vector, states[i].graph, v, IdSet(plan(v).chunkIds))
      && StoresAgree(states[k].vector, states[k].graph, v, IdSet(plan(v).chunkIds))
  {
    ActiveUntilPublishedOrDeleted(plan, states, events, i, k, d, v);
    ActiveManifestIsComplete(plan, states, events, i, d, v);
    ActiveManifestIsComplete(plan, states, events, k, d, v);
    if DeletionsOrdered(states, events, i, d) {
      assert forall n {:trigger Moment(n)} :: Moment(n) && i <= n < k ==> !Deletes(events[n], d);
      assert DeletionsOrdered(states, events, k, d);
    }
  }
}
