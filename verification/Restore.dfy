/**
 Restoring a reviewed snapshot. At every state a crash can leave behind, the
 exposure seal is in place and what a root held before can be found, unless
 another root has the name under which it is retained; what a completed restore
 has installed and retained is exactly determined.
 */
module Restore {
  import opened Wrappers
  import opened Filesystem
  import opened Recovery
  import opened Places
  import opened Slots
  import opened Outcome
  import opened Conservation
  import opened RestoreChecks
  import opened Replacement

  // ----- The seal -----

  lemma SealLeavesPlaces(start: Tree, fs: Tree, roots: seq<Root>, seal: Path, i: nat, a: Role)
    requires !Occupied(start, seal) && SealClear(roots, seal) && i < |roots|
    requires OnlyAt(start, fs, seal) && Sub(fs, seal).Keys == {[]}
    ensures Sub(fs, Place(roots[i], a)) == Sub(start, Place(roots[i], a))
  {
    assert !(Place(roots[i], a) <= seal);
    NewNodeElsewhere(start, fs, seal, Place(roots[i], a));
  }

  lemma SealLeavesTheTable(start: Tree, fs: Tree, m: Manifest, seal: Path)
    requires Recorded(m) && !Occupied(start, seal) && SealClear(m.roots, seal)
    requires OnlyAt(start, fs, seal) && Sub(fs, seal).Keys == {[]}
    ensures RowOf(fs, m.roots) == StagedRow(UsesOf(m.roots), RowOf(start, m.roots), m, 0)
  {
    var staged := StagedRow(UsesOf(m.roots), RowOf(start, m.roots), m, 0);
    forall i | 0 <= i < |m.roots| ensures SlotOf(fs, m.roots[i]) == staged[i] {
      SealLeavesPlaces(start, fs, m.roots, seal, i, Target);
      SealLeavesPlaces(start, fs, m.roots, seal, i, Stage);
      SealLeavesPlaces(start, fs, m.roots, seal, i, Retained);
      assert staged[i] == StagedSlot(UsesOf(m.roots), RowOf(start, m.roots), m, 0, i);
    }
  }

  lemma SealLeavesStagesReachable(start: Tree, fs: Tree, roots: seq<Root>, seal: Path)
    requires !Occupied(start, seal) && SealClear(roots, seal) && StagesReachable(start, roots, 0)
    requires OnlyAt(start, fs, seal) && Sub(fs, seal).Keys == {[]} && Sub(fs, seal)[[]].File?
    ensures StagesReachable(fs, roots, 0)
  {
    forall i | 0 <= i < |roots| ensures Reachable(fs, Place(roots[i], Stage)) {
      var p := Place(roots[i], Stage);
      SealLeavesPlaces(start, fs, roots, seal, i, Stage);
      VacantIsEmpty(start, p);
      VacantIsEmpty(fs, p);
      assert Parent(p) in start && Reachable(start, p);
      forall n | 0 <= n <= |p| && p[..n] in fs ensures fs[p[..n]] != Special {
        NewNodeIsTheSeal(start, fs, seal, p[..n]);
      }
    }
  }

  lemma NewNodeIsTheSeal(start: Tree, fs: Tree, seal: Path, p: Path)
    requires !Occupied(start, seal) && OnlyAt(start, fs, seal) && Sub(fs, seal).Keys == {[]} && p in fs
    ensures p == seal || (p in start && fs[p] == start[p])
    ensures seal in fs && fs[seal] == Sub(fs, seal)[[]]
  {
    assert [] in Sub(fs, seal) && seal + [] == seal;
    if seal <= p && p != seal {
      NothingBelowANewNode(start, fs, seal, p);
    }
  }

  /** Creates the seal or writes what it says. */
  method PutSeal(disk: Disk, m: Manifest, seal: Path, file: Node, ghost start: Tree)
    requires Ready(start, m, seal) && OnlyAt(start, disk.tree, seal) && file.File?
    modifies disk
    ensures disk.history == old(disk.history) + [disk.tree] && OnlyAt(start, disk.tree, seal)
    ensures Staging(start, disk.tree, m, 0, seal)
    ensures StagesReachable(start, m.roots, 0) ==> StagesReachable(disk.tree, m.roots, 0)
    ensures seal in disk.tree && disk.tree[seal] == file
  {
    OverlayOnlyAt(disk.tree, seal, map[[] := file]);
    OverlayHere(disk.tree, seal, map[[] := file]);
    disk.Put(seal, map[[] := file]);
    assert [] in Sub(disk.tree, seal) && seal + [] == seal && Sub(disk.tree, seal)[[]] == disk.tree[seal];
    SealLeavesTheTable(start, disk.tree, m, seal);
    if StagesReachable(start, m.roots, 0) {
      SealLeavesStagesReachable(start, disk.tree, m.roots, seal);
    }
  }

  /** The seal names the snapshot that is being restored. */
  predicate Tells(fs: Tree, seal: Path, approved: Blob) {
    seal in fs && fs[seal].File? && fs[seal].data == Sealed(approved)
  }

  /** The exclusive creation of the seal, then its text. */
  method SealDisk(disk: Disk, m: Manifest, seal: Path, mtime: int)
    requires Ready(disk.tree, m, seal)
    modifies disk
    ensures old(disk.history) < disk.history && WentOn(old(disk.tree), old(disk.history), disk.history, m, seal)
    ensures Staging(old(disk.tree), disk.tree, m, 0, seal)
    ensures StagesReachable(old(disk.tree), m.roots, 0) ==> StagesReachable(disk.tree, m.roots, 0)
    ensures Tells(disk.tree, seal, Snapshot(m))
  {
    ghost var start := disk.tree;
    PutSeal(disk, m, seal, File(mtime, Text(""), ""), start);
    StagingIsSafe(start, disk.tree, m, 0, seal);
    PutSeal(disk, m, seal, File(mtime, Sealed(Snapshot(m)), ""), start);
    StagingIsSafe(start, disk.tree, m, 0, seal);
  }

  /** The writing half of a restore. */
  method Proceed(disk: Disk, m: Manifest, seal: Path, world: World) returns (failure: Option<Failure>)
    requires Ready(disk.tree, m, seal)
    modifies disk
    ensures old(disk.history) < disk.history && WentOn(old(disk.tree), old(disk.history), disk.history, m, seal)
    ensures failure.None? ==>
      && Replacing(old(disk.tree), disk.tree, m, |m.roots|, seal)
      && Tells(disk.tree, seal, Snapshot(m)) && world.stopped(1)
    ensures failure.Some? && failure != Some(RenameFailed) ==>
      Untouched(old(disk.tree), disk.tree, m.roots) && Tells(disk.tree, seal, Snapshot(m))
    ensures !world.stopped(1) ==> failure.Some? && Untouched(old(disk.tree), disk.tree, m.roots)
    ensures Smooth(world, m) && StagesReachable(old(disk.tree), m.roots, 0) && Swappable(old(disk.tree), m) ==>
      failure.None?
  {
    ghost var start := disk.tree;
    SealDisk(disk, m, seal, world.mtime);
    ghost var sealed := disk.history;
    failure := StageAll(disk, m, seal, world, start);
    WentOnTwice(start, old(disk.history), sealed, disk.history, m, seal);
    if failure.Some? {
      return;
    }
    if !world.stopped(1) {
      return Some(NotStopped);
    }
    ghost var staged := disk.history;
    failure := ReplaceAll(disk, m, seal, world, start);
    WentOnTwice(start, old(disk.history), staged, disk.history, m, seal);
  }

  // ----- The restore -----

  /** The directory of every root is one. */
  predicate InDirectories(fs: Tree, roots: seq<Root>) {
    forall root <- roots :: root.path != [] && Parent(root.path) in fs && fs[Parent(root.path)].Directory?
  }

  lemma StagesAreReachable(fs: Tree, snapshot: Path, m: Manifest)
    requires RootsRefusal(fs, snapshot, m, m.roots).None? && InDirectories(fs, m.roots)
    ensures StagesReachable(fs, m.roots, 0)
  {
    forall i | 0 <= i < |m.roots| ensures Reachable(fs, Place(m.roots[i], Stage)) {
      assert m.roots[i] in m.roots && RootRefusal(fs, snapshot, m, m.roots[i]).None?;
      assert Parent(Place(m.roots[i], Stage)) == Parent(m.roots[i].path);
    }
  }

  /** A completed restore, with the exact conditions of its two promises. */
  ghost predicate Kept(start: Tree, end: Tree, m: Manifest, seal: Path)
    requires Recorded(m)
  {
    && seal in end && AllInTurn(start, m.roots)
    && (AllInstalled(end, m) <==> NoRootIsALaterStage(m.roots))
    && AllAccounted(start, end, m)
    && forall i :: 0 <= i < |m.roots| && Occupied(start, m.roots[i].path) ==>
         (SlotOf(end, m.roots[i]).retained == SlotOf(start, m.roots[i]).target <==> NameKept(start, m, i))
  }

  lemma CompletedIsKept(start: Tree, end: Tree, m: Manifest, seal: Path)
    requires Replacing(start, end, m, |m.roots|, seal)
    ensures Kept(start, end, m, seal)
  {
    assert Turn(|m.roots|);
    InstalledExactlyWhenNoStageIsReused(start, end, m);
    BetweenSwaps(start, end, m, |m.roots|, seal);
    RunsExactlyWhenAllInTurn(start, m);
    forall i | 0 <= i < |m.roots| && Occupied(start, m.roots[i].path)
      ensures SlotOf(end, m.roots[i]).retained == SlotOf(start, m.roots[i]).target <==> NameKept(start, m, i)
    {
      RetainedExactlyUnlessTheNameIsTaken(start, end, m, i);
    }
  }

  /** A restore that passed the checks. */
  method RestoreChecked(disk: Disk, m: Manifest, seal: Path, world: World) returns (failure: Option<Failure>)
    requires Ready(disk.tree, m, seal)
    modifies disk
    ensures old(disk.history) < disk.history && WentOn(old(disk.tree), old(disk.history), disk.history, m, seal)
    ensures failure.None? ==>
      Kept(old(disk.tree), disk.tree, m, seal) && Tells(disk.tree, seal, Snapshot(m)) && world.stopped(1)
    ensures failure.Some? && failure != Some(RenameFailed) ==>
      Untouched(old(disk.tree), disk.tree, m.roots) && Tells(disk.tree, seal, Snapshot(m))
    ensures !world.stopped(1) ==> failure.Some? && Untouched(old(disk.tree), disk.tree, m.roots)
    ensures Smooth(world, m) && StagesReachable(old(disk.tree), m.roots, 0) && AllInTurn(old(disk.tree), m.roots) ==>
      failure.None?
  {
    ghost var start := disk.tree;
    RunsExactlyWhenAllInTurn(start, m);
    failure := Proceed(disk, m, seal, world);
    if failure.None? {
      CompletedIsKept(start, disk.tree, m, seal);
    }
  }

  /** Every root that was there is still as it was, by its path. */
  predicate RootsUntouched(start: Tree, fs: Tree, roots: seq<Root>) {
    forall root <- roots :: Occupied(start, root.path) ==> Sub(fs, root.path) == Sub(start, root.path)
  }

  lemma UntouchedByPath(start: Tree, fs: Tree, roots: seq<Root>)
    requires Untouched(start, fs, roots) && forall root <- roots :: root.path != []
    ensures RootsUntouched(start, fs, roots)
  {
    forall root | root in roots && Occupied(start, root.path) ensures Sub(fs, root.path) == Sub(start, root.path) {
      var i :| 0 <= i < |roots| && roots[i] == root;
      OwnPlace(roots[i]);
    }
  }

  /**
   A restore. Whatever is refused before the seal leaves the disk untouched.
   From the seal on, every state a crash can leave holds the seal and the old
   state of every root that was there, unless another root has its retained name.
   When nothing outside fails, it completes if and only if every root is there in
   its turn; what a completed restore has installed and retained is exactly known.
   Running services stop it before the seal, or before any root is renamed; and
   only a failed rename can leave a root that was there other than it was.
   */
  method Restore(disk: Disk, specs: Specs, snapshot: Path, approved: Blob, seal: Path, world: World)
    returns (result: Result<nat, Failure>)
    modifies disk
    ensures var refusal := Refusal(old(disk.tree), specs, snapshot, approved, seal, world);
      refusal.Some? ==> result == Err(refusal.value) && disk.tree == old(disk.tree) && disk.history == old(disk.history)
    ensures Refusal(old(disk.tree), specs, snapshot, approved, seal, world).None? ==>
      && approved.Snapshot? && Recorded(approved.manifest) && old(disk.history) < disk.history
      && WentOn(old(disk.tree), old(disk.history), disk.history, approved.manifest, seal)
      && (Smooth(world, approved.manifest) && InDirectories(old(disk.tree), approved.manifest.roots) ==>
            (result.Ok? <==> AllInTurn(old(disk.tree), approved.manifest.roots)))
    ensures result.Ok? ==>
      && approved.Snapshot? && Recorded(approved.manifest) && result.value == |approved.manifest.roots|
      && Kept(old(disk.tree), disk.tree, approved.manifest, seal) && Tells(disk.tree, seal, approved)
      && world.stopped(0) && world.stopped(1)
    ensures !world.stopped(0) ==> result.Err? && disk.tree == old(disk.tree) && disk.history == old(disk.history)
    ensures approved.Snapshot? && (!world.stopped(1) || (result.Err? && result.error != RenameFailed)) ==>
      result.Err? && RootsUntouched(old(disk.tree), disk.tree, approved.manifest.roots)
  {
    ghost var start := disk.tree;
    var refusal := Check(disk.tree, specs, snapshot, approved, seal, world);
    if refusal.Some? {
      return Err(refusal.value);
    }
    PassedChecks(disk.tree, specs, snapshot, approved, seal, world);
    if InDirectories(start, approved.manifest.roots) {
      StagesAreReachable(start, snapshot, approved.manifest);
    }
    var failure := RestoreChecked(disk, approved.manifest, seal, world);
    if Untouched(start, disk.tree, approved.manifest.roots) {
      UntouchedByPath(start, disk.tree, approved.manifest.roots);
    }
    if failure.Some? {
      return Err(failure.value);
    }
    return Ok(|approved.manifest.roots|);
  }

  // ----- Round trip -----

  /** Every root holds what it held in another state, times and access lists included. */
  predicate SameRoots(fs: Tree, gs: Tree, roots: seq<Root>) {
    forall root <- roots :: Sub(gs, root.path) == Sub(fs, root.path)
  }

  lemma InstalledIsAsBefore(before: Tree, end: Tree, m: Manifest)
    requires Recorded(m) && forall root <- m.roots :: m.inventory[root.name] == Sub(before, root.path)
    ensures AllInstalled(end, m) <==> SameRoots(before, end, m.roots)
  {
    forall i | 0 <= i < |m.roots| ensures RecordOf(m, i) == Sub(before, m.roots[i].path) {
      assert m.roots[i] in m.roots;
    }
  }

  /** After a completed restore of roots that existed, all old states are under their retained names. */
  lemma ExistingStatesAreRetained(start: Tree, end: Tree, m: Manifest, seal: Path)
    requires Recorded(m) && Clear(start, m.roots) && AllExist(start, m.roots) && Kept(start, end, m, seal)
    ensures AllRetained(start, end, m.roots)
  {
    forall i | 0 <= i < |m.roots| ensures SlotOf(end, m.roots[i]).retained == SlotOf(start, m.roots[i]).target {
      assert m.roots[i] in m.roots;
      ExistingNamesAreKept(start, m, i);
    }
  }

  /**
   A backup and a later restore of it, with anything at all done to the disk in
   between. When both complete, every root is exactly what it was if and only if
   no root is named like the stage of a root behind it; none ever is when all roots
   are there at the restore.
   */
  method BackupAndRestore(disk: Disk, specs: Specs, roots: seq<Root>, output: Path, seal: Path,
                          world: World, meanwhile: Tree, later: World)
    returns (completed: bool)
    requires DistinctLabels(roots)
    modifies disk
    ensures completed ==> (SameRoots(old(disk.tree), disk.tree, roots) <==> NoRootIsALaterStage(roots))
    ensures completed && AllExist(meanwhile, roots) ==>
      SameRoots(old(disk.tree), disk.tree, roots) && AllRetained(meanwhile, disk.tree, roots)
  {
    var backup := Backup(disk, specs, roots, output, world);
    if backup.Err? {
      return false;
    }
    var m := backup.value;
    disk.Become(meanwhile);
    var restored := Restore(disk, specs, output, Snapshot(m), seal, later);
    if restored.Ok? {
      PassedChecks(meanwhile, specs, output, Snapshot(m), seal, later);
      InstalledIsAsBefore(old(disk.tree), disk.tree, m);
      if AllExist(meanwhile, roots) {
        ExistingRootsAreNoStages(meanwhile, roots);
        ExistingStatesAreRetained(meanwhile, disk.tree, m, seal);
      }
    }
    return restored.Ok?;
  }
}
