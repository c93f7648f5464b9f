/**
 Staging and replacing the roots of a snapshot. At every state a crash can leave
 behind, what each root held before is accounted for.
 */
module Replacement {
  import opened Wrappers
  import opened Filesystem
  import opened Recovery
  import opened Places
  import opened Slots
  import opened Outcome
  import opened Conservation
  import opened RestoreChecks

  // ----- What a crash may leave -----

  /** The seal is in place, and the old state of every root that was there is accounted for. */
  ghost predicate Safe(start: Tree, fs: Tree, m: Manifest, seal: Path)
    requires Recorded(m)
  {
    seal in fs && AllAccounted(start, fs, m)
  }

  /** The disk went on from one history to another, and every state on the way is safe. */
  ghost predicate WentOn(start: Tree, before: seq<Tree>, after: seq<Tree>, m: Manifest, seal: Path)
    requires Recorded(m)
  {
    before <= after && forall n :: |before| <= n < |after| ==> Safe(start, after[n], m, seal)
  }

  /** Every root that was there is still as it was. */
  ghost predicate Untouched(start: Tree, fs: Tree, roots: seq<Root>) {
    forall i :: 0 <= i < |roots| && Occupied(start, roots[i].path) ==>
      SlotOf(fs, roots[i]).target == SlotOf(start, roots[i]).target
  }

  lemma WentOnTwice(start: Tree, h0: seq<Tree>, h1: seq<Tree>, h2: seq<Tree>, m: Manifest, seal: Path)
    requires Recorded(m) && WentOn(start, h0, h1, m, seal) && WentOn(start, h1, h2, m, seal)
    ensures WentOn(start, h0, h2, m, seal)
  {
  }

  lemma SealKept(fs: Tree, gs: Tree, roots: seq<Root>, i: nat, a: Role, seal: Path)
    requires SealClear(roots, seal) && i < |roots| && OnlyAt(fs, gs, Place(roots[i], a)) && seal in fs
    ensures seal in gs && gs[seal] == fs[seal]
  {
    assert !(Place(roots[i], a) <= seal);
  }

  // ----- States while staging -----

  lemma NothingIsRetained(start: Tree, roots: seq<Root>, r: nat)
    requires Clear(start, roots) && r < |roots|
    ensures RowOf(start, roots)[r].retained == map[]
  {
    assert roots[r] in roots;
    VacantIsEmpty(start, Place(roots[r], Retained));
    assert RowOf(start, roots)[r] == SlotOf(start, roots[r]);
  }

  /** The first k stages are complete and nothing else has changed. */
  ghost predicate Staging(start: Tree, fs: Tree, m: Manifest, k: nat, seal: Path) {
    && Recorded(m) && Clear(start, m.roots) && SealClear(m.roots, seal) && k <= |m.roots| && seal in fs
    && RowOf(fs, m.roots) == StagedRow(UsesOf(m.roots), RowOf(start, m.roots), m, k)
  }

  /** Between two stages. */
  lemma StagingIsSafe(start: Tree, fs: Tree, m: Manifest, k: nat, seal: Path)
    requires Staging(start, fs, m, k, seal)
    ensures Safe(start, fs, m, seal) && Untouched(start, fs, m.roots)
  {
    var staged := StagedRow(UsesOf(m.roots), RowOf(start, m.roots), m, k);
    forall r | 0 <= r < |m.roots| ensures RowOf(fs, m.roots)[r].retained == map[] {
      NothingIsRetained(start, m.roots, r);
      assert staged[r] == StagedSlot(UsesOf(m.roots), RowOf(start, m.roots), m, k, r);
    }
    forall i | 0 <= i < |m.roots| && Occupied(start, m.roots[i].path)
      ensures Accounted(UsesOf(m.roots), start, fs, m, i)
      ensures SlotOf(fs, m.roots[i]).target == SlotOf(start, m.roots[i]).target
    {
      ExistingRootBegins(start, m, i);
      assert staged[i] == StagedSlot(UsesOf(m.roots), RowOf(start, m.roots), m, k, i);
      assert RowOf(fs, m.roots)[i] == SlotOf(fs, m.roots[i]);
      UntouchedIsAccounted(start, fs, m, i);
    }
  }

  /** While stage k is written. */
  lemma StagingState(start: Tree, before: Tree, fs: Tree, m: Manifest, k: nat, seal: Path)
    requires Staging(start, before, m, k, seal) && k < |m.roots| && OnlyAt(before, fs, Place(m.roots[k], Stage))
    ensures Safe(start, fs, m, seal) && Untouched(start, fs, m.roots)
    ensures seal in before && seal in fs && fs[seal] == before[seal]
  {
    var p := Place(m.roots[k], Stage);
    ClearIsFlat(start, m.roots);
    SealKept(before, fs, m.roots, k, Stage, seal);
    OnlyAtIsOverlay(before, fs, p);
    forall r | 0 <= r < |m.roots| ensures RowOf(fs, m.roots)[r].retained == map[] {
      SlotAfterStaging(before, m.roots, k, Sub(fs, p), r);
      NothingIsRetained(start, m.roots, r);
      assert RowOf(before, m.roots)[r] == StagedSlot(UsesOf(m.roots), RowOf(start, m.roots), m, k, r);
    }
    forall i | 0 <= i < |m.roots| && Occupied(start, m.roots[i].path)
      ensures Accounted(UsesOf(m.roots), start, fs, m, i)
      ensures SlotOf(fs, m.roots[i]).target == SlotOf(start, m.roots[i]).target
    {
      ExistingRootBegins(start, m, i);
      SlotAfterStaging(before, m.roots, k, Sub(fs, p), i);
      assert RowOf(before, m.roots)[i] == StagedSlot(UsesOf(m.roots), RowOf(start, m.roots), m, k, i);
      UntouchedIsAccounted(start, fs, m, i);
    }
  }

  /** When stage k equals its record, the table has one more column. */
  lemma StagingTurn(start: Tree, before: Tree, fs: Tree, m: Manifest, k: nat, seal: Path)
    requires Staging(start, before, m, k, seal) && k < |m.roots| && OnlyAt(before, fs, Place(m.roots[k], Stage))
    requires Sub(fs, Place(m.roots[k], Stage)) == RecordOf(m, k)
    ensures Staging(start, fs, m, k + 1, seal)
  {
    ClearIsFlat(start, m.roots);
    SealKept(before, fs, m.roots, k, Stage, seal);
    OnlyAtIsOverlay(before, fs, Place(m.roots[k], Stage));
    RowAfterStaging(RowOf(start, m.roots), before, m, k);
  }

  // ----- States while replacing -----

  lemma RenamedSeal(fs: Tree, roots: seq<Root>, i: nat, a: Role, b: Role, seal: Path)
    requires SealClear(roots, seal) && i < |roots| && seal in fs
    ensures var gs := Renamed(fs, Place(roots[i], a), Place(roots[i], b)); seal in gs && gs[seal] == fs[seal]
  {
    assert !(Place(roots[i], a) <= seal) && !(Place(roots[i], b) <= seal);
  }

  /** Names a turn, so that a proof unfolds the table only where it speaks of that turn. */
  predicate Turn(t: int) { true }

  /** All stages were complete and the first k roots are swapped. */
  ghost predicate Replacing(start: Tree, fs: Tree, m: Manifest, k: nat, seal: Path) {
    && Recorded(m) && Clear(start, m.roots) && SealClear(m.roots, seal) && k <= |m.roots| && seal in fs
    && forall t: nat {:trigger Turn(t)} :: Turn(t) && t == k ==>
         && Runs(UsesOf(m.roots), StagedTable(start, m), t)
         && RowOf(fs, m.roots) == After(UsesOf(m.roots), StagedTable(start, m), t)
  }

  lemma BetweenSwaps(start: Tree, fs: Tree, m: Manifest, k: nat, seal: Path)
    requires Replacing(start, fs, m, k, seal)
    ensures Safe(start, fs, m, seal)
  {
    assert Turn(k);
    AccountedBetweenSwaps(start, fs, m, k);
  }

  lemma WithinASwap(start: Tree, fs: Tree, m: Manifest, k: nat, seal: Path)
    requires Replacing(start, fs, m, k, seal) && k < |m.roots|
    requires CanRename(fs, Place(m.roots[k], Target), Place(m.roots[k], Retained))
    ensures Safe(start, Half(fs, m.roots[k]), m, seal)
  {
    assert Turn(k);
    RenamedSeal(fs, m.roots, k, Target, Retained, seal);
    AccountedWithinASwap(start, fs, m, k);
  }

  /** A swap on the disk is the next row of the table. */
  lemma NextRow(start: Tree, fs: Tree, m: Manifest, k: nat)
    requires Recorded(m) && Clear(start, m.roots) && k < |m.roots| && Runs(UsesOf(m.roots), StagedTable(start, m), k)
    requires RowOf(fs, m.roots) == After(UsesOf(m.roots), StagedTable(start, m), k) && CanSwap(RowOf(fs, m.roots), k)
    ensures Runs(UsesOf(m.roots), StagedTable(start, m), k + 1)
    ensures RowOf(Swapped(fs, m.roots[k]), m.roots) == After(UsesOf(m.roots), StagedTable(start, m), k + 1)
  {
    ClearIsFlat(start, m.roots);
    RowAfterSwap(fs, m.roots, k);
    RunsOn(UsesOf(m.roots), StagedTable(start, m), k, RowOf(fs, m.roots));
  }

  lemma SwappedSeal(fs: Tree, roots: seq<Root>, k: nat, seal: Path)
    requires SealClear(roots, seal) && k < |roots| && seal in fs
    ensures seal in Swapped(fs, roots[k]) && Swapped(fs, roots[k])[seal] == fs[seal]
  {
    RenamedSeal(fs, roots, k, Target, Retained, seal);
    RenamedSeal(Half(fs, roots[k]), roots, k, Stage, Target, seal);
  }

  lemma AtTurn(start: Tree, fs: Tree, m: Manifest, k: nat, seal: Path)
    requires Recorded(m) && Clear(start, m.roots) && SealClear(m.roots, seal) && k <= |m.roots| && seal in fs
    requires Runs(UsesOf(m.roots), StagedTable(start, m), k)
    requires RowOf(fs, m.roots) == After(UsesOf(m.roots), StagedTable(start, m), k)
    ensures Replacing(start, fs, m, k, seal)
  {
  }

  lemma AfterASwap(start: Tree, fs: Tree, m: Manifest, k: nat, seal: Path)
    requires Replacing(start, fs, m, k, seal) && k < |m.roots| && CanSwap(RowOf(fs, m.roots), k)
    ensures Replacing(start, Swapped(fs, m.roots[k]), m, k + 1, seal)
    ensures seal in fs && Swapped(fs, m.roots[k])[seal] == fs[seal]
  {
    assert Turn(k);
    NextRow(start, fs, m, k);
    SwappedSeal(fs, m.roots, k, seal);
    AtTurn(start, Swapped(fs, m.roots[k]), m, k + 1, seal);
  }

  // ----- A world in which nothing fails -----

  /** Copies are exact and access lists are set as told, for this root. */
  ghost predicate Exact(world: World, root: Root, record: Tree) {
    && world.copied(root.name) && world.accessSet(root.name)
    && world.copies(root.name) == [Contents(record)] && world.access(root.name) == [record]
  }

  /** Every call outside succeeds. */
  ghost predicate Smooth(world: World, m: Manifest)
    requires Recorded(m)
  {
    && (forall n :: world.stopped(n) && world.renames(n))
    && forall i :: 0 <= i < |m.roots| ==> Exact(world, m.roots[i], RecordOf(m, i))
  }

  /** A stage can be created and reached without links. */
  predicate Reachable(fs: Tree, p: Path) {
    CanCreate(fs, p) && NoReparse(fs, p)
  }

  lemma ContentsMatch(record: Tree)
    requires Ordinary(record)
    ensures Contents(Contents(record)) == Contents(record) && Ordinary(Contents(record))
  {
  }

  /** What an exact copy leaves can be inventoried, at either point of staging. */
  lemma ExactStage(fs: Tree, p: Path, t: Tree)
    requires Reachable(fs, p) && Ordinary(t)
    ensures Inventory(Overlay(fs, p, t), p) == Some(t)
  {
    var gs := Overlay(fs, p, t);
    OverlayHere(fs, p, t);
    assert p + [] == p;
    assert [] in Sub(gs, p) && Sub(gs, p)[[]] == gs[p];
    forall n | 0 <= n <= |p| && p[..n] in gs ensures gs[p[..n]] != Special {
      if n < |p| {
        assert !(p <= p[..n]);
      } else {
        assert p[..n] == p;
      }
    }
  }

  /** Writing another stage leaves a stage reachable. */
  lemma StillReachable(fs: Tree, roots: seq<Root>, k: nat, i: nat, t: Tree)
    requires Flat(roots) && k < |roots| && i < |roots| && i != k && Reachable(fs, Place(roots[i], Stage))
    ensures Reachable(Overlay(fs, Place(roots[k], Stage), t), Place(roots[i], Stage))
  {
    var p, q := Place(roots[k], Stage), Place(roots[i], Stage);
    PlacesMeetOnlyAtRoots(roots, i, Stage, k, Stage);
    OverlayElsewhere(fs, p, t, q);
    VacantIsEmpty(fs, q);
    VacantIsEmpty(Overlay(fs, p, t), q);
    forall n | 0 <= n < |q| ensures !(p <= q[..n]) {
      assert q[..n] <= q;
    }
    assert q[..|q|] == q && Parent(q) == q[..|q| - 1];
  }

  // ----- Staging and replacing -----

  const PRIVATE := "O:BAG:BAD:P(A;OICI;FA;;;SY)(A;OICI;FA;;;BA)"

  /** A program that works below one directory takes it through these states. */
  method WriteStates(disk: Disk, p: Path, states: seq<Tree>, ghost start: Tree)
    requires OnlyAt(start, disk.tree, p)
    modifies disk
    ensures old(disk.history) <= disk.history && OnlyAt(start, disk.tree, p)
    ensures forall n :: |old(disk.history)| <= n < |disk.history| ==> OnlyAt(start, disk.history[n], p)
    ensures Sub(disk.tree, p) == if states == [] then Sub(old(disk.tree), p) else states[|states| - 1]
  {
    for k := 0 to |states|
      invariant old(disk.history) <= disk.history && OnlyAt(start, disk.tree, p)
      invariant forall n :: |old(disk.history)| <= n < |disk.history| ==> OnlyAt(start, disk.history[n], p)
      invariant Sub(disk.tree, p) == if k == 0 then Sub(old(disk.tree), p) else states[k - 1]
    {
      OverlayOnlyAt(disk.tree, p, states[k]);
      OverlayHere(disk.tree, p, states[k]);
      disk.Put(p, states[k]);
    }
  }

  /** Copies one root to its stage and compares the contents. */
  method CopyBack(disk: Disk, root: Root, record: Tree, world: World) returns (failure: Option<Failure>)
    requires Ordinary(record)
    modifies disk
    ensures old(disk.history) <= disk.history && OnlyAt(old(disk.tree), disk.tree, Place(root, Stage))
    ensures forall n :: |old(disk.history)| <= n < |disk.history| ==>
      OnlyAt(old(disk.tree), disk.history[n], Place(root, Stage))
    ensures Exact(world, root, record) && Reachable(old(disk.tree), Place(root, Stage)) ==> failure.None?
  {
    var stage := Place(root, Stage);
    if !CanCreate(disk.tree, stage) {
      return Some(StageExists);
    }
    ghost var start := disk.tree;
    var states := [map[[] := Directory(world.mtime, "")], map[[] := Directory(world.mtime, PRIVATE)]];
    WriteStates(disk, stage, states + world.copies(root.name), start);
    OnlyAtIsOverlay(start, disk.tree, stage);
    if Exact(world, root, record) && Reachable(start, stage) {
      ContentsMatch(record);
      ExactStage(start, stage, Contents(record));
    }
    if !world.copied(root.name) {
      return Some(CopyFailed);
    }
    if !Matches(disk.tree, stage, record) {
      return Some(StageDiffers);
    }
    return None;
  }

  /** Writes one stage and nothing else, and compares contents and access lists with the record. */
  method StageRoot(disk: Disk, root: Root, record: Tree, world: World) returns (failure: Option<Failure>)
    requires Ordinary(record)
    modifies disk
    ensures old(disk.history) <= disk.history && OnlyAt(old(disk.tree), disk.tree, Place(root, Stage))
    ensures forall n :: |old(disk.history)| <= n < |disk.history| ==>
      OnlyAt(old(disk.tree), disk.history[n], Place(root, Stage))
    ensures failure.None? ==> Sub(disk.tree, Place(root, Stage)) == record
    ensures Exact(world, root, record) && Reachable(old(disk.tree), Place(root, Stage)) ==> failure.None?
  {
    var stage := Place(root, Stage);
    ghost var start := disk.tree;
    failure := CopyBack(disk, root, record, world);
    if failure.Some? {
      return;
    }
    WriteStates(disk, stage, world.access(root.name), start);
    OnlyAtIsOverlay(start, disk.tree, stage);
    if Exact(world, root, record) && Reachable(start, stage) {
      ExactStage(start, stage, record);
    }
    if !world.accessSet(root.name) || Inventory(disk.tree, stage) != Some(record) {
      return Some(AccessDiffers);
    }
    return None;
  }

  /** All stages that are not written yet are reachable. */
  ghost predicate StagesReachable(fs: Tree, roots: seq<Root>, k: nat) {
    forall i :: k <= i < |roots| ==> Reachable(fs, Place(roots[i], Stage))
  }

  lemma StagesStayReachable(fs: Tree, gs: Tree, roots: seq<Root>, k: nat)
    requires Flat(roots) && k < |roots| && StagesReachable(fs, roots, k) && OnlyAt(fs, gs, Place(roots[k], Stage))
    ensures StagesReachable(gs, roots, k + 1)
  {
    OnlyAtIsOverlay(fs, gs, Place(roots[k], Stage));
    forall i | k + 1 <= i < |roots| ensures Reachable(gs, Place(roots[i], Stage)) {
      StillReachable(fs, roots, k, i, Sub(gs, Place(roots[k], Stage)));
    }
  }

  /** The seal stays and says the same. */
  predicate SameSeal(fs: Tree, gs: Tree, seal: Path) {
    seal in fs && seal in gs && gs[seal] == fs[seal]
  }

  method StageNext(disk: Disk, m: Manifest, k: nat, seal: Path, world: World, ghost start: Tree)
    returns (failure: Option<Failure>)
    requires Staging(start, disk.tree, m, k, seal) && k < |m.roots|
    modifies disk
    ensures WentOn(start, old(disk.history), disk.history, m, seal)
    ensures failure.None? ==> Staging(start, disk.tree, m, k + 1, seal)
    ensures Untouched(start, disk.tree, m.roots) && SameSeal(old(disk.tree), disk.tree, seal)
    ensures StagesReachable(old(disk.tree), m.roots, k) ==>
      && StagesReachable(disk.tree, m.roots, k + 1)
      && (Smooth(world, m) ==> failure.None?)
  {
    failure := StageRoot(disk, m.roots[k], RecordOf(m, k), world);
    forall n | |old(disk.history)| <= n < |disk.history| ensures Safe(start, disk.history[n], m, seal) {
      StagingState(start, old(disk.tree), disk.history[n], m, k, seal);
    }
    StagingState(start, old(disk.tree), disk.tree, m, k, seal);
    if StagesReachable(old(disk.tree), m.roots, k) {
      ClearIsFlat(start, m.roots);
      StagesStayReachable(old(disk.tree), disk.tree, m.roots, k);
    }
    if failure.None? {
      StagingTurn(start, old(disk.tree), disk.tree, m, k, seal);
    }
  }

  method StageAll(disk: Disk, m: Manifest, seal: Path, world: World, ghost start: Tree)
    returns (failure: Option<Failure>)
    requires Staging(start, disk.tree, m, 0, seal)
    modifies disk
    ensures WentOn(start, old(disk.history), disk.history, m, seal)
    ensures failure.None? ==> Replacing(start, disk.tree, m, 0, seal)
    ensures Untouched(start, disk.tree, m.roots) && SameSeal(old(disk.tree), disk.tree, seal)
    ensures Smooth(world, m) && StagesReachable(old(disk.tree), m.roots, 0) ==> failure.None?
  {
    StagingIsSafe(start, disk.tree, m, 0, seal);
    for k := 0 to |m.roots|
      invariant WentOn(start, old(disk.history), disk.history, m, seal)
      invariant Staging(start, disk.tree, m, k, seal)
      invariant Untouched(start, disk.tree, m.roots) && SameSeal(old(disk.tree), disk.tree, seal)
      invariant StagesReachable(old(disk.tree), m.roots, 0) ==> StagesReachable(disk.tree, m.roots, k)
    {
      ghost var before := disk.history;
      failure := StageNext(disk, m, k, seal, world, start);
      WentOnTwice(start, old(disk.history), before, disk.history, m, seal);
      if failure.Some? {
        return;
      }
    }
    return None;
  }

  /** Renames when the source is there and the new name is free. */
  method TryRename(disk: Disk, p: Path, q: Path, allowed: bool) returns (done: bool)
    requires Disjoint(p, q)
    modifies disk
    ensures done <==> allowed && CanRename(old(disk.tree), p, q)
    ensures done ==> disk.tree == Renamed(old(disk.tree), p, q) && disk.history == old(disk.history) + [disk.tree]
    ensures !done ==> disk.tree == old(disk.tree) && disk.history == old(disk.history)
  {
    if !allowed || !CanRename(disk.tree, p, q) {
      return false;
    }
    disk.Rename(p, q);
    return true;
  }

  /** The states that the first renames of a root lead to. */
  function Steps(half: Tree, whole: Tree, done: nat): seq<Tree> {
    if done == 0 then [] else if done == 1 then [half] else [half, whole]
  }

  lemma RenamesMoveApart(root: Root)
    requires root.path != []
    ensures Disjoint(Place(root, Target), Place(root, Retained)) && Disjoint(Place(root, Stage), Place(root, Target))
  {
    OwnPlacesDiffer(root, Target, Retained);
    OwnPlacesDiffer(root, Retained, Target);
    OwnPlacesDiffer(root, Target, Stage);
    OwnPlacesDiffer(root, Stage, Target);
  }

  /** The two renames of one root, and how many of them were done. */
  method SwapRoot(disk: Disk, root: Root, first: bool, second: bool) returns (done: nat)
    requires root.path != []
    modifies disk
    ensures done <= 2
    ensures done >= 1 <==> first && CanRename(old(disk.tree), Place(root, Target), Place(root, Retained))
    ensures done == 2 <==>
      done >= 1 && second && CanRename(Half(old(disk.tree), root), Place(root, Stage), Place(root, Target))
    ensures disk.history == old(disk.history) + Steps(Half(old(disk.tree), root), Swapped(old(disk.tree), root), done)
    ensures done == 2 ==> disk.tree == Swapped(old(disk.tree), root)
  {
    RenamesMoveApart(root);
    var retired := TryRename(disk, Place(root, Target), Place(root, Retained), first);
    if !retired {
      return 0;
    }
    var installed := TryRename(disk, Place(root, Stage), Place(root, Target), second);
    return if installed then 2 else 1;
  }

  lemma SafeSteps(start: Tree, history: seq<Tree>, half: Tree, whole: Tree, done: nat, m: Manifest, seal: Path)
    requires Recorded(m) && done <= 2
    requires (done >= 1 ==> Safe(start, half, m, seal)) && (done == 2 ==> Safe(start, whole, m, seal))
    ensures WentOn(start, history, history + Steps(half, whole, done), m, seal)
  {
  }

  /** When all stages are complete, every swap is possible in its turn. */
  ghost predicate Swappable(start: Tree, m: Manifest) {
    Recorded(m) && Runs(UsesOf(m.roots), StagedTable(start, m), |m.roots|)
  }

  lemma NextIsSwappable(start: Tree, fs: Tree, m: Manifest, k: nat, seal: Path)
    requires Replacing(start, fs, m, k, seal) && k < |m.roots| && Swappable(start, m)
    ensures CanSwap(RowOf(fs, m.roots), k)
  {
    assert Turn(k);
    NextSwap(UsesOf(m.roots), StagedTable(start, m), |m.roots|, k, RowOf(fs, m.roots));
  }

  /** Retires root k and installs its stage. */
  method ReplaceRoot(disk: Disk, m: Manifest, k: nat, seal: Path, world: World, ghost start: Tree) returns (done: bool)
    requires Replacing(start, disk.tree, m, k, seal) && k < |m.roots|
    modifies disk
    ensures WentOn(start, old(disk.history), disk.history, m, seal)
    ensures done ==> Replacing(start, disk.tree, m, k + 1, seal) && SameSeal(old(disk.tree), disk.tree, seal)
    ensures (forall n :: world.renames(n)) && Swappable(start, m) ==> done
  {
    ghost var before, from := disk.tree, disk.history;
    CanSwapMeans(before, m.roots, k);
    if Swappable(start, m) {
      NextIsSwappable(start, before, m, k, seal);
    }
    var swapped := SwapRoot(disk, m.roots[k], world.renames(2 * k), world.renames(2 * k + 1));
    if swapped >= 1 {
      WithinASwap(start, before, m, k, seal);
    }
    if swapped == 2 {
      AfterASwap(start, before, m, k, seal);
      BetweenSwaps(start, disk.tree, m, k + 1, seal);
    }
    SafeSteps(start, from, Half(before, m.roots[k]), Swapped(before, m.roots[k]), swapped, m, seal);
    return swapped == 2;
  }

  method ReplaceAll(disk: Disk, m: Manifest, seal: Path, world: World, ghost start: Tree)
    returns (failure: Option<Failure>)
    requires Replacing(start, disk.tree, m, 0, seal)
    modifies disk
    ensures WentOn(start, old(disk.history), disk.history, m, seal)
    ensures failure.None? ==>
      Replacing(start, disk.tree, m, |m.roots|, seal) && SameSeal(old(disk.tree), disk.tree, seal)
    ensures failure.None? || failure == Some(RenameFailed)
    ensures (forall n :: world.renames(n)) && Swappable(start, m) ==> failure.None?
  {
    for k := 0 to |m.roots|
      invariant WentOn(start, old(disk.history), disk.history, m, seal)
      invariant Replacing(start, disk.tree, m, k, seal) && SameSeal(old(disk.tree), disk.tree, seal)
    {
      ghost var before := disk.history;
      var done := ReplaceRoot(disk, m, k, seal, world, start);
      WentOnTwice(start, old(disk.history), before, disk.history, m, seal);
      if !done {
        return Some(RenameFailed);
      }
    }
    return None;
  }
}
