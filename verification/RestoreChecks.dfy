/** What a restore looks at before it writes anything. */
module RestoreChecks {
  import opened Wrappers
  import opened Filesystem
  import opened Recovery
  import opened Places
  import opened Outcome

  // ----- What is checked before anything is written -----

  /** Why one root of the snapshot may not be restored. */
  function RootRefusal(fs: Tree, snapshot: Path, m: Manifest, root: Root): Option<Failure> {
    if root.name !in m.inventory then Some(BadInventory)
    else if !Matches(fs, Copy(snapshot, root), m.inventory[root.name]) then Some(SnapshotDiffers)
    else if Occupied(fs, Place(root, Stage)) || Occupied(fs, Place(root, Retained)) then Some(Leftovers)
    else if !NoReparse(fs, Place(root, Stage)) || !NoReparse(fs, Place(root, Retained)) then Some(Reparse)
    else None
  }

  function RootsRefusal(fs: Tree, snapshot: Path, m: Manifest, roots: seq<Root>): (refusal: Option<Failure>)
    ensures refusal.None? <==> forall root <- roots :: RootRefusal(fs, snapshot, m, root).None?
  {
    if roots == [] then None else
      var refusal := RootRefusal(fs, snapshot, m, roots[0]);
      if refusal.Some? then refusal else RootsRefusal(fs, snapshot, m, roots[1..])
  }

  /** Free space is looked up through the directory of every stage, which must therefore exist. */
  function SpaceRefusal(fs: Tree, roots: seq<Root>, enough: bool): Option<Failure> {
    if exists root <- roots :: root.path == [] || Parent(root.path) !in fs then Some(NoDirectory)
    else if !enough then Some(NoCapacity)
    else None
  }

  /** The seal must be creatable and the way to it in order. */
  function SealRefusal(fs: Tree, seal: Path): Option<Failure> {
    if seal == [] || !NoReparse(fs, Parent(seal)) then Some(Reparse)
    else if !CanCreate(fs, seal) then Some(SealExists)
    else None
  }

  function ScopeRefusal(fs: Tree, specs: Specs, snapshot: Path, m: Manifest, seal: Path): Option<Failure> {
    if m.services != specs.services then Some(OtherNamespace)
    else if seal == [] || seal[|seal| - 1] != SEAL_NAME then Some(BadSealName)
    else if !ValidRoots(fs, specs, m.roots, snapshot) then Some(BadRoots)
    else if exists root <- m.roots :: root.path <= seal then Some(SealInsideRoot)
    else None
  }

  predicate Reviewed(fs: Tree, snapshot: Path, approved: Blob) {
    var file := snapshot + [MANIFEST];
    file in fs && fs[file].File? && fs[file].data == approved && approved.Snapshot?
  }

  function First(a: Option<Failure>, b: Option<Failure>): Option<Failure> {
    if a.Some? then a else b
  }

  /** Everything that stops a restore while the disk is still untouched, in the order it is looked at. */
  function Refusal(fs: Tree, specs: Specs, snapshot: Path, approved: Blob, seal: Path, world: World): Option<Failure> {
    if !Reviewed(fs, snapshot, approved) then Some(NotReviewed) else
      var m := approved.manifest;
      First(ScopeRefusal(fs, specs, snapshot, m, seal),
            if !world.stopped(0) then Some(NotStopped)
            else First(RootsRefusal(fs, snapshot, m, m.roots),
                       First(SpaceRefusal(fs, m.roots, world.enough), SealRefusal(fs, seal))))
  }

  method CheckRoots(fs: Tree, snapshot: Path, m: Manifest) returns (refusal: Option<Failure>)
    ensures refusal == RootsRefusal(fs, snapshot, m, m.roots)
  {
    for k := 0 to |m.roots|
      invariant RootsRefusal(fs, snapshot, m, m.roots[k..]) == RootsRefusal(fs, snapshot, m, m.roots)
    {
      refusal := RootRefusal(fs, snapshot, m, m.roots[k]);
      assert m.roots[k..][1..] == m.roots[k + 1..];
      if refusal.Some? {
        return;
      }
    }
    return None;
  }

  method Check(fs: Tree, specs: Specs, snapshot: Path, approved: Blob, seal: Path, world: World)
    returns (refusal: Option<Failure>)
    ensures refusal == Refusal(fs, specs, snapshot, approved, seal, world)
  {
    if !Reviewed(fs, snapshot, approved) {
      return Some(NotReviewed);
    }
    refusal := ScopeRefusal(fs, specs, snapshot, approved.manifest, seal);
    if refusal.Some? {
      return;
    }
    if !world.stopped(0) {
      return Some(NotStopped);
    }
    refusal := CheckRoots(fs, snapshot, approved.manifest);
    if refusal.Some? {
      return;
    }
    refusal := SpaceRefusal(fs, approved.manifest.roots, world.enough);
    if refusal.Some? {
      return;
    }
    refusal := SealRefusal(fs, seal);
  }

  /** Nothing is in the way of a root: neither of its two other names is taken or reached through a link. */
  predicate NothingBeside(fs: Tree, root: Root) {
    && |root.path| >= 2 && Parent(root.path) in fs
    && var directory, name := Parent(root.path), root.path[|root.path| - 1];
    && (forall r | r in fs ::
          !(directory + [name + ".restore-stage"] <= r) && !(directory + [name + ".pre-restore"] <= r))
    && NoReparse(fs, directory + [name + ".restore-stage"]) && NoReparse(fs, directory + [name + ".pre-restore"])
  }

  lemma BesideMeans(fs: Tree, root: Root)
    requires |root.path| >= 2
    ensures NothingBeside(fs, root) <==>
      && Parent(root.path) in fs && !Occupied(fs, Place(root, Stage)) && !Occupied(fs, Place(root, Retained))
      && NoReparse(fs, Place(root, Stage)) && NoReparse(fs, Place(root, Retained))
  {
  }

  /** One root can be restored: its copy is as recorded and nothing is in its way. */
  predicate Restorable(fs: Tree, snapshot: Path, m: Manifest, root: Root) {
    && root.name in m.inventory && Matches(fs, snapshot + [root.name], m.inventory[root.name])
    && NothingBeside(fs, root)
  }

  predicate AllRestorable(fs: Tree, snapshot: Path, m: Manifest) {
    forall root <- m.roots :: Restorable(fs, snapshot, m, root)
  }

  /** The seal has its name, lies in no root, and can be created where no link leads. */
  predicate Sealable(fs: Tree, m: Manifest, seal: Path) {
    && seal != [] && seal[|seal| - 1] == "RESTORE_SEALED.json" && (forall root <- m.roots :: !(root.path <= seal))
    && NoReparse(fs, Parent(seal)) && CanCreate(fs, seal)
  }

  predicate IsReviewed(fs: Tree, snapshot: Path, approved: Blob) {
    && approved.Snapshot? && snapshot + ["snapshot.json"] in fs
    && fs[snapshot + ["snapshot.json"]].File? && fs[snapshot + ["snapshot.json"]].data == approved
  }

  lemma RootIsAccepted(fs: Tree, snapshot: Path, m: Manifest, root: Root)
    requires |root.path| >= 2
    ensures RootRefusal(fs, snapshot, m, root).None? && Parent(root.path) in fs <==> Restorable(fs, snapshot, m, root)
  {
    BesideMeans(fs, root);
  }

  lemma AcceptedIsInOrder(fs: Tree, specs: Specs, snapshot: Path, approved: Blob, seal: Path, world: World)
    requires Refusal(fs, specs, snapshot, approved, seal, world).None?
    ensures IsReviewed(fs, snapshot, approved) && approved.manifest.services == specs.services
    ensures ValidRoots(fs, specs, approved.manifest.roots, snapshot) && world.stopped(0) && world.enough
    ensures AllRestorable(fs, snapshot, approved.manifest) && Sealable(fs, approved.manifest, seal)
  {
    var m := approved.manifest;
    assert SpaceRefusal(fs, m.roots, world.enough).None? && Scoped(m.roots);
    forall root | root in m.roots ensures Restorable(fs, snapshot, m, root) {
      RootIsAccepted(fs, snapshot, m, root);
    }
  }

  lemma InOrderIsAccepted(fs: Tree, specs: Specs, snapshot: Path, approved: Blob, seal: Path, world: World)
    requires IsReviewed(fs, snapshot, approved) && approved.manifest.services == specs.services
    requires ValidRoots(fs, specs, approved.manifest.roots, snapshot) && world.stopped(0) && world.enough
    requires AllRestorable(fs, snapshot, approved.manifest) && Sealable(fs, approved.manifest, seal)
    ensures Refusal(fs, specs, snapshot, approved, seal, world).None?
  {
    var m := approved.manifest;
    forall root | root in m.roots
      ensures RootRefusal(fs, snapshot, m, root).None? && root.path != [] && Parent(root.path) in fs
    {
      assert Restorable(fs, snapshot, m, root);
      RootIsAccepted(fs, snapshot, m, root);
    }
  }

  /**
   What is not refused: the reviewed snapshot of these services, with valid roots,
   while the services are stopped and space suffices; whose copies are as
   recorded, and for which nothing is in the way of any root or of the seal.
   */
  lemma RestoreIsAcceptedExactly(fs: Tree, specs: Specs, snapshot: Path, approved: Blob, seal: Path, world: World)
    ensures Refusal(fs, specs, snapshot, approved, seal, world).None? <==>
      && IsReviewed(fs, snapshot, approved) && approved.manifest.services == specs.services
      && ValidRoots(fs, specs, approved.manifest.roots, snapshot) && world.stopped(0) && world.enough
      && AllRestorable(fs, snapshot, approved.manifest) && Sealable(fs, approved.manifest, seal)
  {
    if Refusal(fs, specs, snapshot, approved, seal, world).None? {
      AcceptedIsInOrder(fs, specs, snapshot, approved, seal, world);
    } else if
      && IsReviewed(fs, snapshot, approved) && approved.manifest.services == specs.services
      && ValidRoots(fs, specs, approved.manifest.roots, snapshot) && world.stopped(0) && world.enough
      && AllRestorable(fs, snapshot, approved.manifest) && Sealable(fs, approved.manifest, seal)
    {
      InOrderIsAccepted(fs, specs, snapshot, approved, seal, world);
      assert false;
    }
  }

  /** After a crash behind the seal, a second restore is refused until someone looks. */
  lemma ASealBlocksAnotherRestore(fs: Tree, specs: Specs, snapshot: Path, approved: Blob, seal: Path, world: World)
    requires seal in fs
    ensures Refusal(fs, specs, snapshot, approved, seal, world).Some?
  {
    assert seal <= seal;
    assert SealRefusal(fs, seal).Some?;
  }

  /** The seal is at or below none of the names that are moved around. */
  ghost predicate SealClear(roots: seq<Root>, seal: Path) {
    forall i, a: Role :: 0 <= i < |roots| ==> !(Place(roots[i], a) <= seal)
  }

  lemma SealIsNoPlace(root: Root, a: Role, seal: Path)
    requires a != Target && root.path != [] && seal != [] && seal[|seal| - 1] == SEAL_NAME
    ensures Place(root, a) != seal
  {
    var p, n := Place(root, a), |root.path| - 1;
    assert SEAL_NAME[|SEAL_NAME| - 1] == 'n';
    assert p[n] == root.path[n] + Suffix(a) && p[n][|p[n]| - 1] == 'e';
    assert p[n] != SEAL_NAME;
  }

  lemma VacantNameIsNotAboveTheSeal(fs: Tree, root: Root, a: Role, seal: Path)
    requires a != Target && root.path != [] && !Occupied(fs, Place(root, a))
    requires CanCreate(fs, seal) && seal[|seal| - 1] == SEAL_NAME
    ensures !(Place(root, a) <= seal)
  {
    SealIsNoPlace(root, a, seal);
    if Place(root, a) <= seal {
      StrictPrefixIsInParent(Place(root, a), seal);
      assert false;
    }
  }

  lemma SealIsClear(fs: Tree, roots: seq<Root>, seal: Path)
    requires Scoped(roots) && CanCreate(fs, seal) && seal[|seal| - 1] == SEAL_NAME
    requires forall root <- roots :: !(root.path <= seal)
    requires forall root <- roots :: !Occupied(fs, Place(root, Stage)) && !Occupied(fs, Place(root, Retained))
    ensures SealClear(roots, seal)
  {
    forall i, a: Role | 0 <= i < |roots| ensures !(Place(roots[i], a) <= seal) {
      OwnPlace(roots[i]);
      assert roots[i] in roots;
      if a != Target {
        VacantNameIsNotAboveTheSeal(fs, roots[i], a, seal);
      }
    }
  }

  /** What every restore may rely on once it writes. */
  ghost predicate Ready(fs: Tree, m: Manifest, seal: Path) {
    Recorded(m) && Clear(fs, m.roots) && SealClear(m.roots, seal) && CanCreate(fs, seal)
  }

  lemma MatchingRecordIsOrdinary(fs: Tree, p: Path, record: Tree)
    requires Matches(fs, p, record)
    ensures Ordinary(record)
  {
    var found := Inventory(fs, p).value;
    assert p + [] == p;
    assert [] in Contents(found);
    forall q | q in record ensures q in found && Bare(found[q]) == Bare(record[q]) {
      assert q in Contents(record) && Contents(record)[q] == Contents(found)[q];
    }
  }

  lemma RootsAreReady(fs: Tree, snapshot: Path, m: Manifest)
    requires RootsRefusal(fs, snapshot, m, m.roots).None?
    ensures Recorded(m)
    ensures forall root <- m.roots :: !Occupied(fs, Place(root, Stage)) && !Occupied(fs, Place(root, Retained))
  {
    forall root | root in m.roots
      ensures root.name in m.inventory && Ordinary(m.inventory[root.name])
      ensures !Occupied(fs, Place(root, Stage)) && !Occupied(fs, Place(root, Retained))
    {
      assert RootRefusal(fs, snapshot, m, root).None?;
      MatchingRecordIsOrdinary(fs, Copy(snapshot, root), m.inventory[root.name]);
    }
  }

  lemma ScopeIsReady(fs: Tree, specs: Specs, snapshot: Path, m: Manifest, seal: Path)
    requires ScopeRefusal(fs, specs, snapshot, m, seal).None?
    ensures Scoped(m.roots) && seal != [] && seal[|seal| - 1] == SEAL_NAME
    ensures forall root <- m.roots :: !(root.path <= seal)
  {
  }

  lemma PassedChecks(fs: Tree, specs: Specs, snapshot: Path, approved: Blob, seal: Path, world: World)
    requires Refusal(fs, specs, snapshot, approved, seal, world).None?
    ensures approved.Snapshot? && Ready(fs, approved.manifest, seal)
  {
    var m := approved.manifest;
    ScopeIsReady(fs, specs, snapshot, m, seal);
    RootsAreReady(fs, snapshot, m);
    SealIsClear(fs, m.roots, seal);
    assert SpaceRefusal(fs, m.roots, world.enough).None?;
  }

  /**
   A root that lies strictly below the stage or the retained name of another is
   refused before anything is written: either something is there, or the root
   has no directory.
   */
  lemma NestedNamesAreRefused(
    fs: Tree, specs: Specs, snapshot: Path, approved: Blob, seal: Path, world: World, i: nat, j: nat, a: Role)
    requires approved.Snapshot? && i < |approved.manifest.roots| && j < |approved.manifest.roots|
    requires i != j && a != Target
    requires Place(approved.manifest.roots[i], a) < approved.manifest.roots[j].path
    ensures Refusal(fs, specs, snapshot, approved, seal, world).Some?
  {
    if Refusal(fs, specs, snapshot, approved, seal, world).None? {
      PassedChecks(fs, specs, snapshot, approved, seal, world);
      ClearIsFlat(fs, approved.manifest.roots);
      assert Compared(i, j, a);
      assert false;
    }
  }
}
