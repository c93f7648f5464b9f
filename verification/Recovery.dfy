/**
 Stopped-state backup and restore. Copying and setting access lists are done by
 other programs, so they may leave any tree below the directory they write to;
 a crash may leave the disk in any state it went through.
 */
module Recovery {
  import opened Wrappers
  import opened Filesystem

  const SEAL_NAME := "RESTORE_SEALED.json"
  const MANIFEST := "snapshot.json"
  const REQUIRED_LABELS := {"application", "configuration", "postgresql", "keycloak", "neo4j"}

  /** The reviewed services, the software they run from and the state and inputs they need. */
  datatype Specs = Specs(services: map<string, string>, excluded: seq<Path>, required: seq<Path>)

  datatype Failure =
    | BadRoots | NotStopped | BadInventory | NoCapacity | OutputExists | CopyFailed | SnapshotDiffers
    | SourceChanged | NotReviewed | OtherNamespace | BadSealName | SealInsideRoot | Leftovers
    | SealExists | Reparse | NoDirectory | StageExists | StageDiffers | AccessDiffers | RenameFailed

  /** Everything the outside decides: what other programs write, and which calls fail. */
  datatype World = World(
    stopped: nat -> bool,
    enough: bool,
    mtime: int,
    changes: string -> seq<(Tree, Tree)>,
    copies: string -> seq<Tree>,
    copied: string -> bool,
    access: string -> seq<Tree>,
    accessSet: string -> bool,
    renames: nat -> bool)

  // ----- Scope -----

  predicate IsLabel(s: string) {
    && 1 <= |s| <= 32 && 'a' <= s[0] <= 'z'
    && forall i | 0 <= i < |s| :: 'a' <= s[i] <= 'z' || '0' <= s[i] <= '9' || s[i] == '_'
  }

  predicate WellLabelled(roots: seq<Root>) {
    && (forall key <- REQUIRED_LABELS :: exists root <- roots :: root.name == key)
    && forall root <- roots :: IsLabel(root.name)
  }

  /** Roots below a drive that do not overlap. */
  predicate Scoped(roots: seq<Root>) {
    && (forall i | 0 <= i < |roots| :: |roots[i].path| >= 2)
    && forall i, j | 0 <= i < |roots| && 0 <= j < |roots| && i != j :: !(roots[i].path <= roots[j].path)
  }

  predicate ClearOf(roots: seq<Root>, p: Path) {
    forall root <- roots :: Disjoint(root.path, p)
  }

  predicate Unlinked(fs: Tree, roots: seq<Root>, destination: Path) {
    (forall root <- roots :: NoReparse(fs, root.path)) && NoReparse(fs, destination)
  }

  /** The roots hold all required state and none of the software. */
  predicate Covers(specs: Specs, roots: seq<Root>) {
    && (forall software <- specs.excluded :: ClearOf(roots, software))
    && forall item <- specs.required :: exists root <- roots :: root.path <= item
  }

  predicate ValidRoots(fs: Tree, specs: Specs, roots: seq<Root>, destination: Path) {
    && WellLabelled(roots) && Scoped(roots) && ClearOf(roots, destination)
    && Unlinked(fs, roots, destination) && Covers(specs, roots)
  }

  /** One root by itself: a simple label, below a drive, reached through no link, apart from snapshot and software. */
  predicate Fine(fs: Tree, specs: Specs, root: Root, destination: Path) {
    && 1 <= |root.name| <= 32 && 'a' <= root.name[0] <= 'z'
    && (forall c <- root.name :: 'a' <= c <= 'z' || '0' <= c <= '9' || c == '_')
    && 2 <= |root.path| && !(root.path <= destination) && !(destination <= root.path)
    && (forall n | 0 <= n <= |root.path| :: root.path[..n] in fs ==> fs[root.path[..n]] != Special)
    && forall software <- specs.excluded :: !(root.path <= software) && !(software <= root.path)
  }

  predicate HasLabel(roots: seq<Root>, key: string) {
    exists root <- roots :: root.name == key
  }

  lemma LabelIsSimple(s: string)
    ensures IsLabel(s) <==>
      1 <= |s| <= 32 && 'a' <= s[0] <= 'z' && forall c <- s :: 'a' <= c <= 'z' || '0' <= c <= '9' || c == '_'
  {
    if 1 <= |s| <= 32 && (forall c <- s :: 'a' <= c <= 'z' || '0' <= c <= '9' || c == '_') {
      forall i | 0 <= i < |s| ensures 'a' <= s[i] <= 'z' || '0' <= s[i] <= '9' || s[i] == '_' {
        assert s[i] in s;
      }
    }
  }

  predicate HasRequiredLabels(roots: seq<Root>) {
    && HasLabel(roots, "application") && HasLabel(roots, "configuration") && HasLabel(roots, "postgresql")
    && HasLabel(roots, "keycloak") && HasLabel(roots, "neo4j")
  }

  predicate AllFine(fs: Tree, specs: Specs, roots: seq<Root>, destination: Path) {
    forall root <- roots :: Fine(fs, specs, root, destination)
  }

  predicate Apart(roots: seq<Root>) {
    forall i, j | 0 <= i < j < |roots| :: !(roots[i].path <= roots[j].path) && !(roots[j].path <= roots[i].path)
  }

  predicate HoldsRequired(specs: Specs, roots: seq<Root>) {
    forall item <- specs.required :: exists root <- roots :: root.path <= item
  }

  lemma LabelsMean(roots: seq<Root>)
    ensures WellLabelled(roots) <==> HasRequiredLabels(roots) && forall root <- roots :: IsLabel(root.name)
  {
    if WellLabelled(roots) {
      assert "application" in REQUIRED_LABELS && "configuration" in REQUIRED_LABELS && "postgresql" in REQUIRED_LABELS
          && "keycloak" in REQUIRED_LABELS && "neo4j" in REQUIRED_LABELS;
    }
  }

  lemma ScopedMeans(roots: seq<Root>)
    ensures Scoped(roots) <==> Apart(roots) && forall root <- roots :: |root.path| >= 2
  {
    if Apart(roots) && forall root <- roots :: |root.path| >= 2 {
      forall i | 0 <= i < |roots| ensures |roots[i].path| >= 2 {
        assert roots[i] in roots;
      }
      forall i, j | 0 <= i < |roots| && 0 <= j < |roots| && i != j ensures !(roots[i].path <= roots[j].path) {
        assert i < j || j < i;
      }
    }
  }

  lemma ValidIsFine(fs: Tree, specs: Specs, roots: seq<Root>, destination: Path)
    requires ValidRoots(fs, specs, roots, destination)
    ensures HasRequiredLabels(roots) && AllFine(fs, specs, roots, destination) && Apart(roots)
  {
    LabelsMean(roots);
    ScopedMeans(roots);
    forall root | root in roots ensures Fine(fs, specs, root, destination) {
      LabelIsSimple(root.name);
    }
  }

  lemma FineIsValid(fs: Tree, specs: Specs, roots: seq<Root>, destination: Path)
    requires HasRequiredLabels(roots) && AllFine(fs, specs, roots, destination) && Apart(roots)
    requires NoReparse(fs, destination) && HoldsRequired(specs, roots)
    ensures ValidRoots(fs, specs, roots, destination)
  {
    forall root | root in roots ensures IsLabel(root.name) {
      LabelIsSimple(root.name);
    }
    LabelsMean(roots);
    ScopedMeans(roots);
  }

  /**
   Which roots may be backed up or restored: the five required labels are among
   them, each root is fine by itself, no root lies at, in or around another, the
   snapshot is reached through no link, and every required item lies in a root.
   */
  lemma ValidRootsMean(fs: Tree, specs: Specs, roots: seq<Root>, destination: Path)
    ensures ValidRoots(fs, specs, roots, destination) <==>
      && HasRequiredLabels(roots) && AllFine(fs, specs, roots, destination) && Apart(roots)
      && NoReparse(fs, destination) && HoldsRequired(specs, roots)
  {
    if ValidRoots(fs, specs, roots, destination) {
      ValidIsFine(fs, specs, roots, destination);
    }
    if && HasRequiredLabels(roots) && AllFine(fs, specs, roots, destination) && Apart(roots)
       && NoReparse(fs, destination) && HoldsRequired(specs, roots) {
      FineIsValid(fs, specs, roots, destination);
    }
  }

  /** The labels are the keys of a dictionary. */
  predicate DistinctLabels(roots: seq<Root>) {
    forall i, j | 0 <= i < j < |roots| :: roots[i].name != roots[j].name
  }

  // ----- Inventories -----

  /** What is recorded of a root; None when it is no directory or holds anything but ordinary files. */
  function Inventory(fs: Tree, root: Path): Option<Tree> {
    if && NoReparse(fs, root) && root in fs && fs[root].Directory?
       && (forall q <- Sub(fs, root) :: Sub(fs, root)[q] != Special)
    then Some(Sub(fs, root))
    else None
  }

  function Bare(node: Node): Node {
    match node
    case Directory(mtime, _) => Directory(mtime, "")
    case File(mtime, data, _) => File(mtime, data, "")
    case Special => Special
  }

  /** An inventory without its access lists. */
  function Contents(records: Tree): Tree {
    map q | q in records :: Bare(records[q])
  }

  /** Inventories agree but for access lists exactly when each path has the same kind, time and data in both. */
  lemma ContentsMean(a: Tree, b: Tree)
    ensures Contents(a) == Contents(b) <==>
      a.Keys == b.Keys && forall q :: q in a ==>
        && (a[q].Directory? <==> b[q].Directory?) && (a[q].File? <==> b[q].File?)
        && (a[q].Directory? ==> a[q].mtime == b[q].mtime)
        && (a[q].File? ==> a[q].mtime == b[q].mtime && a[q].data == b[q].data)
  {
    if Contents(a) == Contents(b) {
      assert a.Keys == Contents(a).Keys && b.Keys == Contents(b).Keys;
      forall q | q in a ensures Bare(a[q]) == Bare(b[q]) {
        assert Contents(a)[q] == Contents(b)[q];
      }
    }
  }

  predicate Matches(fs: Tree, p: Path, records: Tree) {
    Inventory(fs, p).Some? && Contents(Inventory(fs, p).value) == Contents(records)
  }

  function Inventories(fs: Tree, roots: seq<Root>): Option<map<string, Tree>> {
    if roots == [] then Some(map[]) else
      var most, last := Inventories(fs, roots[..|roots| - 1]), roots[|roots| - 1];
      var records := Inventory(fs, last.path);
      if most.None? || records.None? then None else Some(most.value[last.name := records.value])
  }

  lemma {:induction false} InventoriesHold(fs: Tree, roots: seq<Root>)
    requires DistinctLabels(roots) && Inventories(fs, roots).Some?
    ensures forall root <- roots ::
      root.name in Inventories(fs, roots).value && Inventories(fs, roots).value[root.name] == Sub(fs, root.path)
  {
    if roots != [] {
      InventoriesHold(fs, roots[..|roots| - 1]);
    }
  }

  // ----- Backup -----

  function Copy(output: Path, root: Root): Path {
    output + [root.name]
  }

  /** Others may change anything outside the snapshot while one root is copied into it. */
  function AfterChange(fs: Tree, output: Path, root: Root, change: (Tree, Tree)): Tree {
    Overlay(Overlay(change.0, output, Sub(fs, output)), Copy(output, root), change.1)
  }

  lemma ChangeKeepsOtherCopies(fs: Tree, output: Path, root: Root, change: (Tree, Tree), other: Root)
    requires root.name != other.name
    ensures Sub(AfterChange(fs, output, root, change), Copy(output, other)) == Sub(fs, Copy(output, other))
  {
    var middle := Overlay(change.0, output, Sub(fs, output));
    OverlayHere(change.0, output, Sub(fs, output));
    SubOfSub(middle, output, [other.name]);
    SubOfSub(fs, output, [other.name]);
    assert Copy(output, root)[|output|] == root.name && Copy(output, other)[|output|] == other.name;
    OverlayElsewhere(middle, Copy(output, root), change.1, Copy(output, other));
  }

  ghost predicate Copied(fs: Tree, output: Path, roots: seq<Root>, before: map<string, Tree>) {
    forall root <- roots :: root.name in before && Contents(Sub(fs, Copy(output, root))) == Contents(before[root.name])
  }

  /** The snapshot at a path holds this manifest and the contents it lists. */
  ghost predicate HoldsSnapshot(fs: Tree, output: Path, m: Manifest) {
    && output + [MANIFEST] in fs && fs[output + [MANIFEST]].File? && fs[output + [MANIFEST]].data == Snapshot(m)
    && Copied(fs, output, m.roots, m.inventory)
  }

  lemma ChangeKeepsCopies(
    fs: Tree, output: Path, root: Root, change: (Tree, Tree), done: seq<Root>, before: map<string, Tree>)
    requires Copied(fs, output, done, before) && forall other <- done :: other.name != root.name
    ensures Copied(AfterChange(fs, output, root, change), output, done, before)
  {
    forall other | other in done
      ensures Sub(AfterChange(fs, output, root, change), Copy(output, other)) == Sub(fs, Copy(output, other))
    {
      ChangeKeepsOtherCopies(fs, output, root, change, other);
    }
  }

  // ----- A backup that is left alone -----

  /** Nothing changes but the copy of each root, which is the root as it was. */
  predicate LeftAlone(world: World, start: Tree, roots: seq<Root>) {
    forall root <- roots ::
      world.copied(root.name) && world.changes(root.name) == [(start, Sub(start, root.path))]
  }

  /** The snapshot directory is there and everything else is as it was. */
  ghost predicate Alone(start: Tree, fs: Tree, output: Path) {
    OnlyAt(start, fs, output) && output in fs && fs[output].Directory?
  }

  lemma DirectoryIsAlone(start: Tree, output: Path, mtime: int)
    ensures Alone(start, Overlay(start, output, map[[] := Directory(mtime, "")]), output)
  {
    var t := map[[] := Directory(mtime, "")];
    OverlayOnlyAt(start, output, t);
    OverlayHere(start, output, t);
    assert output + [] == output && [] in Sub(Overlay(start, output, t), output);
  }

  lemma PrefixesAreApart(output: Path, p: Path, n: nat)
    requires Disjoint(output, p) && n <= |p|
    ensures !(output <= p[..n])
  {
    assert p == p[..n] + p[n..];
  }

  /** What lies apart from the snapshot directory is recorded alike. */
  lemma ApartIsRecordedAlike(start: Tree, fs: Tree, output: Path, p: Path)
    requires OnlyAt(start, fs, output) && Disjoint(output, p)
    ensures Inventory(fs, p) == Inventory(start, p)
  {
    Elsewhere(start, fs, output, p);
    forall n | 0 <= n <= |p| ensures p[..n] in fs <==> p[..n] in start
      ensures p[..n] in fs ==> fs[p[..n]] == start[p[..n]]
    {
      PrefixesAreApart(output, p, n);
    }
    assert p[..|p|] == p;
  }

  lemma {:induction false} AllRecordedAlike(start: Tree, fs: Tree, output: Path, roots: seq<Root>)
    requires OnlyAt(start, fs, output) && ClearOf(roots, output)
    ensures Inventories(fs, roots) == Inventories(start, roots)
  {
    if roots != [] {
      AllRecordedAlike(start, fs, output, roots[..|roots| - 1]);
      ApartIsRecordedAlike(start, fs, output, roots[|roots| - 1].path);
    }
  }

  lemma SnapshotIsUnlinked(start: Tree, fs: Tree, output: Path)
    requires Alone(start, fs, output) && NoReparse(start, output)
    ensures NoReparse(fs, output)
  {
    forall n | 0 <= n <= |output| && output[..n] in fs ensures fs[output[..n]] != Special {
      if n < |output| {
        assert !(output <= output[..n]);
      } else {
        assert output[..n] == output;
      }
    }
  }

  /** An ordinary tree put into an unlinked directory is recorded there as it is. */
  lemma PutIsRecorded(fs: Tree, output: Path, name: string, t: Tree)
    requires NoReparse(fs, output) && [] in t && t[[]].Directory? && forall q <- t :: t[q] != Special
    ensures Inventory(Overlay(fs, output + [name], t), output + [name]) == Some(t)
  {
    var copy := output + [name];
    var after := Overlay(fs, copy, t);
    OverlayHere(fs, copy, t);
    assert copy + [] == copy && [] in Sub(after, copy) && Sub(after, copy)[[]] == after[copy];
    forall n | 0 <= n <= |copy| && copy[..n] in after ensures after[copy[..n]] != Special {
      if n < |copy| {
        assert !(copy <= copy[..n]) && copy[..n] == output[..n];
      } else {
        assert copy[..n] == copy;
      }
    }
  }

  lemma InventoryIsOrdinary(fs: Tree, p: Path)
    requires Inventory(fs, p).Some?
    ensures var t := Sub(fs, p);
      Inventory(fs, p) == Some(t) && [] in t && t[[]].Directory? && forall q <- t :: t[q] != Special
  {
    assert p + [] == p;
  }

  /** The plain copy of a root leaves the rest alone and has the contents that were recorded. */
  lemma PlainCopyMatches(start: Tree, fs: Tree, output: Path, root: Root)
    requires Alone(start, fs, output) && NoReparse(start, output) && Inventory(start, root.path).Some?
    ensures var after := AfterChange(fs, output, root, (start, Sub(start, root.path)));
      Alone(start, after, output) && Matches(after, Copy(output, root), Sub(start, root.path))
  {
    var t := Sub(start, root.path);
    OnlyAtIsOverlay(start, fs, output);
    InventoryIsOrdinary(start, root.path);
    SnapshotIsUnlinked(start, fs, output);
    PutIsRecorded(fs, output, root.name, t);
    CopyIsAlone(start, fs, output, Copy(output, root), t);
  }

  lemma CopyIsAlone(start: Tree, fs: Tree, output: Path, copy: Path, t: Tree)
    requires Alone(start, fs, output) && output < copy
    ensures Alone(start, Overlay(fs, copy, t), output)
  {
  }

  /** Nothing disturbs the copying of the roots. */
  ghost predicate Quiet(world: World, start: Tree, output: Path, roots: seq<Root>, before: map<string, Tree>) {
    && LeftAlone(world, start, roots) && NoReparse(start, output)
    && forall root <- roots :: root.name in before && Inventory(start, root.path) == Some(before[root.name])
  }

  lemma QuietForOne(
    world: World, start: Tree, output: Path, roots: seq<Root>, before: map<string, Tree>, root: Root)
    requires Quiet(world, start, output, roots, before) && root in roots
    ensures Quiet(world, start, output, [root], before)
  {
  }

  lemma QuietCopyMatches(
    world: World, start: Tree, fs: Tree, output: Path, root: Root, before: map<string, Tree>)
    requires Quiet(world, start, output, [root], before) && Alone(start, fs, output)
    ensures world.copied(root.name) && |world.changes(root.name)| == 1
    ensures var after := AfterChange(fs, output, root, world.changes(root.name)[0]);
      Alone(start, after, output) && Matches(after, Copy(output, root), before[root.name])
  {
    assert root in [root];
    InventoryIsOrdinary(start, root.path);
    PlainCopyMatches(start, fs, output, root);
  }

  /** Copies one root behind those already copied and compares it. */
  method CopyRoot(disk: Disk, output: Path, root: Root, before: map<string, Tree>, world: World, ghost done: seq<Root>,
                  ghost start: Tree)
    returns (failure: Option<Failure>)
    requires Copied(disk.tree, output, done, before) && root.name in before
    requires forall other <- done :: other.name != root.name
    modifies disk
    ensures failure.None? ==> Copied(disk.tree, output, done + [root], before)
    ensures Quiet(world, start, output, [root], before) && Alone(start, old(disk.tree), output) ==>
      failure.None? && Alone(start, disk.tree, output)
  {
    if Quiet(world, start, output, [root], before) && Alone(start, disk.tree, output) {
      QuietCopyMatches(world, start, disk.tree, output, root, before);
    }
    Change(disk, output, root, before, world.changes(root.name), done);
    if !world.copied(root.name) {
      return Some(CopyFailed);
    }
    if !Matches(disk.tree, Copy(output, root), before[root.name]) {
      return Some(SnapshotDiffers);
    }
    return None;
  }

  /** What happens while the copying program runs. */
  method Change(disk: Disk, output: Path, root: Root, before: map<string, Tree>, changes: seq<(Tree, Tree)>,
                ghost done: seq<Root>)
    requires Copied(disk.tree, output, done, before) && forall other <- done :: other.name != root.name
    modifies disk
    ensures Copied(disk.tree, output, done, before)
    ensures |changes| == 1 ==> disk.tree == AfterChange(old(disk.tree), output, root, changes[0])
  {
    for n := 0 to |changes|
      invariant Copied(disk.tree, output, done, before)
      invariant n == 0 ==> disk.tree == old(disk.tree)
      invariant n == 1 ==> disk.tree == AfterChange(old(disk.tree), output, root, changes[0])
    {
      ChangeKeepsCopies(disk.tree, output, root, changes[n], done, before);
      disk.Become(AfterChange(disk.tree, output, root, changes[n]));
    }
  }

  method CopyRoots(disk: Disk, roots: seq<Root>, output: Path, before: map<string, Tree>, world: World,
                   ghost start: Tree)
    returns (failure: Option<Failure>)
    requires DistinctLabels(roots) && forall root <- roots :: root.name in before
    modifies disk
    ensures failure.None? ==> Copied(disk.tree, output, roots, before)
    ensures Quiet(world, start, output, roots, before) && Alone(start, old(disk.tree), output) ==>
      failure.None? && Alone(start, disk.tree, output)
  {
    ghost var quiet := Quiet(world, start, output, roots, before) && Alone(start, disk.tree, output);
    for k := 0 to |roots|
      invariant Copied(disk.tree, output, roots[..k], before)
      invariant quiet ==> Alone(start, disk.tree, output)
    {
      LabelsDiffer(roots, k);
      if quiet {
        QuietForOne(world, start, output, roots, before, roots[k]);
      }
      failure := CopyRoot(disk, output, roots[k], before, world, roots[..k], start);
      if failure.Some? {
        return;
      }
    }
    assert roots[..|roots|] == roots;
    return None;
  }

  lemma LabelsDiffer(roots: seq<Root>, k: nat)
    requires DistinctLabels(roots) && k < |roots|
    ensures roots[k] in roots && roots[..k + 1] == roots[..k] + [roots[k]]
    ensures forall other <- roots[..k] :: other.name != roots[k].name
  {
  }

  lemma ManifestIsNoLabel(root: Root)
    requires IsLabel(root.name)
    ensures root.name != MANIFEST
  {
    assert MANIFEST[8] == '.';
  }

  lemma ManifestWritten(fs: Tree, output: Path, m: Manifest, mtime: int)
    requires Copied(fs, output, m.roots, m.inventory) && forall root <- m.roots :: IsLabel(root.name)
    ensures HoldsSnapshot(Overlay(fs, output + [MANIFEST], map[[] := File(mtime, Snapshot(m), "")]), output, m)
  {
    var p, t := output + [MANIFEST], map[[] := File(mtime, Snapshot(m), "")];
    var after := Overlay(fs, p, t);
    OverlayHere(fs, p, t);
    assert p + [] == p;
    assert [] in Sub(after, p) && Sub(after, p)[[]] == after[p];
    forall root | root in m.roots
      ensures Contents(Sub(after, Copy(output, root))) == Contents(m.inventory[root.name])
    {
      ManifestIsNoLabel(root);
      assert Copy(output, root)[|output|] == root.name && p[|output|] == MANIFEST;
      OverlayElsewhere(fs, p, t, Copy(output, root));
    }
  }

  /** Why a backup is refused before it creates anything. */
  function BackupRefusal(fs: Tree, specs: Specs, roots: seq<Root>, output: Path, world: World): Option<Failure> {
    if !ValidRoots(fs, specs, roots, output) then Some(BadRoots)
    else if !world.stopped(0) then Some(NotStopped)
    else if exists root <- roots :: Inventory(fs, root.path).None? then Some(BadInventory)
    else if !world.enough then Some(NoCapacity)
    else if !CanCreate(fs, output) then Some(OutputExists)
    else None
  }

  method CheckBackup(fs: Tree, specs: Specs, roots: seq<Root>, output: Path, world: World)
    returns (refusal: Option<Failure>)
    ensures refusal == BackupRefusal(fs, specs, roots, output, world)
  {
    if !ValidRoots(fs, specs, roots, output) {
      return Some(BadRoots);
    }
    if !world.stopped(0) {
      return Some(NotStopped);
    }
    InventoriesExist(fs, roots);
    if Inventories(fs, roots).None? {
      return Some(BadInventory);
    }
    if !world.enough {
      return Some(NoCapacity);
    }
    if !CanCreate(fs, output) {
      return Some(OutputExists);
    }
    return None;
  }

  lemma {:induction false} InventoriesExist(fs: Tree, roots: seq<Root>)
    ensures Inventories(fs, roots).Some? <==> forall root <- roots :: Inventory(fs, root.path).Some?
  {
    if roots != [] {
      var front, last := roots[..|roots| - 1], roots[|roots| - 1];
      InventoriesExist(fs, front);
      assert last in roots && forall root :: root in front ==> root in roots;
      if Inventories(fs, roots).Some? {
        forall root | root in roots ensures Inventory(fs, root.path).Some? {
          assert root == last || root in front;
        }
      }
    }
  }

  /** From the creation of the snapshot directory on. */
  method Snapshotting(disk: Disk, specs: Specs, roots: seq<Root>, output: Path, world: World, before: map<string, Tree>)
    returns (result: Result<Manifest, Failure>)
    requires DistinctLabels(roots) && ValidRoots(disk.tree, specs, roots, output)
    requires Inventories(disk.tree, roots) == Some(before)
    modifies disk
    ensures result.Ok? ==>
      && result.value == Manifest(specs.services, roots, before) && world.stopped(1)
      && HoldsSnapshot(disk.tree, output, result.value)
      && forall root <- roots ::
           root.name in before && before[root.name] == Sub(old(disk.tree), root.path) == Sub(disk.tree, root.path)
    ensures world.stopped(1) && LeftAlone(world, old(disk.tree), roots) ==> result.Ok?
  {
    ghost var start := disk.tree;
    InventoriesHold(disk.tree, roots);
    if LeftAlone(world, start, roots) {
      DirectoryIsAlone(start, output, world.mtime);
      RecordedRoots(start, roots);
    }
    disk.Put(output, map[[] := Directory(world.mtime, "")]);
    var failure := CopyRoots(disk, roots, output, before, world, start);
    if failure.Some? {
      return Err(failure.value);
    }
    if !world.stopped(1) {
      return Err(NotStopped);
    }
    if LeftAlone(world, start, roots) {
      AllRecordedAlike(start, disk.tree, output, roots);
    }
    if Inventories(disk.tree, roots) != Some(before) {
      return Err(SourceChanged);
    }
    InventoriesHold(disk.tree, roots);
    var m := Manifest(specs.services, roots, before);
    ManifestWritten(disk.tree, output, m, world.mtime);
    ManifestIsApart(disk.tree, roots, output, m, world.mtime);
    disk.Put(output + [MANIFEST], map[[] := File(world.mtime, Snapshot(m), "")]);
    return Ok(m);
  }

  lemma {:induction false} RecordedRoots(fs: Tree, roots: seq<Root>)
    requires DistinctLabels(roots) && Inventories(fs, roots).Some?
    ensures forall root <- roots ::
      root.name in Inventories(fs, roots).value
      && Inventory(fs, root.path) == Some(Inventories(fs, roots).value[root.name])
  {
    if roots != [] {
      RecordedRoots(fs, roots[..|roots| - 1]);
    }
  }

  lemma ManifestIsApart(fs: Tree, roots: seq<Root>, output: Path, m: Manifest, mtime: int)
    requires ClearOf(roots, output)
    ensures var after := Overlay(fs, output + [MANIFEST], map[[] := File(mtime, Snapshot(m), "")]);
      forall root <- roots :: Sub(after, root.path) == Sub(fs, root.path)
  {
    forall root | root in roots
      ensures Sub(Overlay(fs, output + [MANIFEST], map[[] := File(mtime, Snapshot(m), "")]), root.path)
           == Sub(fs, root.path)
    {
      assert output <= output + [MANIFEST];
      if root.path <= output + [MANIFEST] {
        PrefixesOfOnePathNest(root.path, output, [MANIFEST]);
      }
      OverlayElsewhere(fs, output + [MANIFEST], map[[] := File(mtime, Snapshot(m), "")], root.path);
    }
  }

  /**
   A backup that completes recorded every root as it was at the start, found it
   the same at the end, and holds copies with the recorded contents, whatever
   others did meanwhile outside the snapshot. Before the snapshot directory is
   created every refusal leaves the disk untouched, running services among them; and
   a backup that nothing disturbs completes.
   */
  method Backup(disk: Disk, specs: Specs, roots: seq<Root>, output: Path, world: World)
    returns (result: Result<Manifest, Failure>)
    requires DistinctLabels(roots)
    modifies disk
    ensures result.Ok? ==>
      && result.value.roots == roots && result.value.services == specs.services
      && ValidRoots(old(disk.tree), specs, roots, output)
      && HoldsSnapshot(disk.tree, output, result.value)
      && forall root <- roots ::
           && result.value.inventory[root.name] == Sub(old(disk.tree), root.path)
           && Sub(disk.tree, root.path) == Sub(old(disk.tree), root.path)
    ensures result.Ok? ==> world.stopped(0) && world.stopped(1)
    ensures var refusal := BackupRefusal(old(disk.tree), specs, roots, output, world);
      refusal.Some? ==> result == Err(refusal.value) && disk.tree == old(disk.tree) && disk.history == old(disk.history)
    ensures BackupRefusal(old(disk.tree), specs, roots, output, world).None? && world.stopped(1)
            && LeftAlone(world, old(disk.tree), roots) ==>
      result.Ok?
  {
    var refusal := CheckBackup(disk.tree, specs, roots, output, world);
    if refusal.Some? {
      return Err(refusal.value);
    }
    InventoriesExist(disk.tree, roots);
    result := Snapshotting(disk, specs, roots, output, world, Inventories(disk.tree, roots).value);
  }
}
