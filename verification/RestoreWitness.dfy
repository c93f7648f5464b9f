/**
 Two restores that pass every check, in a world where nothing fails, and that
 complete without keeping both promises: a root that was not there has the name
 under which another is retained, or that of another's stage.
 */
module RestoreWitness {
  import opened Wrappers
  import opened Filesystem
  import opened Recovery
  import opened Places
  import opened Outcome
  import opened Conservation
  import opened RestoreChecks
  import opened Replacement
  import opened Restore

  // ----- A small host -----

  /** One drive with a snapshot, the names of the states that are there, and the names of the services. */
  datatype Layout = Layout(
    drive: string, snapshot: string, states: set<string>, labels: set<string>, services: map<string, string>)

  /** Every name but that of the drive has one letter. */
  predicate Short(x: Layout) {
    |x.snapshot| == 1 && x.snapshot !in x.states && MANIFEST !in x.labels && forall name <- x.states :: |name| == 1
  }

  predicate OnHost(x: Layout, p: Path) {
    || p == [x.drive]
    || (|p| == 2 && p[0] == x.drive && (p[1] in x.states || p[1] == x.snapshot))
    || (|p| == 3 && p[0] == x.drive && p[1] == x.snapshot && (p[2] in x.labels || p[2] == MANIFEST))
  }

  function HostPaths(x: Layout): (paths: set<Path>)
    ensures forall p :: p in paths <==> OnHost(x, p)
  {
    var states := set name | name in x.states + {x.snapshot} :: [x.drive, name];
    var copies := set name | name in x.labels + {MANIFEST} :: [x.drive, x.snapshot, name];
    assert forall p :: OnHost(x, p) ==> p in {[x.drive]} + states + copies by {
      forall p | OnHost(x, p) ensures p in {[x.drive]} + states + copies {
        if |p| == 2 {
          assert p == [x.drive, p[1]];
        } else if |p| == 3 {
          assert p == [x.drive, x.snapshot, p[2]];
        }
      }
    }
    {[x.drive]} + states + copies
  }

  function Stored(x: Layout): Path {
    [x.drive, x.snapshot]
  }

  /** Every recorded state is an empty directory; so is every state that is there, with another time. */
  const RECORD: Tree := map[[] := Directory(2, "acl")]

  function Host(x: Layout, m: Manifest): Tree {
    map p | p in HostPaths(x) ::
      if p == Stored(x) + [MANIFEST] then File(0, Snapshot(m), "") else Directory(if |p| == 3 then 2 else 1, "")
  }

  lemma NothingIsLinked(x: Layout, m: Manifest, p: Path)
    ensures NoReparse(Host(x, m), p)
  {
  }

  lemma LongNamesAreFree(x: Layout, m: Manifest, name: string)
    requires Short(x) && |name| > 1
    ensures !Occupied(Host(x, m), [x.drive, name])
  {
    forall r | r in HostPaths(x) ensures !([x.drive, name] <= r) {
      assert OnHost(x, r);
    }
  }

  lemma CopyOnHost(x: Layout, m: Manifest, key: string)
    requires Short(x) && key in x.labels
    ensures Sub(Host(x, m), Stored(x) + [key]) == map[[] := Directory(2, "")]
  {
    var fs, p := Host(x, m), Stored(x) + [key];
    assert p + [] == p && OnHost(x, p) && p[2] == key;
    forall q ensures q in Sub(fs, p) <==> q == [] {
      assert OnHost(x, p + q) ==> |p + q| <= 3;
    }
    assert Sub(fs, p)[[]] == fs[p] == Directory(2, "");
  }

  lemma EmptyCopyMatches(fs: Tree, p: Path)
    requires NoReparse(fs, p) && Sub(fs, p) == map[[] := Directory(2, "")]
    ensures Matches(fs, p, RECORD)
  {
    assert p + [] == p && [] in Sub(fs, p) && Sub(fs, p)[[]] == fs[p];
    assert Contents(Sub(fs, p)) == Contents(RECORD);
  }

  lemma CopiesMatch(x: Layout, m: Manifest, key: string)
    requires Short(x) && key in x.labels
    ensures Matches(Host(x, m), Stored(x) + [key], RECORD)
  {
    NothingIsLinked(x, m, Stored(x) + [key]);
    CopyOnHost(x, m, key);
    EmptyCopyMatches(Host(x, m), Stored(x) + [key]);
  }

  // ----- The checks -----

  /** Nothing outside fails and every copy is exact. */
  const WORLD := World(
    _ => true, true, 0, _ => [], _ => [Contents(RECORD)], _ => true, _ => [RECORD], _ => true, _ => true)

  function Seal(x: Layout): Path {
    [x.drive, SEAL_NAME]
  }

  function Recording(x: Layout, roots: seq<Root>): Manifest {
    Manifest(x.services, roots, map key | key in x.labels :: RECORD)
  }

  /** The manifest of these roots and the host that stores it. */
  function Setting(x: Layout, roots: seq<Root>): Tree {
    Host(x, Recording(x, roots))
  }

  /** A root directly below the drive, beside the snapshot and the seal. */
  predicate OnDrive(x: Layout, root: Root) {
    && |root.path| == 2 && root.path[0] == x.drive && root.path[1] != "" && root.name in x.labels
    && root.path[1] != x.snapshot && root.path[1] != SEAL_NAME
  }

  predicate AllOnDrive(x: Layout, roots: seq<Root>) {
    && (forall root <- roots :: OnDrive(x, root))
    && forall i, j | 0 <= i < j < |roots| :: roots[i].path != roots[j].path
  }

  lemma DriveRootPlace(x: Layout, m: Manifest, root: Root, a: Role)
    requires Short(x) && OnDrive(x, root) && a != Target
    ensures !Occupied(Host(x, m), Place(root, a)) && NoReparse(Host(x, m), Place(root, a))
  {
    assert |Suffix(a)| > 1;
    assert Place(root, a) == [x.drive, root.path[1] + Suffix(a)];
    LongNamesAreFree(x, m, root.path[1] + Suffix(a));
    NothingIsLinked(x, m, Place(root, a));
  }

  lemma DriveRootIsAccepted(x: Layout, roots: seq<Root>, root: Root)
    requires Short(x) && OnDrive(x, root)
    ensures RootRefusal(Setting(x, roots), Stored(x), Recording(x, roots), root).None?
  {
    var m := Recording(x, roots);
    CopiesMatch(x, m, root.name);
    DriveRootPlace(x, m, root, Stage);
    DriveRootPlace(x, m, root, Retained);
  }

  lemma DriveRootStands(x: Layout, m: Manifest, root: Root)
    requires Short(x) && OnDrive(x, root)
    ensures NoReparse(Host(x, m), root.path)
    ensures Disjoint(root.path, Stored(x)) && !(root.path <= Seal(x))
    ensures Parent(root.path) in Host(x, m) && Host(x, m)[Parent(root.path)].Directory?
  {
    NothingIsLinked(x, m, root.path);
    assert Parent(root.path) == [x.drive] && OnHost(x, [x.drive]);
  }

  lemma DriveRootsAreScoped(x: Layout, roots: seq<Root>)
    requires AllOnDrive(x, roots)
    ensures Scoped(roots)
  {
    forall i | 0 <= i < |roots| ensures |roots[i].path| >= 2 {
      assert OnDrive(x, roots[i]);
    }
    forall i, j | 0 <= i < |roots| && 0 <= j < |roots| && i != j ensures !(roots[i].path <= roots[j].path) {
      assert OnDrive(x, roots[i]) && OnDrive(x, roots[j]);
    }
  }

  lemma RootsAreValid(x: Layout, specs: Specs, roots: seq<Root>)
    requires Short(x) && AllOnDrive(x, roots) && WellLabelled(roots) && Covers(specs, roots)
    ensures ValidRoots(Setting(x, roots), specs, roots, Stored(x))
  {
    forall root | root in roots
      ensures NoReparse(Setting(x, roots), root.path) && Disjoint(root.path, Stored(x))
    {
      DriveRootStands(x, Recording(x, roots), root);
    }
    NothingIsLinked(x, Recording(x, roots), Stored(x));
    DriveRootsAreScoped(x, roots);
  }

  lemma NoScopeIsRefused(fs: Tree, specs: Specs, snapshot: Path, m: Manifest, seal: Path)
    requires m.services == specs.services && seal != [] && seal[|seal| - 1] == SEAL_NAME
    requires ValidRoots(fs, specs, m.roots, snapshot) && forall root <- m.roots :: !(root.path <= seal)
    ensures ScopeRefusal(fs, specs, snapshot, m, seal).None?
  {
  }

  lemma ScopeIsAccepted(x: Layout, specs: Specs, roots: seq<Root>)
    requires Short(x) && AllOnDrive(x, roots) && WellLabelled(roots)
    requires Covers(specs, roots) && specs.services == x.services
    ensures ScopeRefusal(Setting(x, roots), specs, Stored(x), Recording(x, roots), Seal(x)).None?
  {
    RootsAreValid(x, specs, roots);
    forall root | root in roots ensures !(root.path <= Seal(x)) {
      assert OnDrive(x, root);
    }
    NoScopeIsRefused(Setting(x, roots), specs, Stored(x), Recording(x, roots), Seal(x));
  }

  lemma SealIsAccepted(x: Layout, m: Manifest)
    requires Short(x)
    ensures SealRefusal(Host(x, m), Seal(x)).None?
  {
    assert |SEAL_NAME| > 1;
    LongNamesAreFree(x, m, SEAL_NAME);
    NothingIsLinked(x, m, Parent(Seal(x)));
    assert Parent(Seal(x)) == [x.drive] && OnHost(x, [x.drive]);
  }

  lemma SnapshotIsReviewed(x: Layout, m: Manifest)
    ensures Reviewed(Host(x, m), Stored(x), Snapshot(m))
  {
    assert OnHost(x, Stored(x) + [MANIFEST]);
  }

  lemma NothingIsRefused(fs: Tree, specs: Specs, snapshot: Path, m: Manifest, seal: Path, world: World)
    requires Reviewed(fs, snapshot, Snapshot(m)) && ScopeRefusal(fs, specs, snapshot, m, seal).None?
    requires world.stopped(0) && world.enough && SealRefusal(fs, seal).None? && InDirectories(fs, m.roots)
    requires forall root <- m.roots :: RootRefusal(fs, snapshot, m, root).None?
    ensures Refusal(fs, specs, snapshot, Snapshot(m), seal, world).None?
  {
  }

  lemma ChecksPass(x: Layout, specs: Specs, roots: seq<Root>)
    requires Short(x) && AllOnDrive(x, roots) && WellLabelled(roots)
    requires Covers(specs, roots) && specs.services == x.services
    ensures Refusal(Setting(x, roots), specs, Stored(x), Snapshot(Recording(x, roots)), Seal(x), WORLD).None?
    ensures InDirectories(Setting(x, roots), roots)
  {
    var fs, m := Setting(x, roots), Recording(x, roots);
    SnapshotIsReviewed(x, m);
    ScopeIsAccepted(x, specs, roots);
    SealIsAccepted(x, m);
    forall root | root in roots
      ensures RootRefusal(fs, Stored(x), m, root).None?
      ensures root.path != [] && Parent(root.path) in fs && fs[Parent(root.path)].Directory?
    {
      DriveRootIsAccepted(x, roots, root);
      DriveRootStands(x, m, root);
    }
    NothingIsRefused(fs, specs, Stored(x), m, Seal(x), WORLD);
  }

  lemma WorldIsSmooth(x: Layout, roots: seq<Root>)
    requires forall root <- roots :: root.name in x.labels
    ensures Recorded(Recording(x, roots)) && Smooth(WORLD, Recording(x, roots))
  {
  }

  // ----- The two settings -----

  const SERVICES := map[
    "postgresql" := "gm-postgresql", "keycloak" := "gm-keycloak", "neo4j" := "gm-neo4j", "ollama" := "gm-ollama",
    "chroma" := "gm-chroma", "reader" := "gm-reader", "worker" := "gm-worker"]

  const LAYOUT := Layout("C:", "s", {"a", "p", "k", "n"}, REQUIRED_LABELS, SERVICES)
  const APPLICATION := Root("application", ["C:", "a"])

  /** A second root, which is not there and has a name that the first one uses. */
  function Beside(a: Role): Root {
    Root("configuration", Place(APPLICATION, a))
  }

  /** The other three, all there. */
  const OTHERS := [Root("postgresql", ["C:", "p"]), Root("keycloak", ["C:", "k"]), Root("neo4j", ["C:", "n"])]

  lemma LettersMakeALabel(s: string)
    requires 1 <= |s| <= 32 && 'a' <= s[0] <= 'z' && forall c :: c in s ==> 'a' <= c <= 'z' || '0' <= c <= '9'
    ensures IsLabel(s)
  {
    forall i | 0 <= i < |s| ensures 'a' <= s[i] <= 'z' || '0' <= s[i] <= '9' || s[i] == '_' {
      assert s[i] in s;
    }
  }

  lemma LabelsAreLabels()
    ensures IsLabel("application") && IsLabel("configuration") && IsLabel("postgresql")
    ensures IsLabel("keycloak") && IsLabel("neo4j")
  {
    LettersMakeALabel("application");
    LettersMakeALabel("configuration");
    LettersMakeALabel("postgresql");
    LettersMakeALabel("keycloak");
    LettersMakeALabel("neo4j");
  }

  lemma LayoutIsShort()
    ensures Short(LAYOUT)
  {
    assert MANIFEST[0] == 's';
  }

  /** The software of the seven services and the models, in one directory. */
  function Software(name: string): Path {
    ["C:", "software", name]
  }

  /** The seven services: their software, their state directories, and the configuration in the second root. */
  function SpecsOf(a: Role): Specs {
    Specs(SERVICES,
      [Software("python"), Software("ollama"), Software("java"), Software("neo4j"), Software("postgresql"),
       Software("models")],
      [OTHERS[0].path + ["data"], OTHERS[1].path + ["data"], OTHERS[2].path + ["data"], APPLICATION.path + ["ollama"],
       APPLICATION.path + ["data"], Beside(a).path + ["graphmind.toml"], Beside(a).path + ["graphmind.env"]])
  }

  /** A root that has the retained name of the application comes behind it, one that has its stage name before it. */
  function Taking(a: Role): seq<Root> {
    (if a == Retained then [APPLICATION, Beside(a)] else [Beside(a), APPLICATION]) + OTHERS
  }

  predicate Pair(roots: seq<Root>, a: Role) {
    a != Target && roots == Taking(a)
  }

  lemma BesideIsOnDrive(a: Role)
    requires a != Target
    ensures OnDrive(LAYOUT, Beside(a)) && Beside(a).path == ["C:", "a" + Suffix(a)] && |Beside(a).path[1]| > 1
  {
    var name := "a" + Suffix(a);
    assert |Suffix(a)| > 1;
    assert name[0] == 'a' && SEAL_NAME[0] == 'R';
    assert Place(APPLICATION, a) == ["C:", name];
  }

  lemma Listed(roots: seq<Root>, a: Role, root: Root)
    requires Pair(roots, a)
    ensures root in roots <==> root == APPLICATION || root == Beside(a) || root in OTHERS
  {
  }

  lemma RootsAreOnDrive(roots: seq<Root>, a: Role)
    requires Pair(roots, a)
    ensures AllOnDrive(LAYOUT, roots)
  {
    BesideIsOnDrive(a);
    assert SEAL_NAME[0] == 'R';
    assert OnDrive(LAYOUT, APPLICATION);
    assert forall root <- OTHERS :: OnDrive(LAYOUT, root);
  }

  lemma Labels(key: string)
    requires key in REQUIRED_LABELS
    ensures IsLabel(key)
    ensures key == "application" || key == "configuration" || exists root <- OTHERS :: root.name == key
  {
    LabelsAreLabels();
  }

  lemma RootsAreLabelled(roots: seq<Root>, a: Role)
    requires Pair(roots, a) && AllOnDrive(LAYOUT, roots)
    ensures WellLabelled(roots)
  {
    forall root | root in roots ensures IsLabel(root.name) {
      assert OnDrive(LAYOUT, root);
      Labels(root.name);
    }
    forall key | key in REQUIRED_LABELS ensures exists root <- roots :: root.name == key {
      Labels(key);
      Listed(roots, a, APPLICATION);
      Listed(roots, a, Beside(a));
      Listed(roots, a, OTHERS[0]);
      Listed(roots, a, OTHERS[1]);
      Listed(roots, a, OTHERS[2]);
    }
  }

  lemma SoftwareIsClear(roots: seq<Root>, a: Role, name: string)
    requires Pair(roots, a)
    ensures ClearOf(roots, Software(name))
  {
    BesideIsOnDrive(a);
    var second := Beside(a).path[1];
    assert second[0] == 'a' && "software"[0] == 's';
    forall root | root in roots ensures root.path[1] != "software" && |root.path| == 2 {
      Listed(roots, a, root);
    }
  }

  lemma RequiredIsCovered(roots: seq<Root>, a: Role, root: Root, name: string)
    requires Pair(roots, a) && (root == APPLICATION || root == Beside(a) || root in OTHERS)
    ensures exists r <- roots :: r.path <= root.path + [name]
  {
    Listed(roots, a, root);
  }

  lemma AllRequiredIsCovered(roots: seq<Root>, a: Role, item: Path)
    requires Pair(roots, a) && item in SpecsOf(a).required
    ensures exists root <- roots :: root.path <= item
  {
    if item == OTHERS[0].path + ["data"] {
      RequiredIsCovered(roots, a, OTHERS[0], "data");
    } else if item == OTHERS[1].path + ["data"] {
      RequiredIsCovered(roots, a, OTHERS[1], "data");
    } else if item == OTHERS[2].path + ["data"] {
      RequiredIsCovered(roots, a, OTHERS[2], "data");
    } else if item == APPLICATION.path + ["ollama"] {
      RequiredIsCovered(roots, a, APPLICATION, "ollama");
    } else if item == APPLICATION.path + ["data"] {
      RequiredIsCovered(roots, a, APPLICATION, "data");
    } else if item == Beside(a).path + ["graphmind.toml"] {
      RequiredIsCovered(roots, a, Beside(a), "graphmind.toml");
    } else {
      RequiredIsCovered(roots, a, Beside(a), "graphmind.env");
    }
  }

  lemma SpecsAreCovered(roots: seq<Root>, a: Role)
    requires Pair(roots, a)
    ensures Covers(SpecsOf(a), roots)
  {
    forall software | software in SpecsOf(a).excluded ensures ClearOf(roots, software) {
      assert software == Software(software[2]);
      SoftwareIsClear(roots, a, software[2]);
    }
    forall item | item in SpecsOf(a).required ensures exists root <- roots :: root.path <= item {
      AllRequiredIsCovered(roots, a, item);
    }
  }

  lemma OnlyTheSecondIsMissing(roots: seq<Root>, a: Role, root: Root)
    requires Pair(roots, a) && root in roots
    ensures if root == Beside(a) then !Occupied(Setting(LAYOUT, roots), root.path)
            else root.path in Setting(LAYOUT, roots)
  {
    Listed(roots, a, root);
    if root == Beside(a) {
      BesideIsOnDrive(a);
      LayoutIsShort();
      LongNamesAreFree(LAYOUT, Recording(LAYOUT, roots), "a" + Suffix(a));
    } else {
      assert OnHost(LAYOUT, root.path);
    }
  }

  // ----- The two restores -----

  lemma AllAreInTurn(roots: seq<Root>, a: Role)
    requires Pair(roots, a)
    ensures AllInTurn(Setting(LAYOUT, roots), roots)
  {
    forall i | 0 <= i < |roots| ensures InItsTurn(Setting(LAYOUT, roots), roots, i) {
      OnlyTheSecondIsMissing(roots, a, roots[i]);
      if roots[i] == Beside(a) {
        var k := if a == Retained then 0 else 1;
        assert roots[k] == APPLICATION && roots[1 - k] == Beside(a);
        assert roots[i].path == Place(roots[k], a);
        BesideIsOnDrive(a);
      }
    }
  }

  /** Nothing is refused, nothing fails, and the restore completes. */
  method RestoreHost(roots: seq<Root>, a: Role) returns (result: Result<nat, Failure>, end: Tree)
    requires Pair(roots, a)
    ensures var m := Recording(LAYOUT, roots);
      Refusal(Setting(LAYOUT, roots), SpecsOf(a), Stored(LAYOUT), Snapshot(m), Seal(LAYOUT), WORLD).None?
    ensures result == Ok(|roots|) && Recorded(Recording(LAYOUT, roots))
    ensures Kept(Setting(LAYOUT, roots), end, Recording(LAYOUT, roots), Seal(LAYOUT))
  {
    LayoutIsShort();
    RootsAreOnDrive(roots, a);
    RootsAreLabelled(roots, a);
    SpecsAreCovered(roots, a);
    ChecksPass(LAYOUT, SpecsOf(a), roots);
    AllAreInTurn(roots, a);
    forall root | root in roots ensures root.name in LAYOUT.labels {
      assert OnDrive(LAYOUT, root);
    }
    WorldIsSmooth(LAYOUT, roots);
    var disk := new Disk(Setting(LAYOUT, roots));
    var approved := Snapshot(Recording(LAYOUT, roots));
    result := Restore.Restore(disk, SpecsOf(a), Stored(LAYOUT), approved, Seal(LAYOUT), WORLD);
    end := disk.tree;
  }

  lemma NoStageIsTaken(roots: seq<Root>)
    requires Pair(roots, Retained)
    ensures NoRootIsALaterStage(roots)
  {
    BesideIsOnDrive(Retained);
    forall i, j | 0 <= j < i < |roots| ensures roots[j].path != Place(roots[i], Stage) {
      assert |Suffix(Stage)| > 1;
      var name := roots[i].path[1] + Suffix(Stage);
      assert Place(roots[i], Stage)[1] == name && name[0] == roots[i].path[1][0];
    }
  }

  lemma OldApplication(roots: seq<Root>, a: Role)
    requires Pair(roots, a)
    ensures Sub(Setting(LAYOUT, roots), APPLICATION.path) != RECORD
  {
    var p := APPLICATION.path;
    assert p + [] == p && OnHost(LAYOUT, p) && RECORD[[]] == Directory(2, "acl");
    assert [] in Sub(Setting(LAYOUT, roots), p);
  }

  /** Roots 0 and 1 hold their records, so the application's old state is at neither of its names. */
  lemma TheOldStateIsLost(start: Tree, end: Tree, m: Manifest, a: Root, b: Root)
    requires Recorded(m) && |m.roots| >= 2 && m.roots[0] == a && m.roots[1] == b && AllInstalled(end, m)
    requires b.path == Place(a, Retained) && a.path != []
    requires Sub(start, a.path) != RecordOf(m, 0) && Sub(start, a.path) != RecordOf(m, 1)
    ensures !Findable(start, end, a)
  {
    OwnPlace(a);
    assert Sub(end, m.roots[0].path) == RecordOf(m, 0) && Sub(end, m.roots[1].path) == RecordOf(m, 1);
  }

  lemma TheRetainedStateIsLost(roots: seq<Root>, end: Tree)
    requires Pair(roots, Retained) && Recorded(Recording(LAYOUT, roots)) && AllInstalled(end, Recording(LAYOUT, roots))
    ensures !Findable(Setting(LAYOUT, roots), end, APPLICATION)
  {
    var m := Recording(LAYOUT, roots);
    OldApplication(roots, Retained);
    assert RecordOf(m, 0) == RECORD && RecordOf(m, 1) == RECORD;
    TheOldStateIsLost(Setting(LAYOUT, roots), end, m, APPLICATION, Beside(Retained));
  }

  lemma NotFoundIsNotRetained(start: Tree, end: Tree, roots: seq<Root>, i: nat)
    requires i < |roots| && Occupied(start, roots[i].path) && !Findable(start, end, roots[i])
    ensures !AllRetained(start, end, roots)
  {
  }

  lemma NoRetainedNameIsTaken(roots: seq<Root>, i: nat, j: nat)
    requires Pair(roots, Stage) && i < |roots| && j < |roots|
    ensures !Named(roots, j, i, Retained)
  {
    BesideIsOnDrive(Stage);
    assert |Suffix(Stage)| == 14 && |Suffix(Retained)| == 12;
    Listed(roots, Stage, roots[i]);
    Listed(roots, Stage, roots[j]);
    assert |roots[j].path[1]| == 1 || |roots[j].path[1]| == 15;
    assert |Place(roots[i], Retained)[1]| == |roots[i].path[1]| + 12;
  }

  lemma WhatExistedIsRetained(roots: seq<Root>, end: Tree)
    requires Pair(roots, Stage) && Recorded(Recording(LAYOUT, roots))
    requires Kept(Setting(LAYOUT, roots), end, Recording(LAYOUT, roots), Seal(LAYOUT))
    ensures AllRetained(Setting(LAYOUT, roots), end, roots)
  {
    var start, m := Setting(LAYOUT, roots), Recording(LAYOUT, roots);
    forall i | 0 <= i < |roots| && Occupied(start, roots[i].path)
      ensures SlotOf(end, roots[i]).retained == SlotOf(start, roots[i]).target
    {
      forall j | 0 <= j < |roots| ensures !Named(m.roots, j, i, Retained) {
        NoRetainedNameIsTaken(roots, i, j);
      }
      assert NameKept(start, m, i);
    }
  }

  lemma ARecordIsLost(roots: seq<Root>, end: Tree)
    requires Pair(roots, Stage) && Recorded(Recording(LAYOUT, roots))
    requires Kept(Setting(LAYOUT, roots), end, Recording(LAYOUT, roots), Seal(LAYOUT))
    ensures !AllInstalled(end, Recording(LAYOUT, roots))
  {
    assert roots[0] == Beside(Stage) && roots[1] == APPLICATION;
    assert roots[0].path == Place(roots[1], Stage);
    assert !NoRootIsALaterStage(roots);
  }

  /**
   The second root has the name under which the application is retained. The
   restore completes, and the old state of the application is at neither of the
   names it should be found at.
   */
  method RestoreOverARetainedName(roots: seq<Root>) returns (result: Result<nat, Failure>, end: Tree)
    requires Pair(roots, Retained)
    ensures result == Ok(|roots|) && !Findable(Setting(LAYOUT, roots), end, APPLICATION)
    ensures !AllRetained(Setting(LAYOUT, roots), end, roots)
  {
    result, end := RestoreHost(roots, Retained);
    NoStageIsTaken(roots);
    TheRetainedStateIsLost(roots, end);
    OnlyTheSecondIsMissing(roots, Retained, APPLICATION);
    NotFoundIsNotRetained(Setting(LAYOUT, roots), end, roots, 0);
  }

  /**
   The first root has the name of the application's stage. The restore completes
   and retains what was there, although not every root is as recorded.
   */
  method RestoreOverAStageName(roots: seq<Root>) returns (result: Result<nat, Failure>, end: Tree)
    requires Pair(roots, Stage)
    ensures result == Ok(|roots|) && Recorded(Recording(LAYOUT, roots)) && !AllInstalled(end, Recording(LAYOUT, roots))
    ensures AllRetained(Setting(LAYOUT, roots), end, roots)
  {
    result, end := RestoreHost(roots, Stage);
    ARecordIsLost(roots, end);
    WhatExistedIsRetained(roots, end);
  }
}
