/**
 Switching the three Python services between two reviewed releases. A switch
 replaces three specification files one by one; it never starts on a drifted or
 mixed set, and a crash leaves every file wholly old or wholly new.
 */
module ReleaseSwitch {
  import opened Wrappers
  import opened Filesystem

  const ROLES := {"postgresql", "keycloak", "neo4j", "ollama", "chroma", "reader", "worker"}
  const UPDATE_ROLES := ["reader", "worker", "chroma"]
  const PLAN := "update.json"

  // ----- Service specifications -----

  /** All seven services are there and share one namespace. */
  predicate Named(specs: map<string, Spec>) {
    && specs.Keys == ROLES
    && |specs["reader"].name| > 7
    && var base := specs["reader"].name[..|specs["reader"].name| - 7];
    && forall role <- ROLES :: specs[role].name == base + "-" + role
  }

  function ServiceNames(specs: map<string, Spec>): map<string, string> {
    map role | role in specs :: specs[role].name
  }

  function FileName(spec: Spec): string {
    spec.name + ".json"
  }

  function UpdateFiles(specs: map<string, Spec>): set<string>
    requires Named(specs)
  {
    set role | role in UPDATE_ROLES :: FileName(specs[role])
  }

  /** The same specification with another executable. */
  predicate OnlyExecutableDiffers(before: Spec, after: Spec) {
    && before.command != [] && after.command != [] && after.command[0] != before.command[0]
    && after == before.(command := [after.command[0]] + before.command[1..])
  }

  function Above(p: Path): Path {
    if p == [] then [] else Parent(p)
  }

  /** The two releases live in separate directories and each is one directory. */
  predicate SeparateReleases(previous: map<string, Spec>, candidate: map<string, Spec>, parse: string -> Path)
    requires Named(previous) && Named(candidate)
    requires forall role <- UPDATE_ROLES :: previous[role].command != [] && candidate[role].command != []
  {
    var oldBin, newBin := Above(parse(previous["reader"].command[0])), Above(parse(candidate["reader"].command[0]));
    && candidate["reader"].command[0] == candidate["worker"].command[0]
    && Above(parse(candidate["chroma"].command[0])) == newBin
    && Disjoint(Above(oldBin), Above(newBin))
  }

  predicate OnlyPythonServicesMove(previous: map<string, Spec>, candidate: map<string, Spec>)
    requires previous.Keys == candidate.Keys == ROLES
  {
    forall role <- ROLES ::
      if role in UPDATE_ROLES then OnlyExecutableDiffers(previous[role], candidate[role])
      else candidate[role] == previous[role]
  }

  /** What a release update may change. */
  predicate Updatable(previous: map<string, Spec>, candidate: map<string, Spec>, parse: string -> Path) {
    && Named(previous) && Named(candidate) && ServiceNames(previous) == ServiceNames(candidate)
    && OnlyPythonServicesMove(previous, candidate)
    && SeparateReleases(previous, candidate, parse)
  }

  /** A specification with another executable, by its parts. */
  predicate Reexecuted(before: Spec, after: Spec) {
    && 0 < |after.command| == |before.command| && after.command[0] != before.command[0]
    && (forall i | 0 < i < |after.command| :: after.command[i] == before.command[i])
    && after.name == before.name && after.rest == before.rest
  }

  lemma OnlyExecutableMeans(before: Spec, after: Spec)
    ensures OnlyExecutableDiffers(before, after) <==> Reexecuted(before, after)
  {
    if Reexecuted(before, after) {
      assert after.command == [after.command[0]] + before.command[1..];
    }
  }

  lemma SameNames(previous: map<string, Spec>, candidate: map<string, Spec>)
    requires previous.Keys == candidate.Keys
    ensures ServiceNames(previous) == ServiceNames(candidate) <==>
      forall role :: role in previous ==> candidate[role].name == previous[role].name
  {
    forall role | role in previous && ServiceNames(previous) == ServiceNames(candidate)
      ensures candidate[role].name == previous[role].name
    {
      assert ServiceNames(previous)[role] == ServiceNames(candidate)[role];
    }
  }

  lemma RolesSplit(role: string)
    ensures role in UPDATE_ROLES <==> role in {"reader", "worker", "chroma"}
    ensures role in ROLES <==> role in UPDATE_ROLES || role in {"postgresql", "keycloak", "neo4j", "ollama"}
    ensures !(role in UPDATE_ROLES && role in {"postgresql", "keycloak", "neo4j", "ollama"})
  {
    assert UPDATE_ROLES[0] == "reader" && UPDATE_ROLES[1] == "worker" && UPDATE_ROLES[2] == "chroma";
  }

  lemma MovesMean(previous: map<string, Spec>, candidate: map<string, Spec>)
    requires previous.Keys == candidate.Keys == ROLES
    ensures OnlyPythonServicesMove(previous, candidate) <==>
      && (forall role <- {"postgresql", "keycloak", "neo4j", "ollama"} :: candidate[role] == previous[role])
      && (forall role <- {"reader", "worker", "chroma"} :: Reexecuted(previous[role], candidate[role]))
  {
    forall role | role in ROLES
      ensures OnlyExecutableDiffers(previous[role], candidate[role]) <==> Reexecuted(previous[role], candidate[role])
    {
      OnlyExecutableMeans(previous[role], candidate[role]);
    }
    forall role
      ensures role in UPDATE_ROLES <==> role in {"reader", "worker", "chroma"}
      ensures role in ROLES <==> role in UPDATE_ROLES || role in {"postgresql", "keycloak", "neo4j", "ollama"}
      ensures !(role in UPDATE_ROLES && role in {"postgresql", "keycloak", "neo4j", "ollama"})
    {
      RolesSplit(role);
    }
  }

  /**
   What an accepted update is: the seven services keep their names; reader, worker
   and chroma change their executable and nothing else, the other four nothing;
   and the new executables lie in one directory, in a release directory that is
   neither inside the old one nor around it.
   */
  lemma UpdatableMeans(previous: map<string, Spec>, candidate: map<string, Spec>, parse: string -> Path)
    requires Named(previous) && Named(candidate)
    ensures Updatable(previous, candidate, parse) <==>
      && (forall role <- {"postgresql", "keycloak", "neo4j", "ollama"} :: candidate[role] == previous[role])
      && (forall role <- {"reader", "worker", "chroma"} :: Reexecuted(previous[role], candidate[role]))
      && candidate["worker"].command[0] == candidate["reader"].command[0]
      && Above(parse(candidate["chroma"].command[0])) == Above(parse(candidate["reader"].command[0]))
      && var was := Above(Above(parse(previous["reader"].command[0])));
      && var now := Above(Above(parse(candidate["reader"].command[0])));
      && !(was <= now) && !(now <= was)
  {
    SameNames(previous, candidate);
    MovesMean(previous, candidate);
    if OnlyPythonServicesMove(previous, candidate) {
      assert Reexecuted(previous["reader"], candidate["reader"]) && Reexecuted(previous["worker"], candidate["worker"])
          && Reexecuted(previous["chroma"], candidate["chroma"]);
      forall role | role in ROLES ensures candidate[role].name == previous[role].name {
        OnlyExecutableMeans(previous[role], candidate[role]);
      }
    }
  }

  datatype Failure =
    | NotUpdatable | CannotCreate | NotReviewed | OtherNamespace | WrongFiles | PreparedChanged | Drift
    | Reparse | NotStopped | StagingFailed | ReplacingFailed

  // ----- Preparing an update -----

  /** The documents of one phase, by file name. */
  ghost predicate Documents(specs: map<string, Spec>, documents: map<string, Blob>) {
    && Named(specs) && documents.Keys == UpdateFiles(specs)
    && forall role <- UPDATE_ROLES :: documents[FileName(specs[role])] == Service(specs[role])
  }

  predicate HoldsData(fs: Tree, p: Path, data: Blob) {
    p in fs && fs[p].File? && fs[p].data == data
  }

  ghost predicate HoldsDocuments(fs: Tree, dir: Path, documents: map<string, Blob>) {
    forall f :: f in documents ==> HoldsData(fs, dir + [f], documents[f])
  }

  /** The prepared directory is what the plan says. */
  ghost predicate Prepared(fs: Tree, dir: Path, plan: Plan) {
    && HoldsDocuments(fs, dir + ["before"], plan.before) && HoldsDocuments(fs, dir + ["after"], plan.after)
    && HoldsData(fs, dir + [PLAN], Update(plan))
  }

  lemma FileNamesDiffer(specs: map<string, Spec>, r: string, s: string)
    requires Named(specs) && r in ROLES && s in ROLES && r != s
    ensures FileName(specs[r]) != FileName(specs[s])
  {
    var base := specs["reader"].name[..|specs["reader"].name| - 7];
    var x, y := FileName(specs[r]), FileName(specs[s]);
    assert x == base + "-" + r + ".json" && y == base + "-" + s + ".json";
    assert x[|base| + 1..|x| - 5] == r && y[|base| + 1..|y| - 5] == s;
  }

  method WriteDocument(disk: Disk, dir: Path, file: string, data: Blob, mtime: int, before: map<string, Blob>)
    returns (documents: map<string, Blob>)
    requires HoldsDocuments(disk.tree, dir, before)
    modifies disk
    ensures documents == before[file := data] && HoldsDocuments(disk.tree, dir, documents)
    ensures OnlyAt(old(disk.tree), disk.tree, dir + [file])
  {
    var p := dir + [file];
    ghost var was := disk.tree;
    OverlayOnlyAt(disk.tree, p, map[[] := File(mtime, data, "")]);
    disk.Put(p, map[[] := File(mtime, data, "")]);
    OverlayHere(was, p, map[[] := File(mtime, data, "")]);
    assert p + [] == p && [] in Sub(disk.tree, p) && Sub(disk.tree, p)[[]] == disk.tree[p];
    documents := before[file := data];
    forall f | f in documents ensures HoldsData(disk.tree, dir + [f], documents[f]) {
      if f != file {
        assert (dir + [f])[|dir|] == f && p[|dir|] == file;
      }
    }
  }

  function DocumentsOf(specs: map<string, Spec>, n: nat): map<string, Blob>
    requires Named(specs) && n <= |UPDATE_ROLES|
  {
    if n == 0 then map[] else
      var spec := specs[UPDATE_ROLES[n - 1]];
      DocumentsOf(specs, n - 1)[FileName(spec) := Service(spec)]
  }

  lemma DocumentsMean(specs: map<string, Spec>)
    requires Named(specs)
    ensures Documents(specs, DocumentsOf(specs, |UPDATE_ROLES|))
  {
    var reader, worker, chroma := specs["reader"], specs["worker"], specs["chroma"];
    FileNamesDiffer(specs, "reader", "worker");
    FileNamesDiffer(specs, "reader", "chroma");
    FileNamesDiffer(specs, "worker", "chroma");
    assert UpdateFiles(specs) == {FileName(reader), FileName(worker), FileName(chroma)};
    assert DocumentsOf(specs, 1) == map[FileName(reader) := Service(reader)];
    assert DocumentsOf(specs, 2) == map[FileName(reader) := Service(reader), FileName(worker) := Service(worker)];
  }

  lemma OnlyAtComposes(a: Tree, b: Tree, c: Tree, p: Path, q: Path)
    requires OnlyAt(a, b, p) && OnlyAt(b, c, q) && p <= q
    ensures OnlyAt(a, c, p)
  {
  }

  method WritePhase(disk: Disk, dir: Path, specs: map<string, Spec>, mtime: int) returns (documents: map<string, Blob>)
    requires Named(specs)
    modifies disk
    ensures Documents(specs, documents) && HoldsDocuments(disk.tree, dir, documents)
    ensures OnlyAt(old(disk.tree), disk.tree, dir)
  {
    OverlayOnlyAt(disk.tree, dir, map[[] := Directory(mtime, "")]);
    disk.Put(dir, map[[] := Directory(mtime, "")]);
    documents := map[];
    for n := 0 to |UPDATE_ROLES|
      invariant documents == DocumentsOf(specs, n)
      invariant HoldsDocuments(disk.tree, dir, documents) && OnlyAt(old(disk.tree), disk.tree, dir)
    {
      var spec := specs[UPDATE_ROLES[n]];
      ghost var was := disk.tree;
      documents := WriteDocument(disk, dir, FileName(spec), Service(spec), mtime, documents);
      OnlyAtComposes(old(disk.tree), was, disk.tree, dir, dir + [FileName(spec)]);
    }
    DocumentsMean(specs);
  }

  lemma DocumentsElsewhere(fs: Tree, gs: Tree, p: Path, dir: Path, documents: map<string, Blob>)
    requires HoldsDocuments(fs, dir, documents) && OnlyAt(fs, gs, p) && Disjoint(p, dir)
    ensures HoldsDocuments(gs, dir, documents)
  {
    forall f | f in documents ensures HoldsData(gs, dir + [f], documents[f]) {
      if p <= dir + [f] {
        PrefixesOfOnePathNest(p, dir, [f]);
      }
    }
  }

  lemma WrittenAt(fs: Tree, p: Path, mtime: int, data: Blob)
    ensures HoldsData(Overlay(fs, p, map[[] := File(mtime, data, "")]), p, data)
  {
    var t := map[[] := File(mtime, data, "")];
    OverlayHere(fs, p, t);
    assert p + [] == p && [] in Sub(Overlay(fs, p, t), p) && Sub(Overlay(fs, p, t), p)[[]] == Overlay(fs, p, t)[p];
  }

  /**
   A prepared update changes nothing but the executables of three services, and
   every file of the plan differs between the two releases.
   */
  method PrepareUpdate(disk: Disk, previous: map<string, Spec>, candidate: map<string, Spec>, output: Path,
                       parse: string -> Path, mtime: int)
    returns (result: Result<Plan, Failure>)
    modifies disk
    ensures !Updatable(previous, candidate, parse) ==> result == Err(NotUpdatable)
    ensures result.Err? ==> disk.tree == old(disk.tree) && disk.history == old(disk.history)
    ensures result.Ok? <==> Updatable(previous, candidate, parse) && CanCreate(old(disk.tree), output)
    ensures result.Ok? ==>
      && Updatable(previous, candidate, parse) && result.value.services == ServiceNames(previous)
      && Documents(previous, result.value.before) && Documents(candidate, result.value.after)
      && Prepared(disk.tree, output, result.value) && OnlyAt(old(disk.tree), disk.tree, output)
  {
    if !Updatable(previous, candidate, parse) {
      return Err(NotUpdatable);
    }
    if !CanCreate(disk.tree, output) {
      return Err(CannotCreate);
    }
    ghost var start := disk.tree;
    var here, there, file := output + ["before"], output + ["after"], output + [PLAN];
    assert here[|output|] == "before" && there[|output|] == "after" && file[|output|] == PLAN;
    OverlayOnlyAt(disk.tree, output, map[[] := Directory(mtime, "")]);
    disk.Put(output, map[[] := Directory(mtime, "")]);
    ghost var s1 := disk.tree;
    var before := WritePhase(disk, here, previous, mtime);
    OnlyAtComposes(start, s1, disk.tree, output, here);
    ghost var s2 := disk.tree;
    var after := WritePhase(disk, there, candidate, mtime);
    OnlyAtComposes(start, s2, disk.tree, output, there);
    DocumentsElsewhere(s2, disk.tree, there, here, before);
    ghost var s3 := disk.tree;
    var plan := Plan(ServiceNames(previous), before, after);
    OverlayOnlyAt(s3, file, map[[] := File(mtime, Update(plan), "")]);
    WrittenAt(s3, file, mtime, Update(plan));
    disk.Put(file, map[[] := File(mtime, Update(plan), "")]);
    OnlyAtComposes(start, s3, disk.tree, output, file);
    DocumentsElsewhere(s3, disk.tree, file, here, before);
    DocumentsElsewhere(s3, disk.tree, file, there, after);
    return Ok(plan);
  }

  /** In a prepared plan both releases name the same three files, and no file is the same in both. */
  lemma ReleasesDifferEverywhere(
    previous: map<string, Spec>, candidate: map<string, Spec>, parse: string -> Path, plan: Plan)
    requires Updatable(previous, candidate, parse)
    requires Documents(previous, plan.before) && Documents(candidate, plan.after)
    ensures plan.before.Keys == plan.after.Keys == UpdateFiles(previous)
    ensures forall f <- plan.before.Keys :: plan.before[f] != plan.after[f]
  {
    forall role | role in UPDATE_ROLES
      ensures FileName(previous[role]) == FileName(candidate[role])
      ensures Service(previous[role]) != Service(candidate[role])
    {
      assert role in ROLES;
      assert ServiceNames(previous)[role] == ServiceNames(candidate)[role];
    }
    assert UpdateFiles(previous) == UpdateFiles(candidate);
  }
}
