/**
 Applying a prepared update or rolling it back. The live files are staged beside
 themselves and then replaced one after the other; anything unexpected in the
 prepared or the live files stops the switch before a live file changes.
 */
module ReleaseApply {
  import opened Wrappers
  import opened Filesystem
  import opened ReleaseSwitch

  /** What is replaced by what: `acl` is the access list each live file has and keeps. */
  datatype Switch = Switch(
    live: Path, files: seq<string>, from: map<string, Blob>, to: map<string, Blob>, acl: map<string, string>)

  function Live(s: Switch, i: nat): Path
    requires i < |s.files|
  {
    s.live + [s.files[i]]
  }

  function Pending(s: Switch, i: nat): Path
    requires i < |s.files|
  {
    s.live + [s.files[i] + ".pending"]
  }

  /** Distinct names, none of which is the pending name of another. */
  ghost predicate WellNamed(s: Switch) {
    && (forall i, j :: 0 <= i < j < |s.files| ==> s.files[i] != s.files[j])
    && (forall i, j :: 0 <= i < |s.files| && 0 <= j < |s.files| ==> s.files[i] != s.files[j] + ".pending")
    && (forall f <- s.files :: f in s.from && f in s.to && f in s.acl)
  }

  predicate Holds(fs: Tree, p: Path, data: Blob, acl: string) {
    p in fs && fs[p].File? && fs[p].data == data && fs[p].acl == acl
  }

  predicate IsOld(fs: Tree, s: Switch, i: nat)
    requires i < |s.files| && s.files[i] in s.from && s.files[i] in s.acl
  {
    Holds(fs, Live(s, i), s.from[s.files[i]], s.acl[s.files[i]])
  }

  predicate IsNew(fs: Tree, s: Switch, i: nat)
    requires i < |s.files| && s.files[i] in s.to && s.files[i] in s.acl
  {
    Holds(fs, Live(s, i), s.to[s.files[i]], s.acl[s.files[i]])
  }

  predicate IsPending(fs: Tree, s: Switch, i: nat)
    requires i < |s.files| && s.files[i] in s.to && s.files[i] in s.acl
  {
    Holds(fs, Pending(s, i), s.to[s.files[i]], s.acl[s.files[i]])
  }

  /** Each live file is wholly old or wholly new. */
  ghost predicate Whole(fs: Tree, s: Switch)
    requires WellNamed(s)
  {
    forall i :: 0 <= i < |s.files| ==> IsOld(fs, s, i) || IsNew(fs, s, i)
  }

  ghost predicate AllOld(fs: Tree, s: Switch)
    requires WellNamed(s)
  {
    forall i :: 0 <= i < |s.files| ==> IsOld(fs, s, i)
  }

  /** Each live file is new and none is left pending. */
  ghost predicate AllNew(fs: Tree, s: Switch)
    requires WellNamed(s)
  {
    forall i :: 0 <= i < |s.files| ==> IsNew(fs, s, i) && Pending(s, i) !in fs
  }

  /** The first k files are staged and no live file has changed. */
  ghost predicate Staged(fs: Tree, s: Switch, k: nat)
    requires WellNamed(s)
  {
    AllOld(fs, s) && forall i :: 0 <= i < k && i < |s.files| ==> IsPending(fs, s, i)
  }

  /** The first k files are replaced and the others are staged. */
  ghost predicate Switched(fs: Tree, s: Switch, k: nat)
    requires WellNamed(s)
  {
    && (forall i :: 0 <= i < k && i < |s.files| ==> IsNew(fs, s, i) && Pending(s, i) !in fs)
    && (forall i :: k <= i < |s.files| ==> IsOld(fs, s, i) && IsPending(fs, s, i))
  }

  lemma SiblingsDiffer(dir: Path, a: string, b: string)
    requires a != b
    ensures !(dir + [a] <= dir + [b])
  {
    assert (dir + [a])[|dir|] == a && (dir + [b])[|dir|] == b;
  }

  /** A change at one pending name leaves every live file and every other pending file alone. */
  lemma PendingChangeKeeps(fs: Tree, gs: Tree, s: Switch, k: nat, seen: nat)
    requires WellNamed(s) && seen <= k < |s.files| && OnlyAt(fs, gs, Pending(s, k)) && Staged(fs, s, seen)
    ensures Staged(gs, s, seen)
  {
    forall i | 0 <= i < |s.files| ensures IsOld(gs, s, i) {
      assert IsOld(fs, s, i);
      SiblingsDiffer(s.live, s.files[k] + ".pending", s.files[i]);
    }
    forall i | 0 <= i < seen ensures IsPending(gs, s, i) {
      assert IsPending(fs, s, i);
      PendingNamesDiffer(s, k, i);
      SiblingsDiffer(s.live, s.files[k] + ".pending", s.files[i] + ".pending");
    }
  }

  lemma PendingNamesDiffer(s: Switch, i: nat, j: nat)
    requires WellNamed(s) && i < |s.files| && j < |s.files| && i != j
    ensures s.files[i] + ".pending" != s.files[j] + ".pending"
  {
    var a, b := s.files[i], s.files[j];
    assert a == (a + ".pending")[..|a|] && b == (b + ".pending")[..|b|];
  }

  function Replace(fs: Tree, p: Path, q: Path): Tree {
    Overlay(Overlay(fs, q, Sub(fs, p)), p, map[])
  }

  lemma ReplaceAt(fs: Tree, p: Path, q: Path)
    requires Disjoint(p, q) && p in fs
    ensures q in Replace(fs, p, q) && Replace(fs, p, q)[q] == fs[p] && p !in Replace(fs, p, q)
  {
    var after := Replace(fs, p, q);
    RenameMoves(fs, p, q);
    assert p + [] == p && q + [] == q;
    assert [] in Sub(fs, p) && Sub(fs, p)[[]] == fs[p];
    assert [] in Sub(after, q) && Sub(after, q)[[]] == after[q];
    assert [] !in Sub(after, p);
  }

  lemma ReplaceElsewhere(fs: Tree, p: Path, q: Path, r: Path)
    requires !(p <= r) && !(q <= r)
    ensures r in Replace(fs, p, q) <==> r in fs
    ensures r in fs ==> Replace(fs, p, q)[r] == fs[r]
  {
  }

  lemma ReplaceKeepsOne(fs: Tree, s: Switch, k: nat, r: string)
    requires WellNamed(s) && k < |s.files| && r != s.files[k] && r != s.files[k] + ".pending"
    ensures var gs, p := Replace(fs, Pending(s, k), Live(s, k)), s.live + [r];
      (p in gs <==> p in fs) && (p in fs ==> gs[p] == fs[p])
  {
    SiblingsDiffer(s.live, s.files[k], r);
    SiblingsDiffer(s.live, s.files[k] + ".pending", r);
    ReplaceElsewhere(fs, Pending(s, k), Live(s, k), s.live + [r]);
  }

  /** Replacing file k brings the switch one file further. */
  lemma ReplacingKeeps(fs: Tree, s: Switch, k: nat)
    requires WellNamed(s) && k < |s.files| && Switched(fs, s, k)
    ensures Switched(Replace(fs, Pending(s, k), Live(s, k)), s, k + 1)
  {
    var gs := Replace(fs, Pending(s, k), Live(s, k));
    SiblingsDiffer(s.live, s.files[k], s.files[k] + ".pending");
    SiblingsDiffer(s.live, s.files[k] + ".pending", s.files[k]);
    assert IsPending(fs, s, k);
    ReplaceAt(fs, Pending(s, k), Live(s, k));
    forall i | 0 <= i < |s.files| && i != k
      ensures IsNew(gs, s, i) == IsNew(fs, s, i) && IsOld(gs, s, i) == IsOld(fs, s, i)
      ensures IsPending(gs, s, i) == IsPending(fs, s, i) && (Pending(s, i) in gs <==> Pending(s, i) in fs)
    {
      ReplaceKeepsOne(fs, s, k, s.files[i]);
      PendingNamesDiffer(s, i, k);
      ReplaceKeepsOne(fs, s, k, s.files[i] + ".pending");
    }
  }

  lemma SwitchedIsWhole(fs: Tree, s: Switch, k: nat)
    requires WellNamed(s) && Switched(fs, s, k)
    ensures Whole(fs, s)
  {
    forall i | 0 <= i < |s.files| ensures IsOld(fs, s, i) || IsNew(fs, s, i) {
    }
  }

  // ----- What stops a switch before anything is written -----

  function FileRefusal(fs: Tree, prepared: Path, plan: Plan, live: Path, f: string, rollback: bool): Option<Failure>
    requires f in plan.before && f in plan.after
  {
    if !HoldsData(fs, prepared + ["before"] + [f], plan.before[f]) then Some(PreparedChanged)
    else if !HoldsData(fs, prepared + ["after"] + [f], plan.after[f]) then Some(PreparedChanged)
    else if !HoldsData(fs, live + [f], if rollback then plan.after[f] else plan.before[f]) then Some(Drift)
    else if !NoReparse(fs, live + [f]) then Some(Reparse)
    else None
  }

  function FilesRefusal(fs: Tree, prepared: Path, plan: Plan, live: Path, files: seq<string>, rollback: bool)
    : (refusal: Option<Failure>)
    requires forall f <- files :: f in plan.before && f in plan.after
    ensures refusal.None? <==> forall f <- files :: FileRefusal(fs, prepared, plan, live, f, rollback).None?
  {
    if files == [] then None else
      var refusal := FileRefusal(fs, prepared, plan, live, files[0], rollback);
      if refusal.Some? then refusal else FilesRefusal(fs, prepared, plan, live, files[1..], rollback)
  }

  function Refusal(fs: Tree, specs: map<string, Spec>, prepared: Path, approved: Blob, live: Path,
                   files: seq<string>, rollback: bool): Option<Failure>
    requires Named(specs) ==> forall f <- files :: f in UpdateFiles(specs)
  {
    if !HoldsData(fs, prepared + [PLAN], approved) || !approved.Update? then Some(NotReviewed)
    else if !Named(specs) || approved.plan.services != ServiceNames(specs) then Some(OtherNamespace)
    else if approved.plan.before.Keys != UpdateFiles(specs) || approved.plan.after.Keys != UpdateFiles(specs) then
      Some(WrongFiles)
    else FilesRefusal(fs, prepared, approved.plan, live, files, rollback)
  }

  /**
   What is not refused: the plan is the reviewed one, for these seven services and
   their three files; both prepared releases are as the plan has them; and every
   live file is that of the release to be replaced, reached through no link.
   */
  lemma AcceptedExactlyAsReviewed(fs: Tree, specs: map<string, Spec>, prepared: Path, approved: Blob, live: Path,
                                  files: seq<string>, rollback: bool)
    requires Named(specs) ==> forall f <- files :: f in UpdateFiles(specs)
    ensures Refusal(fs, specs, prepared, approved, live, files, rollback).None? <==>
      && prepared + [PLAN] in fs && fs[prepared + [PLAN]].File? && fs[prepared + [PLAN]].data == approved
      && approved.Update? && Named(specs)
      && approved.plan.services.Keys == specs.Keys
      && (forall role <- specs.Keys :: approved.plan.services[role] == specs[role].name)
      && approved.plan.before.Keys == approved.plan.after.Keys ==
           {specs["reader"].name + ".json", specs["worker"].name + ".json", specs["chroma"].name + ".json"}
      && forall f <- files ::
           && HoldsData(fs, prepared + ["before"] + [f], approved.plan.before[f])
           && HoldsData(fs, prepared + ["after"] + [f], approved.plan.after[f])
           && (if rollback then HoldsData(fs, live + [f], approved.plan.after[f])
               else HoldsData(fs, live + [f], approved.plan.before[f]))
           && forall n :: 0 <= n <= |live| + 1 && (live + [f])[..n] in fs ==> fs[(live + [f])[..n]] != Special
  {
    if Named(specs) {
      UpdateFilesAre(specs);
    }
  }

  lemma UpdateFilesAre(specs: map<string, Spec>)
    requires Named(specs)
    ensures UpdateFiles(specs) ==
      {specs["reader"].name + ".json", specs["worker"].name + ".json", specs["chroma"].name + ".json"}
  {
    assert UPDATE_ROLES == ["reader", "worker", "chroma"];
    forall f
      ensures f in UpdateFiles(specs) <==>
        f in {specs["reader"].name + ".json", specs["worker"].name + ".json", specs["chroma"].name + ".json"}
    {
      assert UPDATE_ROLES[0] == "reader" && UPDATE_ROLES[1] == "worker" && UPDATE_ROLES[2] == "chroma";
    }
  }

  method CheckFiles(fs: Tree, prepared: Path, plan: Plan, live: Path, files: seq<string>, rollback: bool)
    returns (refusal: Option<Failure>)
    requires forall f <- files :: f in plan.before && f in plan.after
    ensures refusal == FilesRefusal(fs, prepared, plan, live, files, rollback)
  {
    for k := 0 to |files|
      invariant FilesRefusal(fs, prepared, plan, live, files[k..], rollback)
             == FilesRefusal(fs, prepared, plan, live, files, rollback)
    {
      refusal := FileRefusal(fs, prepared, plan, live, files[k], rollback);
      assert files[k..][1..] == files[k + 1..];
      if refusal.Some? {
        return;
      }
    }
    return None;
  }

  method Check(fs: Tree, specs: map<string, Spec>, prepared: Path, approved: Blob, live: Path,
               files: seq<string>, rollback: bool)
    returns (refusal: Option<Failure>)
    requires Named(specs) ==> forall f <- files :: f in UpdateFiles(specs)
    ensures refusal == Refusal(fs, specs, prepared, approved, live, files, rollback)
  {
    if !HoldsData(fs, prepared + [PLAN], approved) || !approved.Update? {
      return Some(NotReviewed);
    }
    var plan := approved.plan;
    if !Named(specs) || plan.services != ServiceNames(specs) {
      return Some(OtherNamespace);
    }
    if plan.before.Keys != UpdateFiles(specs) || plan.after.Keys != UpdateFiles(specs) {
      return Some(WrongFiles);
    }
    refusal := CheckFiles(fs, prepared, plan, live, files, rollback);
  }

  /** From a set of live files that mixes the two releases, both directions are refused. */
  lemma MixedSetIsRefused(fs: Tree, specs: map<string, Spec>, prepared: Path, plan: Plan, live: Path,
                          files: seq<string>, f: string, g: string, rollback: bool)
    requires Named(specs) ==> forall h <- files :: h in UpdateFiles(specs)
    requires f in files && f in plan.before && f in plan.after && plan.before[f] != plan.after[f]
    requires g in files && g in plan.before && g in plan.after && plan.before[g] != plan.after[g]
    requires HoldsData(fs, live + [f], plan.before[f]) && HoldsData(fs, live + [g], plan.after[g])
    ensures Refusal(fs, specs, prepared, Update(plan), live, files, rollback).Some?
  {
    if rollback {
      assert FileRefusal(fs, prepared, plan, live, f, rollback).Some?;
    } else {
      assert FileRefusal(fs, prepared, plan, live, g, rollback).Some?;
    }
  }

  // ----- The switch -----

  /** Which calls fail: the services are stopped, a file is written, a file is replaced. */
  datatype World = World(stopped: nat -> bool, writes: nat -> bool, switches: nat -> bool, mtime: int)

  function AccessOf(fs: Tree, live: Path, files: seq<string>): map<string, string> {
    map f | f in files :: if live + [f] in fs && fs[live + [f]].File? then fs[live + [f]].acl else ""
  }

  /** The switch that a direction of a plan asks for. */
  function TheSwitch(fs: Tree, plan: Plan, live: Path, files: seq<string>, rollback: bool): Switch {
    Switch(live, files, if rollback then plan.after else plan.before, if rollback then plan.before else plan.after,
           AccessOf(fs, live, files))
  }

  /** The three file names in the order in which a set yields them. */
  ghost predicate InSomeOrder(specs: map<string, Spec>, files: seq<string>) {
    && (Named(specs) ==> forall f :: f in files <==> f in UpdateFiles(specs))
    && forall i, j :: 0 <= i < j < |files| ==> files[i] != files[j]
  }

  lemma NoFileIsPending(specs: map<string, Spec>, f: string, g: string)
    requires Named(specs) && f in UpdateFiles(specs)
    ensures f != g + ".pending"
  {
    var h := g + ".pending";
    assert f[|f| - 1] == 'n' && h[|h| - 1] == 'g';
  }

  lemma TheSwitchIsWellNamed(fs: Tree, specs: map<string, Spec>, prepared: Path, approved: Blob, live: Path,
                             files: seq<string>, rollback: bool)
    requires InSomeOrder(specs, files) && Refusal(fs, specs, prepared, approved, live, files, rollback).None?
    ensures approved.Update? && WellNamed(TheSwitch(fs, approved.plan, live, files, rollback))
    ensures AllOld(fs, TheSwitch(fs, approved.plan, live, files, rollback))
    ensures forall f <- files :: HoldsData(fs, prepared + ["before"] + [f], approved.plan.before[f])
                              && HoldsData(fs, prepared + ["after"] + [f], approved.plan.after[f])
  {
    var s := TheSwitch(fs, approved.plan, live, files, rollback);
    forall i, j | 0 <= i < |files| && 0 <= j < |files| ensures files[i] != files[j] + ".pending" {
      NoFileIsPending(specs, files[i], files[j]);
    }
    forall i | 0 <= i < |files| ensures IsOld(fs, s, i) {
      assert FileRefusal(fs, prepared, approved.plan, live, files[i], rollback).None?;
    }
    forall f | f in files
      ensures HoldsData(fs, prepared + ["before"] + [f], approved.plan.before[f])
           && HoldsData(fs, prepared + ["after"] + [f], approved.plan.after[f])
    {
      assert FileRefusal(fs, prepared, approved.plan, live, f, rollback).None?;
    }
  }

  /** Everything that was there is still there. */
  ghost predicate Extends(start: Tree, fs: Tree) {
    forall r :: r in start ==> r in fs && fs[r] == start[r]
  }

  lemma ExtendedIsOld(start: Tree, fs: Tree, s: Switch)
    requires WellNamed(s) && AllOld(start, s) && Extends(start, fs)
    ensures AllOld(fs, s) && Whole(fs, s)
  {
    forall i | 0 <= i < |s.files| ensures IsOld(fs, s, i) {
      assert IsOld(start, s, i);
    }
  }

  lemma VacantPutExtends(start: Tree, fs: Tree, gs: Tree, p: Path)
    requires Extends(start, fs) && OnlyAt(fs, gs, p) && !Occupied(start, p)
    ensures Extends(start, gs)
  {
  }

  /** In every state from number `from` on each live file is wholly old or wholly new and the rest as it was. */
  ghost predicate WholeSince(start: Tree, history: seq<Tree>, from: nat, s: Switch)
    requires WellNamed(s)
  {
    forall n :: from <= n < |history| ==> Whole(history[n], s) && OnlyAt(start, history[n], s.live)
  }

  /** Writes one state of one pending file. */
  method PutPending(disk: Disk, s: Switch, k: nat, file: Node, ghost start: Tree)
    requires WellNamed(s) && k < |s.files| && AllOld(start, s) && !Occupied(start, Pending(s, k))
    requires Extends(start, disk.tree) && OnlyAt(start, disk.tree, s.live) && Staged(disk.tree, s, k)
    modifies disk
    ensures old(disk.history) <= disk.history && WholeSince(start, disk.history, |old(disk.history)|, s)
    ensures Extends(start, disk.tree) && OnlyAt(start, disk.tree, s.live) && Staged(disk.tree, s, k)
    ensures Pending(s, k) in disk.tree && disk.tree[Pending(s, k)] == file
    ensures OnlyAt(old(disk.tree), disk.tree, Pending(s, k))
  {
    var p, t := Pending(s, k), map[[] := file];
    ghost var was := disk.tree;
    OverlayOnlyAt(was, p, t);
    OverlayHere(was, p, t);
    disk.Put(p, t);
    assert p + [] == p && [] in Sub(disk.tree, p) && Sub(disk.tree, p)[[]] == disk.tree[p];
    VacantPutExtends(start, was, disk.tree, p);
    ExtendedIsOld(start, disk.tree, s);
    PendingChangeKeeps(was, disk.tree, s, k, k);
    assert s.live <= p;
  }

  /** File k can be staged: writing it is possible and nothing has its pending name. */
  predicate Stageable(fs: Tree, s: Switch, world: World, k: nat)
    requires k < |s.files|
  {
    world.writes(k) && CanCreate(fs, Pending(s, k))
  }

  /** Writing at one pending name does not make another one free or taken. */
  lemma StagingKeepsFree(fs: Tree, gs: Tree, s: Switch, k: nat, i: nat)
    requires WellNamed(s) && k < |s.files| && i < |s.files| && i != k && OnlyAt(fs, gs, Pending(s, k))
    ensures CanCreate(gs, Pending(s, i)) <==> CanCreate(fs, Pending(s, i))
  {
    PendingNamesDiffer(s, k, i);
    assert Parent(Pending(s, i)) == s.live && !(Pending(s, k) <= s.live);
    forall r ensures Pending(s, i) <= r ==> !(Pending(s, k) <= r) && (r in gs <==> r in fs) {
      assert Pending(s, i) <= r ==> r[|s.live|] == s.files[i] + ".pending";
    }
  }

  /** Stages file k with the new contents and the access list of the live file. */
  method StageFile(disk: Disk, s: Switch, k: nat, source: Path, allowed: bool, mtime: int, ghost start: Tree)
    returns (done: bool)
    requires WellNamed(s) && k < |s.files| && AllOld(start, s)
    requires HoldsData(start, source, s.to[s.files[k]])
    requires Extends(start, disk.tree) && OnlyAt(start, disk.tree, s.live) && Staged(disk.tree, s, k)
    modifies disk
    ensures old(disk.history) <= disk.history && WholeSince(start, disk.history, |old(disk.history)|, s)
    ensures Extends(start, disk.tree) && OnlyAt(start, disk.tree, s.live)
    ensures done ==> Staged(disk.tree, s, k + 1) && !Occupied(start, Pending(s, k))
    ensures done <==> allowed && CanCreate(old(disk.tree), Pending(s, k))
    ensures OnlyAt(old(disk.tree), disk.tree, Pending(s, k))
  {
    var p := Pending(s, k);
    if !allowed || !CanCreate(disk.tree, p) {
      return false;
    }
    assert !Occupied(start, p);
    ghost var was := disk.tree;
    var data := CopyPending(disk, s, k, source, mtime, start);
    assert IsOld(disk.tree, s, k);
    ghost var copied := disk.tree;
    PutPending(disk, s, k, File(mtime, data, disk.tree[Live(s, k)].acl), start);
    OnlyAtComposes(was, copied, disk.tree, p, p);
    assert IsPending(disk.tree, s, k);
    return true;
  }

  /** Creates the pending file and writes the new contents. */
  method CopyPending(disk: Disk, s: Switch, k: nat, source: Path, mtime: int, ghost start: Tree) returns (data: Blob)
    requires WellNamed(s) && k < |s.files| && AllOld(start, s) && !Occupied(start, Pending(s, k))
    requires HoldsData(start, source, s.to[s.files[k]])
    requires Extends(start, disk.tree) && OnlyAt(start, disk.tree, s.live) && Staged(disk.tree, s, k)
    modifies disk
    ensures old(disk.history) <= disk.history && WholeSince(start, disk.history, |old(disk.history)|, s)
    ensures Extends(start, disk.tree) && OnlyAt(start, disk.tree, s.live) && Staged(disk.tree, s, k)
    ensures data == s.to[s.files[k]] && OnlyAt(old(disk.tree), disk.tree, Pending(s, k))
  {
    ghost var was := disk.tree;
    PutPending(disk, s, k, File(mtime, Text(""), ""), start);
    assert HoldsData(disk.tree, source, s.to[s.files[k]]);
    data := disk.tree[source].data;
    ghost var created := disk.tree;
    PutPending(disk, s, k, File(mtime, data, ""), start);
    OnlyAtComposes(was, created, disk.tree, Pending(s, k), Pending(s, k));
  }

  method StageAll(disk: Disk, s: Switch, sources: seq<Path>, world: World, ghost start: Tree) returns (done: bool)
    requires WellNamed(s) && AllOld(start, s) && |sources| == |s.files| && disk.tree == start
    requires forall i :: 0 <= i < |s.files| ==> HoldsData(start, sources[i], s.to[s.files[i]])
    modifies disk
    ensures old(disk.history) <= disk.history && WholeSince(start, disk.history, |old(disk.history)|, s)
    ensures Extends(start, disk.tree) && OnlyAt(start, disk.tree, s.live)
    ensures done ==> Staged(disk.tree, s, |s.files|)
    ensures done <==> forall i :: 0 <= i < |s.files| ==> Stageable(start, s, world, i)
  {
    for k := 0 to |s.files|
      invariant old(disk.history) <= disk.history && WholeSince(start, disk.history, |old(disk.history)|, s)
      invariant Extends(start, disk.tree) && OnlyAt(start, disk.tree, s.live) && Staged(disk.tree, s, k)
      invariant forall i :: 0 <= i < k ==> Stageable(start, s, world, i)
      invariant forall i :: k <= i < |s.files| ==>
        (CanCreate(disk.tree, Pending(s, i)) <==> CanCreate(start, Pending(s, i)))
    {
      ghost var was := disk.tree;
      done := StageFile(disk, s, k, sources[k], world.writes(k), world.mtime, start);
      assert done <==> Stageable(start, s, world, k);
      if !done {
        return;
      }
      forall i | k < i < |s.files|
        ensures CanCreate(disk.tree, Pending(s, i)) <==> CanCreate(start, Pending(s, i))
      {
        StagingKeepsFree(was, disk.tree, s, k, i);
      }
    }
    return true;
  }

  lemma ReplaceOnlyAt(start: Tree, fs: Tree, p: Path, q: Path, dir: Path)
    requires OnlyAt(start, fs, dir) && dir <= p && dir <= q
    ensures OnlyAt(start, Replace(fs, p, q), dir)
  {
  }

  /** Puts one staged file in the place of its live file. */
  method ReplaceOne(disk: Disk, s: Switch, k: nat, ghost start: Tree)
    requires WellNamed(s) && k < |s.files| && Switched(disk.tree, s, k) && OnlyAt(start, disk.tree, s.live)
    modifies disk
    ensures disk.history == old(disk.history) + [disk.tree] && Whole(disk.tree, s)
    ensures OnlyAt(start, disk.tree, s.live) && Switched(disk.tree, s, k + 1)
  {
    SiblingsDiffer(s.live, s.files[k], s.files[k] + ".pending");
    SiblingsDiffer(s.live, s.files[k] + ".pending", s.files[k]);
    ReplacingKeeps(disk.tree, s, k);
    SwitchedIsWhole(Replace(disk.tree, Pending(s, k), Live(s, k)), s, k + 1);
    ReplaceOnlyAt(start, disk.tree, Pending(s, k), Live(s, k), s.live);
    disk.Rename(Pending(s, k), Live(s, k));
  }

  method ReplaceAll(disk: Disk, s: Switch, world: World, ghost start: Tree) returns (done: bool)
    requires WellNamed(s) && Staged(disk.tree, s, |s.files|) && OnlyAt(start, disk.tree, s.live)
    modifies disk
    ensures old(disk.history) <= disk.history && WholeSince(start, disk.history, |old(disk.history)|, s)
    ensures OnlyAt(start, disk.tree, s.live)
    ensures done ==> AllNew(disk.tree, s)
    ensures done <==> forall k :: 0 <= k < |s.files| ==> world.switches(k)
  {
    for k := 0 to |s.files|
      invariant old(disk.history) <= disk.history && WholeSince(start, disk.history, |old(disk.history)|, s)
      invariant OnlyAt(start, disk.tree, s.live) && Switched(disk.tree, s, k)
      invariant forall i :: 0 <= i < k ==> world.switches(i)
    {
      if !world.switches(k) {
        return false;
      }
      ReplaceOne(disk, s, k, start);
    }
    return true;
  }

  function Sources(prepared: Path, files: seq<string>, rollback: bool): (sources: seq<Path>)
    ensures |sources| == |files|
    ensures forall i :: 0 <= i < |files| ==>
      sources[i] == prepared + [if rollback then "before" else "after"] + [files[i]]
  {
    seq(|files|, i requires 0 <= i < |files| => prepared + [if rollback then "before" else "after"] + [files[i]])
  }

  /** Staging, the last look at the services, and replacing. */
  method Proceed(disk: Disk, s: Switch, sources: seq<Path>, world: World) returns (failure: Option<Failure>)
    requires WellNamed(s) && AllOld(disk.tree, s) && |sources| == |s.files|
    requires forall i :: 0 <= i < |s.files| ==> HoldsData(disk.tree, sources[i], s.to[s.files[i]])
    modifies disk
    ensures old(disk.history) <= disk.history && WholeSince(old(disk.tree), disk.history, |old(disk.history)|, s)
    ensures OnlyAt(old(disk.tree), disk.tree, s.live)
    ensures failure.None? ==> AllNew(disk.tree, s)
    ensures failure.Some? && failure != Some(ReplacingFailed) ==> Extends(old(disk.tree), disk.tree)
    ensures (exists i :: 0 <= i < |s.files| && Occupied(old(disk.tree), Pending(s, i))) ==>
      failure == Some(StagingFailed)
    ensures failure == Some(StagingFailed) <==>
      exists i :: 0 <= i < |s.files| && !Stageable(old(disk.tree), s, world, i)
    ensures failure != Some(StagingFailed) ==> (failure == Some(NotStopped) <==> !world.stopped(1))
    ensures failure.None? <==>
      && world.stopped(1)
      && forall i :: 0 <= i < |s.files| ==> Stageable(old(disk.tree), s, world, i) && world.switches(i)
    ensures failure.None? || failure.value in {StagingFailed, NotStopped, ReplacingFailed}
  {
    ghost var start := disk.tree;
    var done := StageAll(disk, s, sources, world, start);
    if !done {
      return Some(StagingFailed);
    }
    assert forall i :: 0 <= i < |s.files| && Stageable(start, s, world, i) ==> !Occupied(start, Pending(s, i));
    if !world.stopped(1) {
      return Some(NotStopped);
    }
    done := ReplaceAll(disk, s, world, start);
    return if done then None else Some(ReplacingFailed);
  }

  /**
   A switch in either direction. Anything unexpected leaves the disk untouched;
   a leftover pending file or a failure before the first replacement leaves every
   live file as it was; every state a crash can leave has each live file wholly
   old or wholly new; and a completed switch has put the other release in place
   under the access lists that were there. Running services at either look stop the
   switch with the live files as they were, and it completes exactly when they were
   stopped at both and every file could be staged and replaced.
   */
  method ApplyUpdate(disk: Disk, specs: map<string, Spec>, prepared: Path, approved: Blob, live: Path,
                     files: seq<string>, world: World, rollback: bool)
    returns (result: Result<nat, Failure>)
    requires InSomeOrder(specs, files)
    modifies disk
    ensures var refusal := Refusal(old(disk.tree), specs, prepared, approved, live, files, rollback);
      refusal.Some? ==> result == Err(refusal.value) && disk.tree == old(disk.tree) && disk.history == old(disk.history)
    ensures Refusal(old(disk.tree), specs, prepared, approved, live, files, rollback).None? ==>
      approved.Update? && var s := TheSwitch(old(disk.tree), approved.plan, live, files, rollback);
      && WellNamed(s) && AllOld(old(disk.tree), s)
      && old(disk.history) <= disk.history && WholeSince(old(disk.tree), disk.history, |old(disk.history)|, s)
      && OnlyAt(old(disk.tree), disk.tree, live)
      && (result.Ok? ==> AllNew(disk.tree, s))
      && (result.Err? && result.error != ReplacingFailed ==> Extends(old(disk.tree), disk.tree))
      && ((exists i :: 0 <= i < |s.files| && Occupied(old(disk.tree), Pending(s, i))) ==>
            result.Err? && Extends(old(disk.tree), disk.tree))
      && (result.Ok? <==>
            && world.stopped(0) && world.stopped(1)
            && forall i :: 0 <= i < |s.files| ==> Stageable(old(disk.tree), s, world, i) && world.switches(i))
    ensures result.Ok? ==> world.stopped(0) && world.stopped(1) && result.value == |files|
    ensures Refusal(old(disk.tree), specs, prepared, approved, live, files, rollback).None? && !world.stopped(0) ==>
      result == Err(NotStopped) && disk.tree == old(disk.tree) && disk.history == old(disk.history)
    ensures !world.stopped(1) ==> result.Err? && Extends(old(disk.tree), disk.tree)
  {
    var refusal := Check(disk.tree, specs, prepared, approved, live, files, rollback);
    if refusal.Some? {
      return Err(refusal.value);
    }
    TheSwitchIsWellNamed(disk.tree, specs, prepared, approved, live, files, rollback);
    if !world.stopped(0) {
      return Err(NotStopped);
    }
    var s := TheSwitch(disk.tree, approved.plan, live, files, rollback);
    var failure := Proceed(disk, s, Sources(prepared, files, rollback), world);
    return if failure.Some? then Err(failure.value) else Ok(|files|);
  }

  /** An update and its rollback: when both complete, each live file is what it was, access list included. */
  method UpdateAndRollBack(disk: Disk, specs: map<string, Spec>, prepared: Path, approved: Blob, live: Path,
                           files: seq<string>, world: World, later: World)
    returns (completed: bool)
    requires InSomeOrder(specs, files)
    modifies disk
    ensures completed ==> forall f <- files ::
      live + [f] in old(disk.tree) && old(disk.tree)[live + [f]].File?
      && Holds(disk.tree, live + [f], old(disk.tree)[live + [f]].data, old(disk.tree)[live + [f]].acl)
  {
    var updated := ApplyUpdate(disk, specs, prepared, approved, live, files, world, false);
    if updated.Err? {
      return false;
    }
    ghost var middle := disk.tree;
    var undone := ApplyUpdate(disk, specs, prepared, approved, live, files, later, true);
    if undone.Ok? {
      UndoneIsOld(old(disk.tree), middle, disk.tree, approved.plan, live, files);
    }
    return undone.Ok?;
  }

  lemma UndoneIsOld(start: Tree, middle: Tree, end: Tree, plan: Plan, live: Path, files: seq<string>)
    requires var s := TheSwitch(start, plan, live, files, false); WellNamed(s) && AllOld(start, s) && AllNew(middle, s)
    requires var s := TheSwitch(middle, plan, live, files, true); WellNamed(s) && AllNew(end, s)
    ensures forall f <- files ::
      live + [f] in start && start[live + [f]].File?
      && Holds(end, live + [f], start[live + [f]].data, start[live + [f]].acl)
  {
    var s, u := TheSwitch(start, plan, live, files, false), TheSwitch(middle, plan, live, files, true);
    forall f | f in files
      ensures live + [f] in start && start[live + [f]].File?
        && Holds(end, live + [f], start[live + [f]].data, start[live + [f]].acl)
    {
      var i :| 0 <= i < |files| && files[i] == f;
      assert IsOld(start, s, i) && IsNew(middle, s, i) && IsNew(end, u, i);
    }
  }

  lemma PreparedDataStays(start: Tree, end: Tree, prepared: Path, live: Path, tail: Path, data: Blob)
    requires OnlyAt(start, end, live) && Disjoint(prepared, live) && HoldsData(start, prepared + tail, data)
    ensures HoldsData(end, prepared + tail, data)
  {
    if live <= prepared + tail {
      PrefixesOfOnePathNest(live, prepared, tail);
    }
  }

  lemma RollbackFileIsAccepted(
    start: Tree, end: Tree, prepared: Path, plan: Plan, live: Path, files: seq<string>, f: string)
    requires f in files && f in plan.before && f in plan.after
    requires FileRefusal(start, prepared, plan, live, f, false).None?
    requires OnlyAt(start, end, live) && Disjoint(prepared, live) && NoReparse(end, live + [f])
    requires var s := TheSwitch(start, plan, live, files, false); WellNamed(s) && AllNew(end, s)
    ensures FileRefusal(end, prepared, plan, live, f, true).None?
  {
    var i :| 0 <= i < |files| && files[i] == f;
    assert IsNew(end, TheSwitch(start, plan, live, files, false), i);
    assert prepared + ["before"] + [f] == prepared + ["before", f];
    assert prepared + ["after"] + [f] == prepared + ["after", f];
    PreparedDataStays(start, end, prepared, live, ["before", f], plan.before[f]);
    PreparedDataStays(start, end, prepared, live, ["after", f], plan.after[f]);
  }

  /** A completed update can be rolled back: with the plan kept apart from the live files, nothing refuses it. */
  lemma RollbackIsAccepted(start: Tree, end: Tree, specs: map<string, Spec>, prepared: Path, approved: Blob,
                           live: Path, files: seq<string>)
    requires InSomeOrder(specs, files) && Refusal(start, specs, prepared, approved, live, files, false).None?
    requires OnlyAt(start, end, live) && Disjoint(prepared, live) && forall f <- files :: NoReparse(end, live + [f])
    requires var s := TheSwitch(start, approved.plan, live, files, false); WellNamed(s) && AllNew(end, s)
    ensures Refusal(end, specs, prepared, approved, live, files, true).None?
  {
    PreparedDataStays(start, end, prepared, live, [PLAN], approved);
    forall f | f in files ensures FileRefusal(end, prepared, approved.plan, live, f, true).None? {
      RollbackFileIsAccepted(start, end, prepared, approved.plan, live, files, f);
    }
  }
}
