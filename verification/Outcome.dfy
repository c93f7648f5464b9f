/**
 The disk as a table of names, what staging and swapping do to it, what a
 completed restore installs, and when one can complete: exact conditions on the
 names of the roots and on which of them existed, visible before it starts.
 */
module Outcome {
  import opened Filesystem
  import opened Recovery
  import opened Places
  import opened Slots

  /** A record of a directory and nothing but ordinary files and directories below it. */
  predicate Ordinary(record: Tree) {
    [] in record && record[[]].Directory? && forall q <- record :: record[q] != Special
  }

  /** Every root has a record. */
  predicate Recorded(m: Manifest) {
    forall root <- m.roots :: root.name in m.inventory && Ordinary(m.inventory[root.name])
  }

  function RecordOf(m: Manifest, i: nat): (record: Tree)
    requires Recorded(m) && i < |m.roots|
    ensures Ordinary(record)
  {
    assert m.roots[i] in m.roots;
    m.inventory[m.roots[i].name]
  }

  // ----- The table of a disk -----

  predicate Named(roots: seq<Root>, i: nat, k: nat, a: Role)
    requires i < |roots| && k < |roots|
  {
    i != k && roots[i].path == Place(roots[k], a)
  }

  ghost function UseOf(roots: seq<Root>, i: nat): Use
    requires i < |roots|
  {
    if exists k :: 0 <= k < |roots| && Named(roots, i, k, Stage) then
      var k :| 0 <= k < |roots| && Named(roots, i, k, Stage); StageOf(k)
    else if exists k :: 0 <= k < |roots| && Named(roots, i, k, Retained) then
      var k :| 0 <= k < |roots| && Named(roots, i, k, Retained); RetainedOf(k)
    else
      Plain
  }

  ghost function UsesOf(roots: seq<Root>): (uses: seq<Use>)
    ensures |uses| == |roots| && forall i :: 0 <= i < |roots| ==> uses[i] == UseOf(roots, i)
  {
    seq(|roots|, i requires 0 <= i < |roots| => UseOf(roots, i))
  }

  lemma OneName(roots: seq<Root>, i: nat, k: nat, a: Role, l: nat, b: Role)
    requires Scoped(roots) && i < |roots| && k < |roots| && l < |roots| && a != Target && b != Target
    requires Named(roots, i, k, a) && Named(roots, i, l, b)
    ensures k == l && a == b
  {
    SamePlaceSameRoot(roots[k], a, roots[l], b);
    assert k == l;
    if a != b {
      OwnPlacesDiffer(roots[k], a, b);
      assert false;
    }
  }

  lemma UseMeans(roots: seq<Root>, i: nat, k: nat)
    requires Scoped(roots) && i < |roots| && k < |roots|
    ensures UseOf(roots, i) == StageOf(k) <==> Named(roots, i, k, Stage)
    ensures UseOf(roots, i) == RetainedOf(k) <==> Named(roots, i, k, Retained)
  {
    forall l, a, b | 0 <= l < |roots| && a != Target && b != Target && Named(roots, i, k, a) && Named(roots, i, l, b)
      ensures k == l && a == b
    {
      OneName(roots, i, k, a, l, b);
    }
  }

  lemma UsesAreProper(roots: seq<Root>)
    requires Scoped(roots)
    ensures Proper(UsesOf(roots))
  {
    forall i, j | 0 <= i < |roots| && 0 <= j < |roots| ensures NamesDiffer(UsesOf(roots), i, j) {
      UseMeans(roots, i, i);
      if UseOf(roots, i) != Plain && UseOf(roots, i) == UseOf(roots, j) && i != j {
        UseMeans(roots, i, UseOf(roots, i).owner);
        UseMeans(roots, j, UseOf(roots, i).owner);
        assert false;
      }
    }
  }

  function SlotOf(fs: Tree, root: Root): Slot {
    Slot(Sub(fs, Place(root, Target)), Sub(fs, Place(root, Stage)), Sub(fs, Place(root, Retained)))
  }

  function RowOf(fs: Tree, roots: seq<Root>): (row: Row)
    ensures |row| == |roots| && forall i :: 0 <= i < |roots| ==> row[i] == SlotOf(fs, roots[i])
  {
    seq(|roots|, i requires 0 <= i < |roots| => SlotOf(fs, roots[i]))
  }

  lemma SameNameSameSlot(fs: Tree, roots: seq<Root>, i: nat, j: nat)
    requires Scoped(roots) && i < |roots| && j < |roots|
    ensures Agree(UsesOf(roots), RowOf(fs, roots), i, j)
  {
    UseMeans(roots, i, j);
    OwnPlace(roots[i]);
    assert RowOf(fs, roots)[i] == SlotOf(fs, roots[i]) && RowOf(fs, roots)[j] == SlotOf(fs, roots[j]);
  }

  lemma RowsAreCoherent(fs: Tree, roots: seq<Root>)
    requires Scoped(roots)
    ensures Coherent(UsesOf(roots), RowOf(fs, roots))
  {
    forall i, j | 0 <= i < |roots| && 0 <= j < |roots| && i != j ensures Agree(UsesOf(roots), RowOf(fs, roots), i, j) {
      SameNameSameSlot(fs, roots, i, j);
    }
  }

  // ----- What one swap does to every place -----

  /** A rename of a root's place, seen from a place of another root. */
  lemma RenameSeen(fs: Tree, roots: seq<Root>, k: nat, a: Role, b: Role, i: nat, c: Role)
    requires Flat(roots) && k < |roots| && i < |roots| && i != k && a != b
    ensures var gs := Renamed(fs, Place(roots[k], a), Place(roots[k], b));
      Sub(gs, Place(roots[i], c)) ==
        if Place(roots[i], c) == Place(roots[k], a) then map[]
        else if Place(roots[i], c) == Place(roots[k], b) then Sub(fs, Place(roots[k], a))
        else Sub(fs, Place(roots[i], c))
  {
    OwnPlacesDiffer(roots[k], a, b);
    OwnPlacesDiffer(roots[k], b, a);
    RenameMoves(fs, Place(roots[k], a), Place(roots[k], b));
    PlacesMeetOnlyAtRoots(roots, i, c, k, a);
    PlacesMeetOnlyAtRoots(roots, i, c, k, b);
    if Place(roots[i], c) != Place(roots[k], a) && Place(roots[i], c) != Place(roots[k], b) {
      RenameElsewhere(fs, Place(roots[k], a), Place(roots[k], b), Place(roots[i], c));
    }
  }

  function Half(fs: Tree, root: Root): Tree {
    Renamed(fs, Place(root, Target), Place(root, Retained))
  }

  lemma OwnSlotAfterSwap(fs: Tree, root: Root)
    requires root.path != []
    ensures SlotOf(Swapped(fs, root), root) == Slot(SlotOf(fs, root).stage, map[], SlotOf(fs, root).target)
    ensures Sub(Half(fs, root), Place(root, Stage)) == SlotOf(fs, root).stage
    ensures Sub(Half(fs, root), Place(root, Target)) == map[]
  {
    SwapMoves(fs, root);
    forall a, b | a != b ensures Disjoint(Place(root, a), Place(root, b)) {
      OwnPlacesDiffer(root, a, b);
      OwnPlacesDiffer(root, b, a);
    }
    RenameMoves(fs, Place(root, Target), Place(root, Retained));
    RenameElsewhere(fs, Place(root, Target), Place(root, Retained), Place(root, Stage));
    RenameMoves(Half(fs, root), Place(root, Stage), Place(root, Target));
  }

  /** A swap, seen from a place of another root. */
  lemma SwapSeen(fs: Tree, roots: seq<Root>, k: nat, i: nat, c: Role)
    requires Flat(roots) && k < |roots| && i < |roots| && i != k
    ensures Sub(Swapped(fs, roots[k]), Place(roots[i], c)) ==
      if Place(roots[i], c) == Place(roots[k], Target) then SlotOf(fs, roots[k]).stage
      else if Place(roots[i], c) == Place(roots[k], Stage) then map[]
      else if Place(roots[i], c) == Place(roots[k], Retained) then SlotOf(fs, roots[k]).target
      else Sub(fs, Place(roots[i], c))
  {
    RenameSeen(fs, roots, k, Target, Retained, i, c);
    RenameSeen(Half(fs, roots[k]), roots, k, Stage, Target, i, c);
    OwnSlotAfterSwap(fs, roots[k]);
    OwnPlacesDiffer(roots[k], Target, Stage);
    OwnPlacesDiffer(roots[k], Target, Retained);
    OwnPlacesDiffer(roots[k], Stage, Retained);
  }

  lemma SlotAfterSwap(fs: Tree, roots: seq<Root>, k: nat, i: nat)
    requires Flat(roots) && k < |roots| && i < |roots|
    ensures SlotOf(Swapped(fs, roots[k]), roots[i]) == SwapSlot(UsesOf(roots), RowOf(fs, roots), k, i)
  {
    if i == k {
      OwnSlotAfterSwap(fs, roots[k]);
    } else {
      SwapSeen(fs, roots, k, i, Target);
      SwapSeen(fs, roots, k, i, Stage);
      SwapSeen(fs, roots, k, i, Retained);
      UseMeans(roots, i, k);
      UseMeans(roots, k, i);
      OwnPlace(roots[i]);
      OwnPlace(roots[k]);
      PlacesMeetOnlyAtRoots(roots, i, Target, k, Target);
      forall a, b | a != Target && b != Target ensures Place(roots[i], a) != Place(roots[k], b) {
        PlacesMeetOnlyAtRoots(roots, i, a, k, b);
      }
    }
  }

  /** A swap on the disk is a swap of the table. */
  lemma RowAfterSwap(fs: Tree, roots: seq<Root>, k: nat)
    requires Flat(roots) && k < |roots|
    ensures RowOf(Swapped(fs, roots[k]), roots) == Swap(UsesOf(roots), RowOf(fs, roots), k)
  {
    forall i | 0 <= i < |roots|
      ensures SlotOf(Swapped(fs, roots[k]), roots[i]) == SwapSlot(UsesOf(roots), RowOf(fs, roots), k, i)
    {
      SlotAfterSwap(fs, roots, k, i);
    }
  }

  predicate CanRename(fs: Tree, p: Path, q: Path) {
    p in fs && !Occupied(fs, q)
  }

  lemma CanRenameMeans(fs: Tree, p: Path, q: Path)
    ensures CanRename(fs, p, q) <==> [] in Sub(fs, p) && Sub(fs, q) == map[]
  {
    assert p + [] == p;
    VacantIsEmpty(fs, q);
  }

  /** Both renames of a root are possible exactly when the table says so. */
  lemma CanSwapMeans(fs: Tree, roots: seq<Root>, k: nat)
    requires k < |roots| && roots[k].path != []
    ensures CanSwap(RowOf(fs, roots), k) <==>
      && CanRename(fs, Place(roots[k], Target), Place(roots[k], Retained))
      && CanRename(Half(fs, roots[k]), Place(roots[k], Stage), Place(roots[k], Target))
  {
    CanRenameMeans(fs, Place(roots[k], Target), Place(roots[k], Retained));
    CanRenameMeans(Half(fs, roots[k]), Place(roots[k], Stage), Place(roots[k], Target));
    OwnSlotAfterSwap(fs, roots[k]);
  }

  // ----- Staging -----

  /** Root i when the first k stages are complete: its own stage is, and so is that of which it has the name. */
  ghost function StagedSlot(uses: seq<Use>, row: Row, m: Manifest, k: nat, i: nat): Slot
    requires Recorded(m) && |uses| == |row| == |m.roots| && k <= |row| && i < |row|
  {
    Slot(
      if uses[i].StageOf? && uses[i].owner < k then RecordOf(m, uses[i].owner) else row[i].target,
      if i < k then RecordOf(m, i) else row[i].stage,
      row[i].retained)
  }

  ghost function StagedRow(uses: seq<Use>, row: Row, m: Manifest, k: nat): (staged: Row)
    requires Recorded(m) && |uses| == |row| == |m.roots| && k <= |row|
    ensures |staged| == |row| && forall i :: 0 <= i < |row| ==> staged[i] == StagedSlot(uses, row, m, k, i)
  {
    seq(|row|, i requires 0 <= i < |row| => StagedSlot(uses, row, m, k, i))
  }

  lemma SlotAfterStaging(fs: Tree, roots: seq<Root>, k: nat, record: Tree, i: nat)
    requires Flat(roots) && k < |roots| && i < |roots|
    ensures SlotOf(Overlay(fs, Place(roots[k], Stage), record), roots[i]) ==
      Slot(if UseOf(roots, i) == StageOf(k) then record else SlotOf(fs, roots[i]).target,
           if i == k then record else SlotOf(fs, roots[i]).stage,
           SlotOf(fs, roots[i]).retained)
  {
    var p := Place(roots[k], Stage);
    OverlayHere(fs, p, record);
    UseMeans(roots, i, k);
    OwnPlace(roots[i]);
    if i == k {
      PlaceAwayFromStage(roots[k], Target);
      PlaceAwayFromStage(roots[k], Retained);
      OverlayElsewhere(fs, p, record, Place(roots[i], Target));
      OverlayElsewhere(fs, p, record, Place(roots[i], Retained));
    } else {
      PlacesMeetOnlyAtRoots(roots, k, Stage, i, Target);
      PlacesMeetOnlyAtRoots(roots, k, Stage, i, Stage);
      PlacesMeetOnlyAtRoots(roots, k, Stage, i, Retained);
      OverlayElsewhere(fs, p, record, Place(roots[i], Stage));
      OverlayElsewhere(fs, p, record, Place(roots[i], Retained));
      if Place(roots[i], Target) != p {
        OverlayElsewhere(fs, p, record, Place(roots[i], Target));
      }
    }
  }

  lemma PlaceAwayFromStage(root: Root, a: Role)
    requires root.path != [] && a != Stage
    ensures Disjoint(Place(root, Stage), Place(root, a))
  {
    OwnPlacesDiffer(root, a, Stage);
    OwnPlacesDiffer(root, Stage, a);
  }

  /** Completing one more stage completes one more column of the table. */
  lemma RowAfterStaging(start: Row, fs: Tree, m: Manifest, k: nat)
    requires Recorded(m) && Flat(m.roots) && k < |m.roots| == |start|
    requires RowOf(fs, m.roots) == StagedRow(UsesOf(m.roots), start, m, k)
    ensures RowOf(Overlay(fs, Place(m.roots[k], Stage), RecordOf(m, k)), m.roots)
         == StagedRow(UsesOf(m.roots), start, m, k + 1)
  {
    var gs := Overlay(fs, Place(m.roots[k], Stage), RecordOf(m, k));
    forall i | 0 <= i < |m.roots| ensures SlotOf(gs, m.roots[i]) == StagedSlot(UsesOf(m.roots), start, m, k + 1, i) {
      SlotAfterStaging(fs, m.roots, k, RecordOf(m, k), i);
      assert RowOf(fs, m.roots)[i] == StagedSlot(UsesOf(m.roots), start, m, k, i);
    }
  }

  // ----- The promises -----

  /** The table of the disk when all stages are complete. */
  ghost function StagedTable(start: Tree, m: Manifest): (row: Row)
    requires Recorded(m)
    ensures |row| == |m.roots|
  {
    StagedRow(UsesOf(m.roots), RowOf(start, m.roots), m, |m.roots|)
  }

  /** From `start` to `end` all stages were completed and all roots swapped. */
  ghost predicate Completed(start: Tree, end: Tree, m: Manifest)
    requires Recorded(m)
  {
    && Runs(UsesOf(m.roots), StagedTable(start, m), |m.roots|)
    && RowOf(end, m.roots) == After(UsesOf(m.roots), StagedTable(start, m), |m.roots|)
  }

  /** Every root is as recorded. */
  ghost predicate AllInstalled(end: Tree, m: Manifest)
    requires Recorded(m)
  {
    forall i :: 0 <= i < |m.roots| ==> Sub(end, m.roots[i].path) == RecordOf(m, i)
  }

  /** No root is named like the stage of a root behind it. */
  predicate NoRootIsALaterStage(roots: seq<Root>) {
    forall i, j | 0 <= j < i < |roots| :: roots[j].path != Place(roots[i], Stage)
  }

  lemma ReuseMeans(roots: seq<Root>)
    requires Scoped(roots)
    ensures NoStageReused(UsesOf(roots)) <==> NoRootIsALaterStage(roots)
  {
    forall i, j | 0 <= j < i < |roots|
      ensures UsesOf(roots)[j] == StageOf(i) <==> roots[j].path == Place(roots[i], Stage)
    {
      UseMeans(roots, j, i);
    }
  }

  /** Completing the stages keeps a table coherent, as a stage and a root of the same name are completed together. */
  lemma StagingKeepsCoherence(uses: seq<Use>, row: Row, m: Manifest)
    requires Recorded(m) && |uses| == |row| == |m.roots| && Coherent(uses, row)
    ensures Coherent(uses, StagedRow(uses, row, m, |row|))
  {
    var staged := StagedRow(uses, row, m, |row|);
    forall i, j | 0 <= i < |row| && 0 <= j < |row| && i != j ensures Agree(uses, staged, i, j) {
      assert Agree(uses, row, i, j);
    }
  }

  lemma StagedTableIsCoherent(start: Tree, m: Manifest)
    requires Recorded(m) && Clear(start, m.roots)
    ensures Coherent(UsesOf(m.roots), StagedTable(start, m)) && Proper(UsesOf(m.roots))
    ensures forall i :: 0 <= i < |m.roots| ==> StagedTable(start, m)[i].stage == RecordOf(m, i) != map[]
  {
    RowsAreCoherent(start, m.roots);
    UsesAreProper(m.roots);
    StagingKeepsCoherence(UsesOf(m.roots), RowOf(start, m.roots), m);
  }

  /** A completed restore has installed every record if and only if no root is named like the stage of one behind it. */
  lemma InstalledExactlyWhenNoStageIsReused(start: Tree, end: Tree, m: Manifest)
    requires Recorded(m) && Clear(start, m.roots) && Completed(start, end, m)
    ensures AllInstalled(end, m) <==> NoRootIsALaterStage(m.roots)
  {
    StagedTableIsCoherent(start, m);
    StagesAreInstalledExactly(UsesOf(m.roots), StagedTable(start, m));
    ReuseMeans(m.roots);
    forall i | 0 <= i < |m.roots|
      ensures Sub(end, m.roots[i].path) == After(UsesOf(m.roots), StagedTable(start, m), |m.roots|)[i].target
    {
      OwnPlace(m.roots[i]);
      assert RowOf(end, m.roots)[i] == SlotOf(end, m.roots[i]);
    }
  }

  lemma NamedRootIsVacant(start: Tree, roots: seq<Root>, i: nat, k: nat, a: Role)
    requires Clear(start, roots) && i < |roots| && k < |roots| && a != Target && Named(roots, i, k, a)
    ensures !Occupied(start, roots[i].path)
  {
    assert roots[k] in roots;
  }

  /** Existing roots are never named like a stage, so for them both promises hold. */
  lemma ExistingRootsAreNoStages(start: Tree, roots: seq<Root>)
    requires Clear(start, roots) && AllExist(start, roots)
    ensures NoRootIsALaterStage(roots)
  {
    ExistingRootsAreApart(start, roots);
    forall i, j | 0 <= j < i < |roots| ensures roots[j].path != Place(roots[i], Stage) {
      assert !(Place(roots[i], Stage) <= roots[j].path);
    }
  }

  // ----- When a restore can complete -----

  /** Something is at root i in its turn: its own state, the stage of a root behind it or what one before it left. */
  predicate InItsTurn(start: Tree, roots: seq<Root>, i: nat)
    requires i < |roots|
  {
    || roots[i].path in start
    || (exists j | i < j < |roots| :: roots[i].path == Place(roots[j], Stage))
    || (exists j | 0 <= j < i :: roots[i].path == Place(roots[j], Retained))
  }

  predicate AllInTurn(start: Tree, roots: seq<Root>) {
    forall i | 0 <= i < |roots| :: InItsTurn(start, roots, i)
  }

  lemma PlainRootIsThere(start: Tree, m: Manifest, i: nat)
    requires Recorded(m) && Scoped(m.roots) && i < |m.roots| && UseOf(m.roots, i) == Plain
    ensures [] in StagedTable(start, m)[i].target <==> m.roots[i].path in start
    ensures InItsTurn(start, m.roots, i) <==> m.roots[i].path in start
  {
    OwnPlace(m.roots[i]);
    assert m.roots[i].path + [] == m.roots[i].path;
    assert StagedTable(start, m)[i].target == Sub(start, m.roots[i].path);
    forall j, a | 0 <= j < |m.roots| && j != i && a != Target ensures m.roots[i].path != Place(m.roots[j], a) {
      UseMeans(m.roots, i, j);
    }
  }

  lemma NamedRootInTurn(start: Tree, roots: seq<Root>, i: nat, k: nat, a: Role)
    requires Clear(start, roots) && i < |roots| && k < |roots| && a != Target && Named(roots, i, k, a)
    ensures InItsTurn(start, roots, i) <==> if a == Stage then i < k else k < i
  {
    NamedRootIsVacant(start, roots, i, k, a);
    assert roots[i].path !in start;
    forall j, b | 0 <= j < |roots| && j != i && b != Target && roots[i].path == Place(roots[j], b)
      ensures j == k && b == a
    {
      OneName(roots, i, k, a, j, b);
    }
  }

  lemma TimelyMeans(start: Tree, m: Manifest, i: nat)
    requires Recorded(m) && Clear(start, m.roots) && i < |m.roots|
    ensures Timely(UsesOf(m.roots), StagedTable(start, m), i) <==> InItsTurn(start, m.roots, i)
  {
    var use := UseOf(m.roots, i);
    if use == Plain {
      PlainRootIsThere(start, m, i);
    } else {
      UseMeans(m.roots, i, use.owner);
      NamedRootInTurn(start, m.roots, i, use.owner, if use.StageOf? then Stage else Retained);
    }
  }

  lemma StagedTableIsFresh(start: Tree, m: Manifest)
    requires Recorded(m) && Clear(start, m.roots)
    ensures Fresh(StagedTable(start, m)) && Owned(UsesOf(m.roots))
  {
    forall i | 0 <= i < |m.roots|
      ensures [] in StagedTable(start, m)[i].stage && StagedTable(start, m)[i].retained == map[]
    {
      assert m.roots[i] in m.roots;
      VacantIsEmpty(start, Place(m.roots[i], Retained));
      assert RowOf(start, m.roots)[i] == SlotOf(start, m.roots[i]);
    }
  }

  /** When every stage is complete, all swaps are possible if and only if every root is there in its turn. */
  lemma RunsExactlyWhenAllInTurn(start: Tree, m: Manifest)
    requires Recorded(m) && Clear(start, m.roots)
    ensures Runs(UsesOf(m.roots), StagedTable(start, m), |m.roots|) <==> AllInTurn(start, m.roots)
  {
    StagedTableIsCoherent(start, m);
    StagedTableIsFresh(start, m);
    RunsExactlyWhenTimely(UsesOf(m.roots), StagedTable(start, m));
    forall i | 0 <= i < |m.roots|
      ensures Timely(UsesOf(m.roots), StagedTable(start, m), i) <==> InItsTurn(start, m.roots, i)
    {
      TimelyMeans(start, m, i);
    }
  }
}
