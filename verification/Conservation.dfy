/**
 Old states during a restore. Whatever the names of the roots, what was at a root
 is never lost: in every state it is at the root or under the retained name of
 the root or of one that took that name. When it is at its own names is exactly
 known, and can be seen from the disk.
 */
module Conservation {
  import opened Filesystem
  import opened Recovery
  import opened Places
  import opened Slots
  import opened Outcome
  import opened Trace

  // ----- What is promised of each state -----

  /** The old state of a root is at the root or under its retained name. */
  predicate Findable(start: Tree, fs: Tree, root: Root) {
    var was := SlotOf(start, root).target;
    SlotOf(fs, root).target == was || SlotOf(fs, root).retained == was
  }

  /** Nothing is under the retained name of any root that took the name of root i, directly or through others. */
  ghost predicate Undisturbed(uses: seq<Use>, fs: Tree, roots: seq<Root>, i: nat)
    requires |uses| == |roots|
  {
    forall r :: 0 <= r < |roots| && Takes(uses, r, i) ==> SlotOf(fs, roots[r]).retained == map[]
  }

  /** A state is at root i, or under the retained name of it or of a root that took that name. */
  ghost predicate Somewhere(uses: seq<Use>, fs: Tree, roots: seq<Root>, i: nat, was: Tree)
    requires |uses| == |roots| && i < |roots|
  {
    || SlotOf(fs, roots[i]).target == was
    || exists r :: 0 <= r < |roots| && (r == i || Takes(uses, r, i)) && SlotOf(fs, roots[r]).retained == was
  }

  ghost predicate NoRecordIs(m: Manifest, was: Tree)
    requires Recorded(m)
  {
    forall r :: 0 <= r < |m.roots| ==> RecordOf(m, r) != was
  }

  /** The old state of root i is somewhere, and at its own names exactly while these are undisturbed. */
  ghost predicate Accounted(uses: seq<Use>, start: Tree, fs: Tree, m: Manifest, i: nat)
    requires Recorded(m) && |uses| == |m.roots| && i < |m.roots|
  {
    var roots, was := m.roots, SlotOf(start, m.roots[i]).target;
    && Somewhere(uses, fs, roots, i, was)
    && (Undisturbed(uses, fs, roots, i) ==> Findable(start, fs, roots[i]))
    && (NoRecordIs(m, was) && !Undisturbed(uses, fs, roots, i) ==> !Findable(start, fs, roots[i]))
  }

  /** So it is for every root that was there. */
  ghost predicate AllAccounted(start: Tree, fs: Tree, m: Manifest)
    requires Recorded(m)
  {
    forall i :: 0 <= i < |m.roots| && Occupied(start, m.roots[i].path) ==>
      Accounted(UsesOf(m.roots), start, fs, m, i)
  }

  // ----- From the table to the disk -----

  lemma ExistingRootBegins(start: Tree, m: Manifest, i: nat)
    requires Recorded(m) && Clear(start, m.roots) && i < |m.roots| && Occupied(start, m.roots[i].path)
    ensures Beginning(UsesOf(m.roots), StagedTable(start, m), i)
    ensures StagedTable(start, m)[i].target == SlotOf(start, m.roots[i]).target
  {
    var roots, use := m.roots, UseOf(m.roots, i);
    if use != Plain {
      UseMeans(roots, i, use.owner);
      NamedRootIsVacant(start, roots, i, use.owner, if use.StageOf? then Stage else Retained);
    }
    StagedTableIsCoherent(start, m);
    StagedTableIsFresh(start, m);
    VacantIsEmpty(start, roots[i].path);
    OwnPlace(roots[i]);
  }

  lemma CalmMeans(uses: seq<Use>, now: Row, fs: Tree, roots: seq<Root>, i: nat)
    requires |uses| == |roots| && i < |roots| && now == RowOf(fs, roots)
    ensures Calm(uses, now, i) <==> Undisturbed(uses, fs, roots, i)
  {
  }

  lemma LocatedMeans(uses: seq<Use>, now: Row, fs: Tree, roots: seq<Root>, i: nat, was: Tree)
    requires |uses| == |roots| && i < |roots| && now == RowOf(fs, roots) && Located(uses, now, i, was)
    ensures Somewhere(uses, fs, roots, i, was)
  {
  }

  lemma AtItsNamesMeans(now: Row, start: Tree, fs: Tree, roots: seq<Root>, i: nat)
    requires i < |roots| && now == RowOf(fs, roots)
    ensures AtItsNames(now, i, SlotOf(start, roots[i]).target) <==> Findable(start, fs, roots[i])
  {
  }

  lemma NoRecordMeans(table: Row, m: Manifest, was: Tree)
    requires Recorded(m) && |table| == |m.roots|
    requires forall r :: 0 <= r < |m.roots| ==> table[r].stage == RecordOf(m, r)
    ensures NoRecord(table, was) <==> NoRecordIs(m, was)
  {
  }

  lemma ShownIsAccounted(uses: seq<Use>, table: Row, now: Row, start: Tree, fs: Tree, m: Manifest, i: nat)
    requires Recorded(m) && |uses| == |table| == |m.roots| && i < |m.roots|
    requires now == RowOf(fs, m.roots) && Traced(uses, table, now, i)
    requires table[i].target == SlotOf(start, m.roots[i]).target
    requires NoRecord(table, table[i].target) <==> NoRecordIs(m, table[i].target)
    ensures Accounted(uses, start, fs, m, i)
  {
    CalmMeans(uses, now, fs, m.roots, i);
    LocatedMeans(uses, now, fs, m.roots, i, table[i].target);
    AtItsNamesMeans(now, start, fs, m.roots, i);
  }

  lemma TracedMeans(start: Tree, fs: Tree, m: Manifest, i: nat)
    requires Recorded(m) && Clear(start, m.roots) && i < |m.roots| && Occupied(start, m.roots[i].path)
    requires Traced(UsesOf(m.roots), StagedTable(start, m), RowOf(fs, m.roots), i)
    ensures Accounted(UsesOf(m.roots), start, fs, m, i)
  {
    ExistingRootBegins(start, m, i);
    StagedTableIsCoherent(start, m);
    NoRecordMeans(StagedTable(start, m), m, StagedTable(start, m)[i].target);
    ShownIsAccounted(UsesOf(m.roots), StagedTable(start, m), RowOf(fs, m.roots), start, fs, m, i);
  }

  /** While no retained name is in use and a root is as it was, it is accounted for. */
  lemma UntouchedIsAccounted(start: Tree, fs: Tree, m: Manifest, i: nat)
    requires Recorded(m) && Clear(start, m.roots) && i < |m.roots| && Occupied(start, m.roots[i].path)
    requires SlotOf(fs, m.roots[i]).target == SlotOf(start, m.roots[i]).target
    requires forall r :: 0 <= r < |m.roots| ==> RowOf(fs, m.roots)[r].retained == map[]
    ensures Accounted(UsesOf(m.roots), start, fs, m, i)
  {
    ExistingRootBegins(start, m, i);
    TracedUntouched(UsesOf(m.roots), StagedTable(start, m), RowOf(fs, m.roots), i);
    TracedMeans(start, fs, m, i);
  }

  /** Between two swaps every old state is accounted for. */
  lemma AccountedBetweenSwaps(start: Tree, fs: Tree, m: Manifest, k: nat)
    requires Recorded(m) && Clear(start, m.roots) && k <= |m.roots|
    requires Runs(UsesOf(m.roots), StagedTable(start, m), k)
    requires RowOf(fs, m.roots) == After(UsesOf(m.roots), StagedTable(start, m), k)
    ensures AllAccounted(start, fs, m)
  {
    forall i | 0 <= i < |m.roots| && Occupied(start, m.roots[i].path)
      ensures Accounted(UsesOf(m.roots), start, fs, m, i)
    {
      ExistingRootBegins(start, m, i);
      TracedAfter(UsesOf(m.roots), StagedTable(start, m), k, i);
      TracedMeans(start, fs, m, i);
    }
  }

  lemma SlotAfterHalf(fs: Tree, roots: seq<Root>, k: nat, i: nat)
    requires Flat(roots) && k < |roots| && i < |roots|
    ensures SlotOf(Half(fs, roots[k]), roots[i]) == HalfSlot(UsesOf(roots), RowOf(fs, roots), k, i)
  {
    if i == k {
      OwnSlotAfterSwap(fs, roots[k]);
      OwnPlacesDiffer(roots[k], Target, Retained);
      OwnPlacesDiffer(roots[k], Retained, Target);
      RenameMoves(fs, Place(roots[k], Target), Place(roots[k], Retained));
    } else {
      RenameSeen(fs, roots, k, Target, Retained, i, Target);
      RenameSeen(fs, roots, k, Target, Retained, i, Stage);
      RenameSeen(fs, roots, k, Target, Retained, i, Retained);
      UseMeans(roots, i, k);
      UseMeans(roots, k, i);
      OwnPlace(roots[i]);
      OwnPlace(roots[k]);
      PlacesMeetOnlyAtRoots(roots, i, Target, k, Target);
      PlacesMeetOnlyAtRoots(roots, i, Stage, k, Retained);
      PlacesMeetOnlyAtRoots(roots, i, Retained, k, Retained);
    }
  }

  /** In the middle of a swap, whose first rename was possible, they are too. */
  lemma AccountedWithinASwap(start: Tree, fs: Tree, m: Manifest, k: nat)
    requires Recorded(m) && Clear(start, m.roots) && k < |m.roots|
    requires Runs(UsesOf(m.roots), StagedTable(start, m), k)
    requires RowOf(fs, m.roots) == After(UsesOf(m.roots), StagedTable(start, m), k)
    requires CanRename(fs, Place(m.roots[k], Target), Place(m.roots[k], Retained))
    ensures AllAccounted(start, Half(fs, m.roots[k]), m)
  {
    var uses, half := UsesOf(m.roots), RowOf(Half(fs, m.roots[k]), m.roots);
    ClearIsFlat(start, m.roots);
    forall i | 0 <= i < |m.roots| ensures half[i] == HalfSlot(uses, RowOf(fs, m.roots), k, i) {
      SlotAfterHalf(fs, m.roots, k, i);
    }
    CanRenameMeans(fs, Place(m.roots[k], Target), Place(m.roots[k], Retained));
    forall i | 0 <= i < |m.roots| && Occupied(start, m.roots[i].path)
      ensures Accounted(UsesOf(m.roots), start, Half(fs, m.roots[k]), m, i)
    {
      ExistingRootBegins(start, m, i);
      TracedHalf(uses, StagedTable(start, m), half, k, i);
      TracedMeans(start, Half(fs, m.roots[k]), m, i);
    }
  }

  /** A root whose retained name no other root has is at its own names in every accounted state. */
  lemma UntakenRootIsFindable(start: Tree, fs: Tree, m: Manifest, i: nat)
    requires Recorded(m) && Scoped(m.roots) && AllAccounted(start, fs, m)
    requires i < |m.roots| && Occupied(start, m.roots[i].path)
    requires forall j :: 0 <= j < |m.roots| ==> !Named(m.roots, j, i, Retained)
    ensures Findable(start, fs, m.roots[i])
  {
    var uses := UsesOf(m.roots);
    forall r | 0 <= r < |m.roots| ensures !Takes(uses, r, i) {
      if Takes(uses, r, i) {
        var j := FirstFollower(uses, r, i);
        UseMeans(m.roots, j, i);
        assert false;
      }
    }
  }

  // ----- What a completed restore has retained -----

  /** No other root has the retained name of root i, or the record that ends there is the same as the old state. */
  ghost predicate NameKept(start: Tree, m: Manifest, i: nat)
    requires Recorded(m) && i < |m.roots|
  {
    forall j :: 0 <= j < |m.roots| && Named(m.roots, j, i, Retained) ==>
      RecordOf(m, Source(UsesOf(m.roots), j)) == SlotOf(start, m.roots[i]).target
  }

  /** What was at each root that was there is under its retained name. */
  ghost predicate AllRetained(start: Tree, end: Tree, roots: seq<Root>) {
    forall i :: 0 <= i < |roots| && Occupied(start, roots[i].path) ==>
      SlotOf(end, roots[i]).retained == SlotOf(start, roots[i]).target
  }

  lemma NameKeptMeans(uses: seq<Use>, table: Row, start: Tree, m: Manifest, i: nat)
    requires Recorded(m) && Scoped(m.roots) && uses == UsesOf(m.roots) && |table| == |m.roots| && i < |m.roots|
    requires forall r :: 0 <= r < |m.roots| ==> table[r].stage == RecordOf(m, r)
    ensures NameKept(start, m, i) <==> forall j :: 0 <= j < |uses| && uses[j] == RetainedOf(i) ==>
      table[Source(uses, j)].stage == SlotOf(start, m.roots[i]).target
  {
    forall j | 0 <= j < |m.roots| ensures uses[j] == RetainedOf(i) <==> Named(m.roots, j, i, Retained) {
      UseMeans(m.roots, j, i);
    }
  }

  /**
   Root by root: after a completed restore, what was at a root is under its
   retained name if and only if no other root has that name, or the record that
   ends under it happens to be the same.
   */
  lemma RetainedExactlyUnlessTheNameIsTaken(start: Tree, end: Tree, m: Manifest, i: nat)
    requires Recorded(m) && Clear(start, m.roots) && Completed(start, end, m)
    requires i < |m.roots| && Occupied(start, m.roots[i].path)
    ensures SlotOf(end, m.roots[i]).retained == SlotOf(start, m.roots[i]).target <==> NameKept(start, m, i)
  {
    ExistingRootBegins(start, m, i);
    StagedTableIsCoherent(start, m);
    RetainedAtTheEnd(UsesOf(m.roots), StagedTable(start, m), i);
    assert RowOf(end, m.roots)[i] == SlotOf(end, m.roots[i]);
    NameKeptMeans(UsesOf(m.roots), StagedTable(start, m), start, m, i);
  }

  /** When every root exists, no root has the retained name of another. */
  lemma ExistingNamesAreKept(start: Tree, m: Manifest, i: nat)
    requires Recorded(m) && Clear(start, m.roots) && AllExist(start, m.roots) && i < |m.roots|
    ensures NameKept(start, m, i)
  {
    ExistingRootsAreApart(start, m.roots);
    forall j | 0 <= j < |m.roots| ensures !Named(m.roots, j, i, Retained) {
      assert j != i ==> !(Place(m.roots[i], Retained) <= m.roots[j].path);
    }
  }
}
