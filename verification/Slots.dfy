/**
 A restore as a table: for each root, what is at its three names. Names of
 different roots coincide only where a root is named like the stage or the
 retained state of another, so the table says everything about the swaps.
 */
module Slots {
  import opened Filesystem

  /** How the name of a root is used by another root. */
  datatype Use = Plain | StageOf(owner: nat) | RetainedOf(owner: nat)

  /** What is at and below the three names of a root. */
  datatype Slot = Slot(target: Tree, stage: Tree, retained: Tree)

  type Row = seq<Slot>

  /** Swapping root k: its old state goes to its retained name, its stage to its own name. */
  function SwapSlot(uses: seq<Use>, row: Row, k: nat, i: nat): Slot
    requires |row| == |uses| && k < |row| && i < |row|
  {
    if i == k then Slot(row[k].stage, map[], row[k].target) else
      Slot(
        if uses[i] == StageOf(k) then map[] else if uses[i] == RetainedOf(k) then row[k].target else row[i].target,
        if uses[k] == StageOf(i) then row[k].stage else row[i].stage,
        if uses[k] == RetainedOf(i) then row[k].stage else row[i].retained)
  }

  /** The row after the swap of root k; SwapSlot says what is in it, where a proof names it. */
  ghost predicate IsSwap(uses: seq<Use>, row: Row, k: nat, after: Row)
    requires |row| == |uses| && k < |row|
  {
    |after| == |row| &&
    forall i {:trigger SwapSlot(uses, row, k, i)} :: 0 <= i < |row| ==> after[i] == SwapSlot(uses, row, k, i)
  }

  ghost function Swap(uses: seq<Use>, row: Row, k: nat): (after: Row)
    requires |row| == |uses| && k < |row|
    ensures IsSwap(uses, row, k, after)
  {
    assert IsSwap(uses, row, k, seq(|row|, i requires 0 <= i < |row| => SwapSlot(uses, row, k, i)));
    var after: Row :| IsSwap(uses, row, k, after);
    after
  }

  /** Both renames of root k are possible. */
  predicate CanSwap(row: Row, k: nat)
    requires k < |row|
  {
    [] in row[k].target && [] in row[k].stage && row[k].retained == map[]
  }

  ghost function After(uses: seq<Use>, row: Row, k: nat): (after: Row)
    requires |row| == |uses| && k <= |row|
    ensures |after| == |row|
  {
    if k == 0 then row else Swap(uses, After(uses, row, k - 1), k - 1)
  }

  /** The first k swaps are possible. */
  ghost predicate Runs(uses: seq<Use>, row: Row, k: nat)
    requires |row| == |uses| && k <= |row|
  {
    forall j | 0 <= j < k :: CanSwap(After(uses, row, j), j)
  }

  /** If root i has the name of another root's stage or retained state, both show the same. */
  predicate Agree(uses: seq<Use>, row: Row, i: nat, j: nat)
    requires |row| == |uses| && i < |row| && j < |row|
  {
    && (uses[i] == StageOf(j) ==> row[i].target == row[j].stage)
    && (uses[i] == RetainedOf(j) ==> row[i].target == row[j].retained)
  }

  /** Two names that coincide show the same. */
  predicate Coherent(uses: seq<Use>, row: Row)
    requires |row| == |uses|
  {
    forall i, j | 0 <= i < |row| && 0 <= j < |row| && i != j :: Agree(uses, row, i, j)
  }

  /** The stage of a root is not the name of one before it. */
  predicate NoStageReused(uses: seq<Use>) {
    forall i, j | 0 <= j < i < |uses| :: uses[j] != StageOf(i)
  }

  /** The name of root i is not the stage of one behind it. */
  predicate Steady(uses: seq<Use>, i: nat)
    requires i < |uses|
  {
    forall l | i < l < |uses| :: uses[i] != StageOf(l)
  }

  /** Two roots do not have one and the same name, nor a root that of its own stage or retained state. */
  predicate NamesDiffer(uses: seq<Use>, i: nat, j: nat)
    requires i < |uses| && j < |uses|
  {
    if i == j then uses[i] != StageOf(i) && uses[i] != RetainedOf(i) else uses[i] == Plain || uses[i] != uses[j]
  }

  predicate Proper(uses: seq<Use>) {
    forall i, j | 0 <= i < |uses| && 0 <= j < |uses| :: NamesDiffer(uses, i, j)
  }

  lemma CoherentSwap(uses: seq<Use>, row: Row, k: nat)
    requires |row| == |uses| && k < |row| && Coherent(uses, row) && CanSwap(row, k)
    requires Proper(uses)
    ensures Coherent(uses, Swap(uses, row, k))
  {
    var after := Swap(uses, row, k);
    forall i, j | 0 <= i < |row| && 0 <= j < |row| && i != j ensures Agree(uses, after, i, j) {
      assert NamesDiffer(uses, i, i) && NamesDiffer(uses, j, j) && NamesDiffer(uses, k, k);
      assert NamesDiffer(uses, i, k) && NamesDiffer(uses, k, i);
      assert Agree(uses, row, i, j) && Agree(uses, row, i, k) && Agree(uses, row, k, j);
      assert after[i] == SwapSlot(uses, row, k, i) && after[j] == SwapSlot(uses, row, k, j);
    }
  }

  lemma {:induction false} CoherentAfter(uses: seq<Use>, row: Row, k: nat)
    requires |row| == |uses| && k <= |row| && Coherent(uses, row) && Runs(uses, row, k)
    requires Proper(uses)
    ensures Coherent(uses, After(uses, row, k))
  {
    if k > 0 {
      CoherentAfter(uses, row, k - 1);
      var before := After(uses, row, k - 1);
      CoherentSwap(uses, before, k - 1);
      assert After(uses, row, k) == Swap(uses, before, k - 1);
    }
  }

  lemma NextSwap(uses: seq<Use>, row: Row, n: nat, k: nat, now: Row)
    requires |row| == |uses| && k < n <= |row| && Runs(uses, row, n) && now == After(uses, row, k)
    ensures CanSwap(now, k)
  {
  }

  /** A run that can go on does. */
  lemma RunsOn(uses: seq<Use>, row: Row, k: nat, now: Row)
    requires |row| == |uses| && k < |row| && Runs(uses, row, k) && now == After(uses, row, k) && CanSwap(now, k)
    ensures Runs(uses, row, k + 1) && After(uses, row, k + 1) == Swap(uses, now, k)
  {
  }

  /** One turn of the run: the row before it is coherent and its swap possible. */
  lemma ATurn(uses: seq<Use>, row: Row, k: nat) returns (before: Row, after: Row)
    requires |row| == |uses| && 0 < k <= |row| && Runs(uses, row, k) && Coherent(uses, row) && Proper(uses)
    ensures before == After(uses, row, k - 1) && after == After(uses, row, k) == Swap(uses, before, k - 1)
    ensures |before| == |after| == |uses| && Coherent(uses, before) && CanSwap(before, k - 1)
  {
    before := After(uses, row, k - 1);
    NextSwap(uses, row, k, k - 1, before);
    CoherentAfter(uses, row, k - 1);
    after := Swap(uses, before, k - 1);
  }

  // ----- Installation -----

  lemma SteadySwap(uses: seq<Use>, row: Row, k: nat, i: nat)
    requires |row| == |uses| && i < k < |row| && Coherent(uses, row) && CanSwap(row, k) && uses[i] != StageOf(k)
    requires row[i].target != map[] && row[i].stage == map[]
    ensures Swap(uses, row, k)[i].target == row[i].target && Swap(uses, row, k)[i].stage == map[]
  {
    assert Agree(uses, row, i, k) && Agree(uses, row, k, i);
    assert Swap(uses, row, k)[i] == SwapSlot(uses, row, k, i);
  }

  /** A replaced root whose name is no later stage stays there, and its stage stays empty. */
  lemma {:induction false} SteadyRootsStay(uses: seq<Use>, row: Row, k: nat, i: nat)
    requires |row| == |uses| && i < k <= |row| && Runs(uses, row, k) && Coherent(uses, row) && Proper(uses)
    requires Steady(uses, i)
    ensures After(uses, row, k)[i].target == After(uses, row, i)[i].stage != map[]
    ensures After(uses, row, k)[i].stage == map[]
  {
    var before, after := ATurn(uses, row, k);
    if i < k - 1 {
      SteadyRootsStay(uses, row, k - 1, i);
      SteadySwap(uses, before, k - 1, i);
    } else {
      assert after[i] == SwapSlot(uses, before, i, i);
    }
  }

  /** A stage waits for its turn unless its name is that of an earlier root. */
  lemma {:induction false} StagesWait(uses: seq<Use>, row: Row, k: nat, i: nat)
    requires |row| == |uses| && k <= i < |row| && forall j :: 0 <= j < k ==> uses[j] != StageOf(i)
    ensures After(uses, row, k)[i].stage == row[i].stage
  {
    if k > 0 {
      StagesWait(uses, row, k - 1, i);
      assert After(uses, row, k)[i] == SwapSlot(uses, After(uses, row, k - 1), k - 1, i);
    }
  }

  /** A root whose name is a later stage loses its record, or a root behind it does. */
  lemma {:induction false} ReusedStageLosesARecord(uses: seq<Use>, row: Row, j: nat, i: nat) returns (lost: nat)
    requires |row| == |uses| && j < i < |row| && Runs(uses, row, |row|) && Coherent(uses, row) && Proper(uses)
    requires uses[j] == StageOf(i)
    ensures lost < |row| && After(uses, row, |row|)[lost].target == map[]
    decreases |row| - i
  {
    if Steady(uses, i) {
      SteadyRootsStay(uses, row, |row|, i);
      CoherentAfter(uses, row, |row|);
      assert Agree(uses, After(uses, row, |row|), j, i);
      lost := j;
    } else {
      var l :| i < l < |uses| && uses[i] == StageOf(l);
      lost := ReusedStageLosesARecord(uses, row, i, l);
    }
  }

  /**
   When all swaps are possible, every stage ends at its root if and only if no
   stage has the name of a root before it.
   */
  lemma StagesAreInstalledExactly(uses: seq<Use>, row: Row)
    requires |row| == |uses| && Runs(uses, row, |row|) && Coherent(uses, row) && Proper(uses)
    requires forall i :: 0 <= i < |row| ==> row[i].stage != map[]
    ensures (forall i :: 0 <= i < |row| ==> After(uses, row, |row|)[i].target == row[i].stage) <==> NoStageReused(uses)
  {
    if NoStageReused(uses) {
      forall i | 0 <= i < |row| ensures After(uses, row, |row|)[i].target == row[i].stage {
        StagesWait(uses, row, i, i);
        SteadyRootsStay(uses, row, |row|, i);
      }
    } else {
      var i, j :| 0 <= j < i < |uses| && uses[j] == StageOf(i);
      var lost := ReusedStageLosesARecord(uses, row, j, i);
    }
  }

  // ----- Which tables can be run -----

  /** A root named like a stage comes before its owner, one named like a retained state behind. */
  predicate InOrder(uses: seq<Use>, i: nat)
    requires i < |uses|
  {
    match uses[i]
    case Plain => true
    case StageOf(j) => i < j
    case RetainedOf(j) => j < i
  }

  /** Something is at the name of root i when its turn comes: its own state, a waiting stage or a retained state. */
  predicate Timely(uses: seq<Use>, row: Row, i: nat)
    requires |row| == |uses| && i < |row|
  {
    InOrder(uses, i) && (uses[i] == Plain ==> [] in row[i].target)
  }

  /** All stages are complete and nothing is retained yet. */
  predicate Fresh(row: Row) {
    forall i | 0 <= i < |row| :: [] in row[i].stage && row[i].retained == map[]
  }

  /** Root i as it should be before turn k. */
  predicate Waiting(uses: seq<Use>, row: Row, k: nat, i: nat)
    requires |row| == |uses| && i < |row|
  {
    if i < k then [] in row[i].retained else
      [] in row[i].stage && row[i].retained == map[] && (uses[i] == Plain ==> [] in row[i].target)
  }

  predicate AllWaiting(uses: seq<Use>, row: Row, k: nat)
    requires |row| == |uses|
  {
    forall i | 0 <= i < |row| :: Waiting(uses, row, k, i)
  }

  /** The owners of names lie inside the table. */
  predicate Owned(uses: seq<Use>) {
    forall i | 0 <= i < |uses| :: uses[i] != Plain ==> uses[i].owner < |uses|
  }

  lemma WaitingRootCanSwap(uses: seq<Use>, row: Row, k: nat)
    requires |row| == |uses| && k < |row| && Coherent(uses, row) && AllWaiting(uses, row, k)
    requires Proper(uses) && Owned(uses) && InOrder(uses, k)
    ensures CanSwap(row, k)
  {
    assert Waiting(uses, row, k, k);
    if uses[k] != Plain {
      assert Agree(uses, row, k, uses[k].owner) && Waiting(uses, row, k, uses[k].owner);
    }
  }

  lemma SwapKeepsWaiting(uses: seq<Use>, row: Row, k: nat)
    requires |row| == |uses| && k < |row| && AllWaiting(uses, row, k) && CanSwap(row, k) && InOrder(uses, k)
    ensures AllWaiting(uses, Swap(uses, row, k), k + 1)
  {
    var after, next := Swap(uses, row, k), k + 1;
    forall i | 0 <= i < |row| ensures Waiting(uses, after, next, i) {
      assert Waiting(uses, row, k, i) && Waiting(uses, row, k, k);
      assert after[i] == SwapSlot(uses, row, k, i);
    }
  }

  lemma FreshRootsWait(uses: seq<Use>, row: Row)
    requires |row| == |uses| && Fresh(row) && forall i :: 0 <= i < |row| ==> Timely(uses, row, i)
    ensures AllWaiting(uses, row, 0)
  {
    forall i | 0 <= i < |row| ensures Waiting(uses, row, 0, i) {
      assert Timely(uses, row, i);
    }
  }

  /** The table before turn k of a run in which every root is there in time. */
  ghost predicate OnTime(uses: seq<Use>, row: Row, k: nat)
    requires |row| == |uses|
  {
    Coherent(uses, row) && AllWaiting(uses, row, k)
  }

  /** Every name is used in order. */
  ghost predicate Orderly(uses: seq<Use>) {
    Proper(uses) && Owned(uses) && forall i :: 0 <= i < |uses| ==> InOrder(uses, i)
  }

  lemma TimelyTurn(uses: seq<Use>, row: Row, k: nat)
    requires |row| == |uses| && 0 < k <= |row| && OnTime(uses, row, k - 1) && Orderly(uses)
    ensures CanSwap(row, k - 1) && OnTime(uses, Swap(uses, row, k - 1), k)
  {
    WaitingRootCanSwap(uses, row, k - 1);
    SwapKeepsWaiting(uses, row, k - 1);
    CoherentSwap(uses, row, k - 1);
  }

  lemma {:induction false} TimelyTablesRun(uses: seq<Use>, row: Row, k: nat)
    requires |row| == |uses| && k <= |row| && OnTime(uses, row, 0) && Orderly(uses)
    ensures Runs(uses, row, k) && OnTime(uses, After(uses, row, k), k)
  {
    if k > 0 {
      TimelyTablesRun(uses, row, k - 1);
      TimelyTurn(uses, After(uses, row, k - 1), k);
    }
  }

  /** Swapping root j does not touch the name of root i. */
  predicate Foreign(uses: seq<Use>, i: nat, j: nat)
    requires i < |uses|
  {
    j != i && uses[i] != StageOf(j) && uses[i] != RetainedOf(j)
  }

  lemma {:induction false} OtherTurnsLeaveTheTarget(uses: seq<Use>, row: Row, from: nat, k: nat, i: nat)
    requires |row| == |uses| && from <= k <= |row| && i < |row|
    requires forall j :: from <= j < k ==> Foreign(uses, i, j)
    ensures After(uses, row, k)[i].target == After(uses, row, from)[i].target
  {
    if from < k {
      OtherTurnsLeaveTheTarget(uses, row, from, k - 1, i);
      assert Foreign(uses, i, k - 1);
      assert After(uses, row, k)[i] == SwapSlot(uses, After(uses, row, k - 1), k - 1, i);
    }
  }

  lemma StageCollectedTooEarly(uses: seq<Use>, row: Row, i: nat, j: nat)
    requires |row| == |uses| && j < i < |row| && uses[i] == StageOf(j)
    ensures !CanSwap(After(uses, row, i), i)
  {
    OtherTurnsLeaveTheTarget(uses, row, j + 1, i, i);
    assert After(uses, row, j + 1)[i] == SwapSlot(uses, After(uses, row, j), j, i);
  }

  lemma RetainedNameTakenBefore(uses: seq<Use>, row: Row, i: nat, j: nat)
    requires |row| == |uses| && i < j < |row| && uses[i] == RetainedOf(j) && Coherent(uses, row) && Proper(uses)
    requires Runs(uses, row, j)
    ensures !CanSwap(After(uses, row, j), j)
  {
    OtherTurnsLeaveTheTarget(uses, row, i + 1, j, i);
    assert After(uses, row, i + 1)[i] == SwapSlot(uses, After(uses, row, i), i, i);
    NextSwap(uses, row, j, i, After(uses, row, i));
    CoherentAfter(uses, row, j);
    assert Agree(uses, After(uses, row, j), i, j);
  }

  /** A table whose stages are complete can be run if and only if every root is there in its turn. */
  lemma RunsExactlyWhenTimely(uses: seq<Use>, row: Row)
    requires |row| == |uses| && Coherent(uses, row) && Proper(uses) && Owned(uses) && Fresh(row)
    ensures Runs(uses, row, |row|) <==> forall i :: 0 <= i < |row| ==> Timely(uses, row, i)
  {
    if Runs(uses, row, |row|) {
      forall i | 0 <= i < |row| ensures Timely(uses, row, i) {
        NextSwap(uses, row, |row|, i, After(uses, row, i));
        assert NamesDiffer(uses, i, i);
        match uses[i]
        case Plain => OtherTurnsLeaveTheTarget(uses, row, 0, i, i);
        case StageOf(j) =>
          if j < i {
            StageCollectedTooEarly(uses, row, i, j);
          }
        case RetainedOf(j) =>
          if i < j {
            NextSwap(uses, row, |row|, j, After(uses, row, j));
            RetainedNameTakenBefore(uses, row, i, j);
          }
      }
    } else if forall i :: 0 <= i < |row| ==> Timely(uses, row, i) {
      FreshRootsWait(uses, row);
      forall i | 0 <= i < |row| ensures InOrder(uses, i) {
        assert Timely(uses, row, i);
      }
      TimelyTablesRun(uses, row, |row|);
    }
  }
}
