/**
 Where an old state is during a restore, on the table of names. It waits at its
 root, goes to its retained name, and is moved on whenever a root that has that
 name is swapped; it is never overwritten.
 */
module Trace {
  import opened Filesystem
  import opened Slots

  // ----- What ends at a root -----

  /** The root whose record arrives at root j: its own, or that of a root which had the name of its stage. */
  ghost function Source(uses: seq<Use>, j: nat): (source: nat)
    requires j < |uses|
    ensures source <= j
  {
    if exists l :: 0 <= l < j && uses[l] == StageOf(j) then
      var l :| 0 <= l < j && uses[l] == StageOf(j);
      Source(uses, l)
    else
      j
  }

  /** A stage stays as it is while no root that has its name is swapped. */
  lemma {:induction false} StageStays(uses: seq<Use>, row: Row, from: nat, k: nat, i: nat)
    requires |row| == |uses| && from <= k <= i < |row|
    requires forall b :: from <= b < k ==> uses[b] != StageOf(i)
    ensures After(uses, row, k)[i].stage == After(uses, row, from)[i].stage
  {
    if from < k {
      StageStays(uses, row, from, k - 1, i);
      assert After(uses, row, k)[i] == SwapSlot(uses, After(uses, row, k - 1), k - 1, i);
    }
  }

  lemma {:induction false} StageComesFrom(uses: seq<Use>, row: Row, j: nat)
    requires |row| == |uses| && j < |row| && Proper(uses)
    ensures After(uses, row, j)[j].stage == row[Source(uses, j)].stage
  {
    if exists l :: 0 <= l < j && uses[l] == StageOf(j) {
      var l :| 0 <= l < j && uses[l] == StageOf(j) && Source(uses, j) == Source(uses, l);
      StageComesFrom(uses, row, l);
      assert After(uses, row, l + 1)[j] == SwapSlot(uses, After(uses, row, l), l, j);
      forall b | l < b < j ensures uses[b] != StageOf(j) {
        assert NamesDiffer(uses, l, b);
      }
      StageStays(uses, row, l + 1, j, j);
    } else {
      StageStays(uses, row, 0, j, j);
    }
  }

  /** What is at a replaced root whose name is no later stage. */
  lemma SteadyRootsHold(uses: seq<Use>, row: Row, k: nat, j: nat)
    requires |row| == |uses| && j < k <= |row| && Runs(uses, row, k) && Coherent(uses, row) && Proper(uses)
    requires Steady(uses, j)
    ensures After(uses, row, k)[j].target == row[Source(uses, j)].stage
  {
    SteadyRootsStay(uses, row, k, j);
    StageComesFrom(uses, row, j);
  }

  // ----- Retained names -----

  /** Nothing is under a retained name before the turn of its root. */
  lemma {:induction false} NotYetRetained(uses: seq<Use>, row: Row, k: nat, y: nat)
    requires |row| == |uses| && k <= y < |row| && Runs(uses, row, k) && Coherent(uses, row) && Proper(uses)
    requires row[y].retained == map[]
    ensures After(uses, row, k)[y].retained == map[]
  {
    if k > 0 {
      NotYetRetained(uses, row, k - 1, y);
      var before, after := ATurn(uses, row, k);
      assert after[y] == SwapSlot(uses, before, k - 1, y);
      assert Agree(uses, before, k - 1, y);
    }
  }

  /** A root that has the retained name of another is swapped after it. */
  lemma TakerComesLater(uses: seq<Use>, row: Row, k: nat, b: nat, a: nat)
    requires |row| == |uses| && b < k <= |row| && a < |row| && Runs(uses, row, k) && Coherent(uses, row) && Proper(uses)
    requires uses[b] == RetainedOf(a) && row[a].retained == map[]
    ensures a < b
  {
    NextSwap(uses, row, k, b, After(uses, row, b));
    CoherentAfter(uses, row, b);
    assert NamesDiffer(uses, b, b);
    assert Agree(uses, After(uses, row, b), b, a);
    if b <= a {
      NotYetRetained(uses, row, b, a);
    }
  }

  /** What is under a retained name stays there while no root that has the name is swapped. */
  lemma {:induction false} RetainedStays(uses: seq<Use>, row: Row, from: nat, k: nat, a: nat)
    requires |row| == |uses| && a < from <= k <= |row|
    requires forall b :: from <= b < k ==> uses[b] != RetainedOf(a)
    ensures After(uses, row, k)[a].retained == After(uses, row, from)[a].retained
  {
    if from < k {
      RetainedStays(uses, row, from, k - 1, a);
      assert After(uses, row, k)[a] == SwapSlot(uses, After(uses, row, k - 1), k - 1, a);
    }
  }

  /** Root r has the retained name of root i, or of a root that has it, and so on. */
  predicate Follows(uses: seq<Use>, r: nat, i: nat)
    requires r < |uses|
    decreases r
  {
    uses[r].RetainedOf? && uses[r].owner < r && (uses[r].owner == i || Follows(uses, uses[r].owner, i))
  }

  /** The same, as a name that proofs about all followers can use without unfolding it. */
  predicate Takes(uses: seq<Use>, r: nat, i: nat)
    requires r < |uses|
  {
    Follows(uses, r, i)
  }

  lemma {:induction false} FollowersComeLater(uses: seq<Use>, r: nat, i: nat)
    requires r < |uses| && Follows(uses, r, i)
    ensures i < r
    decreases r
  {
    if uses[r].owner != i {
      FollowersComeLater(uses, uses[r].owner, i);
    }
  }

  lemma {:induction false} FollowersCompose(uses: seq<Use>, r: nat, b: nat, i: nat)
    requires r < |uses| && b < |uses| && Follows(uses, r, b) && Follows(uses, b, i)
    ensures Follows(uses, r, i)
    decreases r
  {
    if uses[r].owner != b {
      FollowersCompose(uses, uses[r].owner, b, i);
    }
  }

  /** A follower has a first one before it, which has the name itself. */
  lemma {:induction false} FirstFollower(uses: seq<Use>, r: nat, i: nat) returns (j: nat)
    requires r < |uses| && Follows(uses, r, i)
    ensures j <= r && uses[j] == RetainedOf(i) && i < j
    decreases r
  {
    if uses[r].owner == i {
      j := r;
    } else {
      j := FirstFollower(uses, uses[r].owner, i);
    }
  }

  // ----- Where the old state is -----

  /** Before turn k: the root under whose retained name the old state of root i is, once root i is swapped. */
  ghost function Holder(uses: seq<Use>, i: nat, k: nat): (p: nat)
    requires i < |uses| && k <= |uses|
    ensures i <= p < |uses| && (i < k ==> p < k)
    decreases |uses| - i
  {
    if exists b :: i < b < k && uses[b] == RetainedOf(i) then
      var b :| i < b < k && uses[b] == RetainedOf(i);
      Holder(uses, b, k)
    else
      i
  }

  lemma {:induction false} HolderFollows(uses: seq<Use>, i: nat, k: nat)
    requires i < |uses| && k <= |uses|
    ensures Holder(uses, i, k) == i || Follows(uses, Holder(uses, i, k), i)
    decreases |uses| - i
  {
    if exists b :: i < b < k && uses[b] == RetainedOf(i) {
      var b :| i < b < k && uses[b] == RetainedOf(i) && Holder(uses, i, k) == Holder(uses, b, k);
      HolderFollows(uses, b, k);
      assert Follows(uses, b, i);
      if Holder(uses, b, k) != b {
        FollowersCompose(uses, Holder(uses, b, k), b, i);
      }
    }
  }

  /** Nothing before turn k has taken the name that the old state is under. */
  lemma {:induction false} HolderIsLast(uses: seq<Use>, i: nat, k: nat, b: nat)
    requires i < |uses| && b < k <= |uses| && Holder(uses, i, k) < b
    ensures uses[b] != RetainedOf(Holder(uses, i, k))
    decreases |uses| - i
  {
    if exists c :: i < c < k && uses[c] == RetainedOf(i) {
      var c :| i < c < k && uses[c] == RetainedOf(i) && Holder(uses, i, k) == Holder(uses, c, k);
      HolderIsLast(uses, c, k, b);
    }
  }

  /** A follower before turn k leads to the same holder. */
  lemma {:induction false} SameHolder(uses: seq<Use>, r: nat, i: nat, k: nat)
    requires r < k <= |uses| && i < |uses| && Follows(uses, r, i) && Proper(uses)
    ensures Holder(uses, i, k) == Holder(uses, r, k)
    decreases r
  {
    var o := uses[r].owner;
    if o != i {
      SameHolder(uses, o, i, k);
    }
    assert uses[r] == RetainedOf(o) && o < r < k;
    var b :| o < b < k && uses[b] == RetainedOf(o) && Holder(uses, o, k) == Holder(uses, b, k);
    assert NamesDiffer(uses, b, r);
  }

  /** The old state of a swapped root is under the retained name of its holder. */
  lemma {:induction false} HolderHolds(uses: seq<Use>, row: Row, k: nat, i: nat)
    requires |row| == |uses| && i < k <= |row| && Runs(uses, row, k) && Coherent(uses, row) && Proper(uses)
    requires forall y :: 0 <= y < |row| ==> row[y].retained == map[]
    ensures After(uses, row, k)[Holder(uses, i, k)].retained == After(uses, row, i)[i].target
    decreases |uses| - i
  {
    assert After(uses, row, i + 1)[i] == SwapSlot(uses, After(uses, row, i), i, i);
    if exists b :: i < b < k && uses[b] == RetainedOf(i) {
      var b :| i < b < k && uses[b] == RetainedOf(i) && Holder(uses, i, k) == Holder(uses, b, k);
      forall c | i < c < b ensures uses[c] != RetainedOf(i) {
        assert NamesDiffer(uses, b, c);
      }
      RetainedStays(uses, row, i + 1, b, i);
      NextSwap(uses, row, k, b, After(uses, row, b));
      CoherentAfter(uses, row, b);
      assert Agree(uses, After(uses, row, b), b, i);
      HolderHolds(uses, row, k, b);
    } else {
      RetainedStays(uses, row, i + 1, k, i);
    }
  }

  // ----- What can be said of every state -----

  /** No root that follows has anything under its retained name. */
  ghost predicate Calm(uses: seq<Use>, now: Row, i: nat)
    requires |now| == |uses|
  {
    forall r :: 0 <= r < |uses| && Takes(uses, r, i) ==> now[r].retained == map[]
  }

  ghost predicate AtItsNames(now: Row, i: nat, was: Tree)
    requires i < |now|
  {
    now[i].target == was || now[i].retained == was
  }

  /** The old state is at the root, or under the retained name of the root or of one that follows. */
  ghost predicate Located(uses: seq<Use>, now: Row, i: nat, was: Tree)
    requires |now| == |uses| && i < |uses|
  {
    now[i].target == was ||
    exists r :: 0 <= r < |uses| && (r == i || Takes(uses, r, i)) && now[r].retained == was
  }

  ghost predicate NoRecord(row: Row, was: Tree) {
    forall r :: 0 <= r < |row| ==> row[r].stage != was
  }

  /** The old state is never lost, and at its own names exactly while no follower has moved it on. */
  ghost predicate Traced(uses: seq<Use>, row: Row, now: Row, i: nat)
    requires |now| == |row| == |uses| && i < |uses|
  {
    var was := row[i].target;
    && Located(uses, now, i, was)
    && (Calm(uses, now, i) ==> AtItsNames(now, i, was))
    && (NoRecord(row, was) && !Calm(uses, now, i) ==> !AtItsNames(now, i, was))
  }

  /** All stages are complete, nothing is retained, and root i was there under its own name. */
  ghost predicate Beginning(uses: seq<Use>, row: Row, i: nat) {
    && |row| == |uses| && i < |row| && Coherent(uses, row) && Proper(uses)
    && uses[i] == Plain && row[i].target != map[]
    && forall y :: 0 <= y < |row| ==> row[y].retained == map[]
  }

  lemma TracedUntouched(uses: seq<Use>, row: Row, now: Row, i: nat)
    requires |now| == |row| == |uses| && i < |uses| && now[i].target == row[i].target && Calm(uses, now, i)
    ensures Traced(uses, row, now, i)
  {
  }

  /** Before its own turn a root of its own name is as it was, and nothing has moved on. */
  lemma TracedBefore(uses: seq<Use>, row: Row, k: nat, i: nat)
    requires Beginning(uses, row, i) && k <= i && Runs(uses, row, k)
    ensures After(uses, row, k)[i].target == row[i].target && Calm(uses, After(uses, row, k), i)
  {
    forall j | 0 <= j < k ensures Foreign(uses, i, j) {
    }
    OtherTurnsLeaveTheTarget(uses, row, 0, k, i);
    forall r | 0 <= r < |uses| && Takes(uses, r, i) ensures After(uses, row, k)[r].retained == map[] {
      FollowersComeLater(uses, r, i);
      NotYetRetained(uses, row, k, r);
    }
  }

  /** Once swapped, the old state is with its holder. */
  lemma HeldAfter(uses: seq<Use>, row: Row, k: nat, i: nat)
    requires Beginning(uses, row, i) && i < k <= |row| && Runs(uses, row, k)
    ensures After(uses, row, k)[Holder(uses, i, k)].retained == row[i].target
  {
    TracedBefore(uses, row, i, i);
    HolderHolds(uses, row, k, i);
  }

  /** Once a follower is swapped, both names of the root show records. */
  lemma RecordsAtItsNames(uses: seq<Use>, row: Row, k: nat, i: nat, r: nat)
    requires Beginning(uses, row, i) && i < k <= |row| && Runs(uses, row, k) && r < k && Follows(uses, r, i)
    ensures exists x :: 0 <= x < |row| && After(uses, row, k)[i].target == row[x].stage
    ensures exists x :: 0 <= x < |row| && After(uses, row, k)[i].retained == row[x].stage
    ensures exists j :: 0 <= j < k && uses[j] == RetainedOf(i)
  {
    var j := FirstFollower(uses, r, i);
    SteadyRootsHold(uses, row, k, i);
    SteadyRootsHold(uses, row, k, j);
    CoherentAfter(uses, row, k);
    assert Agree(uses, After(uses, row, k), j, i);
  }

  /** Between two swaps. */
  lemma TracedAfter(uses: seq<Use>, row: Row, k: nat, i: nat)
    requires Beginning(uses, row, i) && k <= |row| && Runs(uses, row, k)
    ensures Traced(uses, row, After(uses, row, k), i)
  {
    var now := After(uses, row, k);
    if k <= i {
      TracedBefore(uses, row, k, i);
      TracedUntouched(uses, row, now, i);
    } else {
      HeldAfter(uses, row, k, i);
      HolderFollows(uses, i, k);
      if r :| 0 <= r < |uses| && Takes(uses, r, i) && now[r].retained != map[] {
        if k <= r {
          NotYetRetained(uses, row, k, r);
        } else {
          RecordsAtItsNames(uses, row, k, i, r);
        }
      }
    }
  }

  // ----- In the middle of a swap -----

  /** After the first rename of root k: its old state is retained, its name is free. */
  function HalfSlot(uses: seq<Use>, row: Row, k: nat, i: nat): Slot
    requires |row| == |uses| && k < |row| && i < |row|
  {
    if i == k then Slot(map[], row[k].stage, row[k].target) else
      Slot(
        if uses[i] == RetainedOf(k) then row[k].target else row[i].target,
        if uses[k] == StageOf(i) then map[] else row[i].stage,
        if uses[k] == RetainedOf(i) then map[] else row[i].retained)
  }

  ghost predicate IsHalf(uses: seq<Use>, row: Row, k: nat, half: Row)
    requires |row| == |uses| && k < |row|
  {
    |half| == |row| &&
    forall i {:trigger HalfSlot(uses, row, k, i)} :: 0 <= i < |row| ==> half[i] == HalfSlot(uses, row, k, i)
  }

  /** The first rename of root k is possible. */
  predicate CanRetire(row: Row, k: nat)
    requires k < |row|
  {
    [] in row[k].target && row[k].retained == map[]
  }

  lemma HalfBefore(uses: seq<Use>, row: Row, half: Row, k: nat, i: nat)
    requires Beginning(uses, row, i) && k <= i && Runs(uses, row, k)
    requires IsHalf(uses, After(uses, row, k), k, half) && CanRetire(After(uses, row, k), k)
    ensures Calm(uses, half, i)
    ensures (if i == k then half[i].retained else half[i].target) == row[i].target
  {
    var now := After(uses, row, k);
    TracedBefore(uses, row, k, i);
    CoherentAfter(uses, row, k);
    assert half[i] == HalfSlot(uses, now, k, i) && Agree(uses, now, k, i);
    forall r | 0 <= r < |uses| && Takes(uses, r, i) ensures half[r].retained == map[] {
      FollowersComeLater(uses, r, i);
      assert half[r] == HalfSlot(uses, now, k, r);
    }
  }

  /** The old state of a swapped root moves on when its name is the one that is renamed, and stays otherwise. */
  lemma HalfHolds(uses: seq<Use>, row: Row, half: Row, k: nat, i: nat) returns (p: nat)
    requires Beginning(uses, row, i) && i < k < |row| && Runs(uses, row, k)
    requires IsHalf(uses, After(uses, row, k), k, half)
    ensures p < |uses| && (p == i || Follows(uses, p, i)) && half[p].retained == row[i].target
    ensures p == if uses[k] == RetainedOf(Holder(uses, i, k)) then k else Holder(uses, i, k)
  {
    var now, h := After(uses, row, k), Holder(uses, i, k);
    HeldAfter(uses, row, k, i);
    HolderFollows(uses, i, k);
    CoherentAfter(uses, row, k);
    p := if uses[k] == RetainedOf(h) then k else h;
    assert half[p] == HalfSlot(uses, now, k, p);
    assert Agree(uses, now, k, h);
    if p == k && h != i {
      assert Follows(uses, k, h);
      FollowersCompose(uses, k, h, i);
    }
  }

  /** A follower at its turn has the name that the old state is under. */
  lemma NextFollowerTakesTheHolder(uses: seq<Use>, i: nat, k: nat)
    requires i < k < |uses| && Follows(uses, k, i) && Proper(uses)
    ensures uses[k] == RetainedOf(Holder(uses, i, k))
  {
    var o := uses[k].owner;
    forall b | o < b < k ensures uses[b] != RetainedOf(o) {
      assert NamesDiffer(uses, b, k);
    }
    assert Holder(uses, o, k) == o;
    if o != i {
      SameHolder(uses, o, i, k);
    }
  }

  lemma HalfRecords(uses: seq<Use>, row: Row, half: Row, k: nat, i: nat, r: nat)
    requires Beginning(uses, row, i) && i < k < |row| && Runs(uses, row, k) && NoRecord(row, row[i].target)
    requires IsHalf(uses, After(uses, row, k), k, half) && CanRetire(After(uses, row, k), k)
    requires r < |uses| && Follows(uses, r, i) && half[r].retained != map[]
    ensures !AtItsNames(half, i, row[i].target)
  {
    var now := After(uses, row, k);
    assert half[i] == HalfSlot(uses, now, k, i) && half[r] == HalfSlot(uses, now, k, r);
    SteadyRootsHold(uses, row, k, i);
    if r < k {
      RecordsAtItsNames(uses, row, k, i, r);
    } else if r == k {
      NextFollowerTakesTheHolder(uses, i, k);
      if Holder(uses, i, k) != i {
        HolderFollows(uses, i, k);
        RecordsAtItsNames(uses, row, k, i, Holder(uses, i, k));
      }
    } else {
      NotYetRetained(uses, row, k, r);
    }
  }

  /** In the middle of swap k. */
  lemma TracedHalf(uses: seq<Use>, row: Row, half: Row, k: nat, i: nat)
    requires Beginning(uses, row, i) && k < |row| && Runs(uses, row, k)
    requires IsHalf(uses, After(uses, row, k), k, half) && CanRetire(After(uses, row, k), k)
    ensures Traced(uses, row, half, i)
  {
    if k <= i {
      HalfBefore(uses, row, half, k, i);
    } else {
      var p := HalfHolds(uses, row, half, k, i);
      if r :| 0 <= r < |uses| && Takes(uses, r, i) && half[r].retained != map[] {
        if NoRecord(row, row[i].target) {
          HalfRecords(uses, row, half, k, i, r);
        }
      }
    }
  }

  // ----- What a completed run leaves at the names -----

  /** What ends under the retained name of a root that was there: its old state, unless another root has that name. */
  lemma RetainedAtTheEnd(uses: seq<Use>, row: Row, i: nat)
    requires Beginning(uses, row, i) && Runs(uses, row, |row|)
    ensures After(uses, row, |row|)[i].retained == row[i].target <==>
      forall j :: 0 <= j < |uses| && uses[j] == RetainedOf(i) ==> row[Source(uses, j)].stage == row[i].target
  {
    var end := After(uses, row, |row|);
    CoherentAfter(uses, row, |row|);
    HeldAfter(uses, row, |row|, i);
    if j :| 0 <= j < |uses| && uses[j] == RetainedOf(i) {
      TakerComesLater(uses, row, |row|, j, i);
      SteadyRootsHold(uses, row, |row|, j);
      assert Agree(uses, end, j, i);
      forall b | 0 <= b < |uses| && uses[b] == RetainedOf(i) ensures b == j {
        assert NamesDiffer(uses, b, j);
      }
    } else {
      assert Holder(uses, i, |row|) == i;
    }
  }
}
