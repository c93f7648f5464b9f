/**
 The three names that a restore uses for each root, and what keeps them apart.
 Names may coincide only in one way: a root may be named like the stage or the
 retained state of another root.
 */
module Places {
  import opened Wrappers
  import opened Filesystem
  import opened Recovery

  // ----- The three names of a root -----

  /** The root itself, the stage beside it, and the name its old state is retained under. */
  datatype Role = Target | Stage | Retained

  function Suffix(a: Role): string {
    if a == Target then "" else if a == Stage then ".restore-stage" else ".pre-restore"
  }

  function Place(root: Root, a: Role): Path {
    if root.path == [] then [Suffix(a)] else
      var n := |root.path| - 1;
      root.path[..n] + [root.path[n] + Suffix(a)]
  }

  /** Distinct roots stay clear of each other's stages and retained names, which the scope check does not ask for. */
  ghost predicate NamesApart(roots: seq<Root>) {
    forall i, j, a: Role :: 0 <= i < |roots| && 0 <= j < |roots| && i != j && a != Target ==>
      !(Place(roots[i], a) <= roots[j].path)
  }

  lemma SuffixesDiffer(s: string, t: string, a: Role, b: Role)
    requires s + Suffix(a) == t + Suffix(b) && (a == b || (a != Target && b != Target))
    ensures a == b && s == t
  {
    var u, v := s + Suffix(a), t + Suffix(b);
    assert Suffix(Stage)[|Suffix(Stage)| - 2] == 'g' && Suffix(Retained)[|Suffix(Retained)| - 2] == 'r';
    assert a != Target ==> u[|u| - 2] == Suffix(a)[|Suffix(a)| - 2];
    assert b != Target ==> v[|v| - 2] == Suffix(b)[|Suffix(b)| - 2];
    assert a == b;
    assert s == u[..|s|] && t == v[..|t|];
  }

  lemma OwnPlacesDiffer(root: Root, a: Role, b: Role)
    requires root.path != [] && a != b
    ensures !(Place(root, a) <= Place(root, b))
  {
    var n := |root.path| - 1;
    assert Place(root, a)[n] == root.path[n] + Suffix(a) && Place(root, b)[n] == root.path[n] + Suffix(b);
    assert |Suffix(Target)| == 0 && |Suffix(Stage)| == 14 && |Suffix(Retained)| == 12;
    assert |root.path[n] + Suffix(a)| != |root.path[n] + Suffix(b)|;
  }

  lemma OwnPlace(root: Root)
    requires root.path != []
    ensures Place(root, Target) == root.path
  {
    var p, n := root.path, |root.path| - 1;
    assert p == p[..n] + [p[n]] && p[n] + "" == p[n];
  }

  /** The directory of a place is the directory of its root. */
  lemma ShorterPlaceIsAbove(x: Path, root: Root, b: Role)
    requires root.path != [] && x <= Place(root, b) && |x| < |root.path|
    ensures x <= root.path
  {
    assert x == Place(root, b)[..|x|] == root.path[..|x|];
  }

  lemma SamePlaceSameRoot(r: Root, a: Role, s: Root, b: Role)
    requires r.path != [] && s.path != [] && Place(r, a) == Place(s, b) && (a == b || (a != Target && b != Target))
    ensures r.path == s.path
  {
    var n := |r.path| - 1;
    assert |Place(r, a)| == |r.path| && |Place(s, b)| == |s.path|;
    assert r.path[..n] == Place(r, a)[..n] && s.path[..n] == Place(s, b)[..n];
    assert r.path[n] + Suffix(a) == Place(r, a)[n] && s.path[n] + Suffix(b) == Place(s, b)[n];
    SuffixesDiffer(r.path[n], s.path[n], a, b);
    assert r.path == r.path[..n] + [r.path[n]] && s.path == s.path[..n] + [s.path[n]];
  }

  // ----- Roots that can be staged at all -----

  /**
   What the checks before a restore leave: nothing is at or below a stage or a
   retained name, and the directory of every root is there.
   */
  ghost predicate Clear(fs: Tree, roots: seq<Root>) {
    && Scoped(roots)
    && (forall root <- roots :: !Occupied(fs, Place(root, Stage)) && !Occupied(fs, Place(root, Retained)))
    && forall root <- roots :: Parent(root.path) in fs
  }

  /** Names two roots and a role, so that a proof unfolds only the places it compares. */
  predicate Compared(i: int, j: int, a: Role) { true }

  /** Roots do not lie below each other's stages and retained names. */
  ghost predicate Flat(roots: seq<Root>) {
    && Scoped(roots)
    && forall i, j, a: Role {:trigger Compared(i, j, a)} ::
         Compared(i, j, a) && 0 <= i < |roots| && 0 <= j < |roots| && i != j && a != Target ==>
           (Place(roots[i], a) <= roots[j].path ==> Place(roots[i], a) == roots[j].path)
  }

  predicate AllExist(fs: Tree, roots: seq<Root>) {
    forall root <- roots :: Occupied(fs, root.path)
  }

  lemma StrictPrefixIsInParent(p: Path, q: Path)
    requires p <= q && |p| < |q|
    ensures p <= Parent(q)
  {
    assert p == q[..|p|] == Parent(q)[..|p|];
  }

  /** A name below a vacant one has no directory to stand in. */
  lemma ClearIsFlat(fs: Tree, roots: seq<Root>)
    requires Clear(fs, roots)
    ensures Flat(roots)
  {
    forall i, j, a: Role | Compared(i, j, a) && 0 <= i < |roots| && 0 <= j < |roots| && i != j && a != Target
      && Place(roots[i], a) <= roots[j].path
      ensures Place(roots[i], a) == roots[j].path
    {
      assert roots[i] in roots && roots[j] in roots;
      if |Place(roots[i], a)| < |roots[j].path| {
        StrictPrefixIsInParent(Place(roots[i], a), roots[j].path);
        assert Occupied(fs, Place(roots[i], a));
      }
    }
  }

  /** When every root exists, the check for leftovers keeps the names apart. */
  lemma ExistingRootsAreApart(fs: Tree, roots: seq<Root>)
    requires Clear(fs, roots) && AllExist(fs, roots)
    ensures NamesApart(roots)
  {
    forall i, j, a: Role | 0 <= i < |roots| && 0 <= j < |roots| && i != j && a != Target
      ensures !(Place(roots[i], a) <= roots[j].path)
    {
      assert roots[i] in roots && roots[j] in roots;
      assert !Occupied(fs, Place(roots[i], a));
    }
  }

  // ----- Renames -----

  function Renamed(fs: Tree, p: Path, q: Path): Tree {
    Overlay(Overlay(fs, q, Sub(fs, p)), p, map[])
  }

  /** The two renames that replace one root. */
  function Swapped(fs: Tree, root: Root): Tree {
    Renamed(Renamed(fs, Place(root, Target), Place(root, Retained)), Place(root, Stage), Place(root, Target))
  }

  lemma SwapMoves(fs: Tree, r: Root)
    requires r.path != []
    ensures Sub(Swapped(fs, r), Place(r, Target)) == Sub(fs, Place(r, Stage))
    ensures Sub(Swapped(fs, r), Place(r, Retained)) == Sub(fs, Place(r, Target))
  {
    var half := Renamed(fs, Place(r, Target), Place(r, Retained));
    forall i: Role, j: Role | i != j ensures Disjoint(Place(r, i), Place(r, j)) {
      OwnPlacesDiffer(r, i, j);
      OwnPlacesDiffer(r, j, i);
    }
    RenameMoves(fs, Place(r, Target), Place(r, Retained));
    RenameElsewhere(fs, Place(r, Target), Place(r, Retained), Place(r, Stage));
    RenameMoves(half, Place(r, Stage), Place(r, Target));
    RenameElsewhere(half, Place(r, Stage), Place(r, Target), Place(r, Retained));
  }

  /** Two places of different roots are disjoint, or one is a root named like the other's stage or retained state. */
  lemma PlacesMeetOnlyAtRoots(roots: seq<Root>, i: nat, a: Role, j: nat, b: Role)
    requires Flat(roots) && i < |roots| && j < |roots| && i != j
    ensures Place(roots[i], a) == Place(roots[j], b) || Disjoint(Place(roots[i], a), Place(roots[j], b))
    ensures Place(roots[i], a) == Place(roots[j], b) ==> (a == Target && b != Target) || (a != Target && b == Target)
  {
    OwnPlace(roots[i]);
    OwnPlace(roots[j]);
    if Place(roots[i], a) <= Place(roots[j], b) {
      PlaceBelowPlace(roots, i, a, j, b);
    } else if Place(roots[j], b) <= Place(roots[i], a) {
      PlaceBelowPlace(roots, j, b, i, a);
    }
    if Place(roots[i], a) == Place(roots[j], b) && (a == b || (a != Target && b != Target)) {
      SamePlaceSameRoot(roots[i], a, roots[j], b);
    }
  }

  lemma PlaceBelowPlace(roots: seq<Root>, i: nat, a: Role, j: nat, b: Role)
    requires Flat(roots) && i < |roots| && j < |roots| && i != j && Place(roots[i], a) <= Place(roots[j], b)
    ensures Place(roots[i], a) == Place(roots[j], b)
  {
    OwnPlace(roots[i]);
    OwnPlace(roots[j]);
    assert Compared(i, j, a);
    if |Place(roots[i], a)| < |Place(roots[j], b)| {
      ShorterPlaceIsAbove(Place(roots[i], a), roots[j], b);
      assert false;
    }
  }
}
