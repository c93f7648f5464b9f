/**
 A file system as a map from paths to nodes, and a disk that remembers every
 state it went through. A digest is represented by the document it was taken of.
 */
module Filesystem {

  /** The components of a path; a drive root has at most one. */
  type Path = seq<string>

  /** A special node is a reparse point, a linked file or anything else that is not ordinary. */
  datatype Node =
    | Directory(mtime: int, acl: string)
    | File(mtime: int, data: Blob, acl: string)
    | Special

  type Tree = map<Path, Node>

  datatype Root = Root(name: string, path: Path)

  datatype Manifest = Manifest(services: map<string, string>, roots: seq<Root>, inventory: map<string, Tree>)

  /** A service specification; `rest` is everything but the name and the command. */
  datatype Spec = Spec(name: string, command: seq<string>, rest: string)

  datatype Plan = Plan(services: map<string, string>, before: map<string, Blob>, after: map<string, Blob>)

  /** The contents of a file, by the document it holds. */
  datatype Blob =
    | Text(text: string)
    | Snapshot(manifest: Manifest)
    | Sealed(approved: Blob)
    | Service(spec: Spec)
    | Update(plan: Plan)

  function Parent(p: Path): Path
    requires p != []
  {
    p[..|p| - 1]
  }

  predicate Disjoint(p: Path, q: Path) {
    !(p <= q) && !(q <= p)
  }

  // ----- Subtrees -----

  function Tails(fs: Tree, p: Path): set<Path> {
    set r | r in fs && p <= r :: r[|p|..]
  }

  lemma InTails(fs: Tree, p: Path, q: Path)
    ensures q in Tails(fs, p) <==> p + q in fs
  {
    if q in Tails(fs, p) {
      var r :| r in fs && p <= r && r[|p|..] == q;
      assert p + q == r;
    }
    if p + q in fs {
      assert (p + q)[|p|..] == q;
    }
  }

  /** What is at and below a path, by relative paths. */
  function Sub(fs: Tree, p: Path): (t: Tree)
    ensures forall q {:trigger q in t} :: q in t <==> p + q in fs
    ensures forall q {:trigger t[q]} :: q in t ==> t[q] == fs[p + q]
  {
    assert forall q :: q in Tails(fs, p) <==> p + q in fs by {
      forall q ensures q in Tails(fs, p) <==> p + q in fs {
        InTails(fs, p, q);
      }
    }
    map q | q in Tails(fs, p) :: fs[p + q]
  }

  lemma SubOfSub(fs: Tree, p: Path, r: Path)
    ensures Sub(Sub(fs, p), r) == Sub(fs, p + r)
  {
    var inner, outer := Sub(Sub(fs, p), r), Sub(fs, p + r);
    forall q ensures (q in inner <==> q in outer) && (q in inner ==> inner[q] == outer[q]) {
      assert p + r + q == p + (r + q);
    }
  }

  /** The file system with the subtree at a path replaced. */
  function Overlay(fs: Tree, p: Path, t: Tree): Tree {
    map r | r in (set r | r in fs && !(p <= r)) + (set q | q in t :: p + q) ::
      if p <= r then assert exists q :: q in t && r == p + q; t[r[|p|..]] else fs[r]
  }

  lemma OverlayHere(fs: Tree, p: Path, t: Tree)
    ensures Sub(Overlay(fs, p, t), p) == t
  {
    var after := Overlay(fs, p, t);
    forall q ensures q in Sub(after, p) <==> q in t {
      if p + q in after {
        var x :| x in t && p + q == p + x;
        assert (p + q)[|p|..] == q && (p + x)[|p|..] == x;
      }
    }
    forall q | q in t ensures Sub(after, p)[q] == t[q] {
      assert (p + q)[|p|..] == q;
    }
  }

  /** Two states that agree outside the subtree at a path. */
  ghost predicate OnlyAt(fs: Tree, gs: Tree, p: Path) {
    forall r {:trigger r in fs} {:trigger r in gs} :: !(p <= r) ==>
      (r in gs <==> r in fs) && (r in fs ==> gs[r] == fs[r])
  }

  lemma OverlayOnlyAt(fs: Tree, p: Path, t: Tree)
    ensures OnlyAt(fs, Overlay(fs, p, t), p)
  {
  }

  /** A change below one path is the replacement of its subtree. */
  lemma OnlyAtIsOverlay(fs: Tree, gs: Tree, p: Path)
    requires OnlyAt(fs, gs, p)
    ensures gs == Overlay(fs, p, Sub(gs, p))
  {
    var after := Overlay(fs, p, Sub(gs, p));
    OverlayHere(fs, p, Sub(gs, p));
    forall r ensures (r in gs <==> r in after) && (r in gs ==> gs[r] == after[r]) {
      if p <= r {
        assert r == p + r[|p|..];
        assert r[|p|..] in Sub(gs, p) <==> r in gs;
        assert r[|p|..] in Sub(after, p) <==> r in after;
        assert r in gs ==> Sub(gs, p)[r[|p|..]] == gs[r];
        assert r in after ==> Sub(after, p)[r[|p|..]] == after[r];
      }
    }
  }

  lemma PrefixesOfOnePathNest(p: Path, q: Path, x: Path)
    requires p <= q + x
    ensures !Disjoint(p, q)
  {
    if |p| <= |q| {
      assert p == (q + x)[..|p|] == q[..|p|];
    } else {
      assert q == (q + x)[..|q|] == p[..|q|];
    }
  }

  lemma Elsewhere(fs: Tree, gs: Tree, p: Path, q: Path)
    requires OnlyAt(fs, gs, p) && Disjoint(p, q)
    ensures Sub(gs, q) == Sub(fs, q)
  {
    forall x ensures !(p <= q + x) {
      if p <= q + x {
        PrefixesOfOnePathNest(p, q, x);
      }
    }
  }

  lemma OverlayElsewhere(fs: Tree, p: Path, t: Tree, q: Path)
    requires Disjoint(p, q)
    ensures Sub(Overlay(fs, p, t), q) == Sub(fs, q)
  {
    OverlayOnlyAt(fs, p, t);
    Elsewhere(fs, Overlay(fs, p, t), p, q);
  }

  /** Whether anything exists at or below a path. */
  predicate Occupied(fs: Tree, p: Path) {
    exists r :: r in fs && p <= r
  }

  /** A node can be created in a directory under a name that is free. */
  predicate CanCreate(fs: Tree, p: Path) {
    p != [] && Parent(p) in fs && fs[Parent(p)].Directory? && !Occupied(fs, p)
  }

  /** No link is traversed on the way to a path. */
  predicate NoReparse(fs: Tree, p: Path) {
    forall n | 0 <= n <= |p| :: p[..n] in fs ==> fs[p[..n]] != Special
  }

  lemma VacantIsEmpty(fs: Tree, p: Path)
    ensures !Occupied(fs, p) <==> Sub(fs, p) == map[]
  {
    if !Occupied(fs, p) {
      assert forall q :: q !in Sub(fs, p) by {
        forall q ensures q !in Sub(fs, p) {
          assert p <= p + q;
        }
      }
    } else {
      var r :| r in fs && p <= r;
      assert r == p + r[|p|..];
      assert r[|p|..] in Sub(fs, p);
    }
  }

  lemma NothingBelowANewNode(fs: Tree, gs: Tree, p: Path, r: Path)
    requires !Occupied(fs, p) && Sub(gs, p).Keys <= {[]} && p <= r && r != p
    ensures r !in fs && r !in gs
  {
    assert r == p + r[|p|..];
    assert r[|p|..] !in Sub(gs, p);
  }

  /** Creating one node where nothing was changes no other subtree, not even one below it. */
  lemma NewNodeElsewhere(fs: Tree, gs: Tree, p: Path, q: Path)
    requires !Occupied(fs, p) && OnlyAt(fs, gs, p) && Sub(gs, p).Keys <= {[]} && !(q <= p)
    ensures Sub(gs, q) == Sub(fs, q)
  {
    forall x ensures (q + x in gs <==> q + x in fs) && (q + x in fs ==> gs[q + x] == fs[q + x]) {
      assert q <= q + x;
      if p <= q + x {
        NothingBelowANewNode(fs, gs, p, q + x);
      }
    }
  }

  // ----- The disk -----

  class Disk {
    var tree: Tree
    /** Every state after a change, oldest first: where a crash can leave the disk. */
    ghost var history: seq<Tree>

    constructor (initial: Tree)
      ensures tree == initial && history == []
    {
      tree, history := initial, [];
    }

    /** Replaces a subtree. */
    method Put(p: Path, t: Tree)
      modifies this
      ensures tree == Overlay(old(tree), p, t) && history == old(history) + [tree]
    {
      tree := Overlay(tree, p, t);
      history := history + [tree];
    }

    /** A state that this process and others brought about together. */
    method Become(t: Tree)
      modifies this
      ensures tree == t && history == old(history) + [tree]
    {
      tree := t;
      history := history + [tree];
    }

    /** Renames a directory or file; both names change in one step. */
    method Rename(p: Path, q: Path)
      requires Disjoint(p, q)
      modifies this
      ensures tree == Overlay(Overlay(old(tree), q, Sub(old(tree), p)), p, map[])
      ensures history == old(history) + [tree]
    {
      tree := Overlay(Overlay(tree, q, Sub(tree, p)), p, map[]);
      history := history + [tree];
    }
  }

  lemma RenameMoves(fs: Tree, p: Path, q: Path)
    requires Disjoint(p, q)
    ensures var after := Overlay(Overlay(fs, q, Sub(fs, p)), p, map[]);
      Sub(after, q) == Sub(fs, p) && Sub(after, p) == map[]
  {
    var middle := Overlay(fs, q, Sub(fs, p));
    OverlayHere(fs, q, Sub(fs, p));
    OverlayElsewhere(middle, p, map[], q);
    OverlayHere(middle, p, map[]);
  }

  lemma RenameElsewhere(fs: Tree, p: Path, q: Path, r: Path)
    requires Disjoint(p, q) && Disjoint(p, r) && Disjoint(q, r)
    ensures Sub(Overlay(Overlay(fs, q, Sub(fs, p)), p, map[]), r) == Sub(fs, r)
  {
    OverlayElsewhere(fs, q, Sub(fs, p), r);
    OverlayElsewhere(Overlay(fs, q, Sub(fs, p)), p, map[], r);
  }
}
