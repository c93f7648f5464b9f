/**
 The walk that takes an inventory: directory by directory from the root, each
 with its files. On a file system in which everything stands in a directory it
 finds exactly what is at and below the root.
 */
module Walk {
  import opened Wrappers
  import opened Filesystem
  import opened Recovery

  /** Everything below a drive stands in a directory. */
  ghost predicate WellFormed(fs: Tree) {
    forall p {:trigger p in fs} :: p in fs && p != [] && Parent(p) != [] ==> Parent(p) in fs && fs[Parent(p)].Directory?
  }

  function Children(fs: Tree, d: Path): (children: set<Path>)
    ensures forall p :: p in children <==> p in fs && p != [] && Parent(p) == d
  {
    set p | p in fs && p != [] && Parent(p) == d
  }

  function Directories(fs: Tree, ps: set<Path>): set<Path> {
    set p | p in ps && p in fs && fs[p].Directory?
  }

  /** Paths are recorded relative to the root. */
  predicate RecordedIn(fs: Tree, root: Path, records: Tree, p: Path) {
    root <= p && p in fs && p[|root|..] in records && records[p[|root|..]] == fs[p]
  }

  /** Nothing is recorded that is not there. */
  ghost predicate Sound(fs: Tree, root: Path, records: Tree) {
    forall q :: q in records ==> root + q in fs && records[q] == fs[root + q] && records[q] != Special
  }

  lemma ChildIsBelow(root: Path, d: Path, p: Path)
    requires root <= d && p != [] && Parent(p) == d
    ensures root <= p && root + p[|root|..] == p
  {
    assert p[..|d|] == d;
  }

  /** The directory itself and the files in it. */
  function Items(fs: Tree, d: Path): set<Path> {
    {d} + (Children(fs, d) - Directories(fs, Children(fs, d)))
  }

  /** What the walk reads in one directory. */
  function Read(fs: Tree, root: Path, d: Path): (records: Tree)
    requires root <= d && d in fs
    ensures forall p :: p in Items(fs, d) ==> RecordedIn(fs, root, records, p)
    ensures forall q :: q in records ==> root + q in Items(fs, d) && root + q in fs && records[q] == fs[root + q]
  {
    var items := Items(fs, d);
    assert forall p :: p in items ==> root <= p && root + p[|root|..] == p by {
      forall p | p in items ensures root <= p && root + p[|root|..] == p {
        if p != d {
          ChildIsBelow(root, d, p);
        }
      }
    }
    map q | q in (set p | p in items :: p[|root|..]) :: fs[root + q]
  }

  /** The directories at and below the root. */
  function DirectoriesBelow(fs: Tree, root: Path): set<Path> {
    set p | p in fs && root <= p && fs[p].Directory?
  }

  /** Nothing linked is in the directory. */
  predicate Clean(fs: Tree, d: Path) {
    forall p <- Children(fs, d) :: fs[p] != Special
  }

  /** A visited directory: its own directories are known. */
  predicate Opened(fs: Tree, known: set<Path>, d: Path) {
    Clean(fs, d) && Directories(fs, Children(fs, d)) <= known
  }

  /** A known directory: the walk came to it from a visited one. */
  predicate Reached(root: Path, seen: set<Path>, d: Path) {
    d == root || (d != [] && Parent(d) in seen)
  }

  /** How far the walk is. */
  ghost predicate Explored(fs: Tree, root: Path, seen: set<Path>, pending: set<Path>) {
    && root in seen + pending && seen !! pending && seen + pending <= DirectoriesBelow(fs, root)
    && (forall d :: d in seen ==> Opened(fs, seen + pending, d))
    && forall d :: d in seen + pending ==> Reached(root, seen, d)
  }

  /** Visited directories and their files are recorded. */
  ghost predicate Complete(fs: Tree, root: Path, records: Tree, seen: set<Path>) {
    forall d, p {:trigger p in Items(fs, d)} :: d in seen && p in Items(fs, d) ==> RecordedIn(fs, root, records, p)
  }

  lemma NewDirectories(fs: Tree, root: Path, seen: set<Path>, pending: set<Path>, d: Path)
    requires Explored(fs, root, seen, pending) && d in pending
    ensures Directories(fs, Children(fs, d)) <= DirectoriesBelow(fs, root) - seen - {d}
  {
    forall p | p in Directories(fs, Children(fs, d)) ensures root <= p && p !in seen && p != d {
      ChildIsBelow(root, d, p);
      assert |p| == |d| + 1 && p != root;
      assert p in seen ==> Reached(root, seen, p);
    }
  }

  lemma ExploredFurther(fs: Tree, root: Path, seen: set<Path>, pending: set<Path>, d: Path)
    requires Explored(fs, root, seen, pending) && d in pending && Clean(fs, d)
    ensures Explored(fs, root, seen + {d}, pending - {d} + Directories(fs, Children(fs, d)))
  {
    var below := Directories(fs, Children(fs, d));
    var done, waiting := seen + {d}, pending - {d} + below;
    NewDirectories(fs, root, seen, pending, d);
    forall e | e in done ensures Opened(fs, done + waiting, e) {
      assert e in seen ==> Opened(fs, seen + pending, e);
      assert seen + pending <= done + waiting;
    }
    forall e | e in done + waiting ensures Reached(root, done, e) {
      assert e in seen + pending ==> Reached(root, seen, e);
    }
  }

  lemma CompletedFurther(fs: Tree, root: Path, records: Tree, seen: set<Path>, d: Path)
    requires Complete(fs, root, records, seen) && Sound(fs, root, records) && root <= d && d in fs && Clean(fs, d)
    requires fs[d].Directory?
    ensures Complete(fs, root, records + Read(fs, root, d), seen + {d}) && Sound(fs, root, records + Read(fs, root, d))
  {
  }

  /** When nothing waits any more, everything below the root was recorded and nothing linked is there. */
  lemma {:induction false} AllFound(fs: Tree, root: Path, records: Tree, seen: set<Path>, p: Path)
    requires WellFormed(fs) && Explored(fs, root, seen, {}) && Complete(fs, root, records, seen)
    requires root <= p && p in fs
    ensures fs[p] != Special && RecordedIn(fs, root, records, p) && (fs[p].Directory? ==> p in seen)
    decreases |p|
  {
    if p == root {
      assert root in Items(fs, root);
    } else {
      var d := Parent(p);
      assert root <= d;
      AllFound(fs, root, records, seen, d);
      assert p in Children(fs, d) && Opened(fs, seen, d);
      assert p in Items(fs, if fs[p].Directory? then p else d);
    }
  }

  lemma WalkEnds(fs: Tree, root: Path, records: Tree, seen: set<Path>)
    requires WellFormed(fs) && NoReparse(fs, root)
    requires Explored(fs, root, seen, {}) && Complete(fs, root, records, seen) && Sound(fs, root, records)
    ensures Inventory(fs, root) == Some(records)
  {
    forall q ensures q in Sub(fs, root) ==> q in records && fs[root + q] != Special {
      if root + q in fs {
        AllFound(fs, root, records, seen, root + q);
        assert (root + q)[|root|..] == q;
      }
    }
    assert Sub(fs, root) == records;
    assert root in seen && root in fs;
  }

  /**
   The walk: it refuses what is linked or no directory, and otherwise finds the
   inventory of the root.
   */
  method TakeInventory(fs: Tree, root: Path) returns (found: Option<Tree>)
    requires WellFormed(fs)
    ensures found == Inventory(fs, root)
  {
    if !NoReparse(fs, root) || root !in fs || !fs[root].Directory? {
      return None;
    }
    var records: Tree, pending := map[], {root};
    ghost var seen: set<Path> := {};
    while pending != {}
      invariant Explored(fs, root, seen, pending) && Complete(fs, root, records, seen) && Sound(fs, root, records)
      decreases DirectoriesBelow(fs, root) - seen
    {
      var d :| d in pending;
      if !Clean(fs, d) {
        LinkedChild(fs, root, d);
        return None;
      }
      ExploredFurther(fs, root, seen, pending, d);
      CompletedFurther(fs, root, records, seen, d);
      records := records + Read(fs, root, d);
      pending := pending - {d} + Directories(fs, Children(fs, d));
      seen := seen + {d};
    }
    WalkEnds(fs, root, records, seen);
    return Some(records);
  }

  lemma LinkedChild(fs: Tree, root: Path, d: Path)
    requires root <= d && !Clean(fs, d)
    ensures Inventory(fs, root) == None
  {
    var p :| p in Children(fs, d) && fs[p] == Special;
    ChildIsBelow(root, d, p);
    assert p[|root|..] in Sub(fs, root) && Sub(fs, root)[p[|root|..]] == Special;
  }
}
