/**
 The dependency closure of an offline wheel bundle: a worklist search that must
 accept exactly the bundles whose every reachable requirement is satisfied.
 Markers and version specifiers belong to the packaging library and are given
 by their evaluation.
 */
module Closure {
  import opened Wrappers

  /** `marker` evaluates the requirement's marker for an extra; `accepts` is its specifier; `extras` is sorted. */
  datatype Requirement = Requirement(
    name: string, marker: Option<string -> bool>, accepts: string -> bool, extras: seq<string>)

  datatype Record = Record(name: string, version: string, dependencies: seq<Requirement>, extras: set<string>)

  /** A package together with the extras selected for it. */
  datatype Node = Node(name: string, extras: seq<string>)

  datatype Failure = ProjectMissing | ExtraUnavailable | DependencyUnsatisfied | DependencyExtraUnavailable

  const PROJECT := "graphmind-rag-mcp"

  type Packages = map<string, Record>

  /** The index by name; a later record of the same name wins. */
  function Index(records: seq<Record>): (packages: Packages)
    ensures packages.Keys == set r | r in records :: r.name
  {
    if records == [] then map[] else
      var last := records[|records| - 1];
      assert records == records[..|records| - 1] + [last];
      Index(records[..|records| - 1])[last.name := last]
  }

  predicate Active(requirement: Requirement, selected: seq<string>) {
    requirement.marker.Some? ==>
      requirement.marker.value("") || exists e | e in selected :: requirement.marker.value(e)
  }

  /** Distribution names and extras are compared in their canonical form. */
  predicate Present(packages: Packages, canonical: string -> string, requirement: Requirement) {
    canonical(requirement.name) in packages
    && requirement.accepts(packages[canonical(requirement.name)].version)
  }

  predicate ExtrasProvided(packages: Packages, canonical: string -> string, requirement: Requirement)
    requires canonical(requirement.name) in packages
  {
    forall e | e in requirement.extras :: canonical(e) in packages[canonical(requirement.name)].extras
  }

  predicate Satisfied(packages: Packages, canonical: string -> string, requirement: Requirement) {
    Present(packages, canonical, requirement) && ExtrasProvided(packages, canonical, requirement)
  }

  function Target(canonical: string -> string, requirement: Requirement): Node {
    Node(canonical(requirement.name), requirement.extras)
  }

  // ----- The declarative meaning -----

  ghost predicate Root(records: seq<Record>, extras: seq<string>, n: Node) {
    n == Node(PROJECT, extras) || exists r :: r in records && n == Node(r.name, [])
  }

  /** An active requirement of n leads to m. */
  ghost predicate Edge(packages: Packages, canonical: string -> string, n: Node, m: Node) {
    n.name in packages && exists q ::
      q in packages[n.name].dependencies && Active(q, n.extras) && m == Target(canonical, q)
  }

  ghost predicate IsPath(packages: Packages, canonical: string -> string, path: seq<Node>) {
    |path| > 0 && forall i :: 0 <= i < |path| - 1 ==> Edge(packages, canonical, path[i], path[i + 1])
  }

  ghost predicate Reachable(records: seq<Record>, canonical: string -> string, extras: seq<string>, n: Node) {
    exists path :: IsPath(Index(records), canonical, path) && Root(records, extras, path[0]) && path[|path| - 1] == n
  }

  ghost predicate NodeOk(packages: Packages, canonical: string -> string, n: Node) {
    n.name in packages && forall q :: q in packages[n.name].dependencies && Active(q, n.extras) ==>
      Satisfied(packages, canonical, q)
  }

  /** The bundle is closed: every active requirement of every reachable package with its extras is satisfied. */
  ghost predicate Closed(records: seq<Record>, canonical: string -> string, extras: seq<string>) {
    && PROJECT in Index(records)
    && (forall e :: e in extras ==> e in Index(records)[PROJECT].extras)
    && forall n :: Reachable(records, canonical, extras, n) ==> NodeOk(Index(records), canonical, n)
  }

  /** What each of the two late refusals reports about some requirement that counts. */
  ghost predicate Blames(packages: Packages, canonical: string -> string, n: Node, failure: Failure) {
    n.name in packages && exists q ::
      && q in packages[n.name].dependencies && Active(q, n.extras)
      && if failure == DependencyUnsatisfied then !Present(packages, canonical, q)
         else failure == DependencyExtraUnavailable && Present(packages, canonical, q)
              && !ExtrasProvided(packages, canonical, q)
  }

  ghost predicate Blamed(records: seq<Record>, canonical: string -> string, extras: seq<string>, failure: Failure) {
    exists n :: Reachable(records, canonical, extras, n) && Blames(Index(records), canonical, n, failure)
  }

  // ----- The search -----

  /** Every node the search can ever see. */
  ghost function Universe(records: seq<Record>, canonical: string -> string, extras: seq<string>): set<Node> {
    {Node(PROJECT, extras)}
    + (set r | r in records :: Node(r.name, []))
    + (set r, q | r in Index(records).Values && q in r.dependencies :: Target(canonical, q))
  }

  lemma RootReachable(records: seq<Record>, canonical: string -> string, extras: seq<string>, n: Node)
    requires Root(records, extras, n)
    ensures Reachable(records, canonical, extras, n)
  {
    assert IsPath(Index(records), canonical, [n]) && [n][0] == n;
  }

  lemma EdgeReachable(records: seq<Record>, canonical: string -> string, extras: seq<string>, n: Node, m: Node)
    requires Reachable(records, canonical, extras, n) && Edge(Index(records), canonical, n, m)
    ensures Reachable(records, canonical, extras, m)
  {
    var path :| IsPath(Index(records), canonical, path) && Root(records, extras, path[0]) && path[|path| - 1] == n;
    var longer := path + [m];
    forall i | 0 <= i < |longer| - 1 ensures Edge(Index(records), canonical, longer[i], longer[i + 1]) {
      assert i < |path| - 1 ==> longer[i] == path[i] && longer[i + 1] == path[i + 1];
    }
    assert IsPath(Index(records), canonical, longer) && longer[0] == path[0] && longer[|longer| - 1] == m;
  }

  /** A set that holds the roots and is closed under edges holds everything reachable. */
  lemma {:induction false} ReachableStaysInside(
    records: seq<Record>, canonical: string -> string, extras: seq<string>, inside: set<Node>, path: seq<Node>)
    requires IsPath(Index(records), canonical, path) && Root(records, extras, path[0])
    requires forall n :: Root(records, extras, n) ==> n in inside
    requires forall n, m :: n in inside && Edge(Index(records), canonical, n, m) ==> m in inside
    ensures path[|path| - 1] in inside
    decreases |path|
  {
    if |path| > 1 {
      var shorter := path[..|path| - 1];
      forall i | 0 <= i < |shorter| - 1 ensures Edge(Index(records), canonical, shorter[i], shorter[i + 1]) {
        assert Edge(Index(records), canonical, path[i], path[i + 1]);
      }
      ReachableStaysInside(records, canonical, extras, inside, shorter);
      assert Edge(Index(records), canonical, path[|path| - 2], path[|path| - 2 + 1]);
    }
  }

  /** Nodes whose requirements were all found satisfied and queued. */
  ghost predicate Expanded(
    packages: Packages, canonical: string -> string, n: Node, seen: set<Node>, pending: seq<Node>)
  {
    && NodeOk(packages, canonical, n)
    && forall m :: Edge(packages, canonical, n, m) ==> m in seen || m in pending
  }

  /** Checks one node's requirements in order, queueing the targets of the active ones. */
  method Expand(packages: Packages, canonical: string -> string, n: Node, pending: seq<Node>)
    returns (result: Result<seq<Node>, Failure>)
    requires n.name in packages
    ensures result.Ok? <==> NodeOk(packages, canonical, n)
    ensures result.Ok? ==>
      && pending <= result.value
      && (forall m :: m in result.value ==> m in pending || (Edge(packages, canonical, n, m) && m.name in packages))
      && (forall m :: Edge(packages, canonical, n, m) ==> m in result.value)
    ensures result.Err? ==> Blames(packages, canonical, n, result.error)
  {
    var queue := pending;
    var all := packages[n.name].dependencies;
    for i := 0 to |all|
      invariant pending <= queue
      invariant forall j :: 0 <= j < i && Active(all[j], n.extras) ==>
        Satisfied(packages, canonical, all[j]) && Target(canonical, all[j]) in queue
      invariant forall m :: m in queue ==> m in pending || (Edge(packages, canonical, n, m) && m.name in packages)
    {
      var requirement := all[i];
      assert requirement in all;
      if Active(requirement, n.extras) {
        if !Present(packages, canonical, requirement) {
          return Err(DependencyUnsatisfied);
        }
        if !ExtrasProvided(packages, canonical, requirement) {
          return Err(DependencyExtraUnavailable);
        }
        queue := queue + [Target(canonical, requirement)];
      }
    }
    return Ok(queue);
  }

  /** A queued node can be expanded, is reachable and comes from the finite universe. */
  ghost predicate Queueable(records: seq<Record>, canonical: string -> string, extras: seq<string>, m: Node) {
    && m.name in Index(records) && Reachable(records, canonical, extras, m)
    && m in Universe(records, canonical, extras)
  }

  /** The state of the search: what is queued, and what has been expanded. */
  ghost predicate SearchInv(
    records: seq<Record>, canonical: string -> string, extras: seq<string>, seen: set<Node>, pending: seq<Node>)
  {
    && (forall m :: m in pending ==> Queueable(records, canonical, extras, m))
    && (forall m :: m in seen ==> Expanded(Index(records), canonical, m, seen, pending))
    && (forall m :: Root(records, extras, m) ==> m in seen || m in pending)
    && seen <= Universe(records, canonical, extras)
  }

  lemma SearchStarts(records: seq<Record>, canonical: string -> string, extras: seq<string>, pending: seq<Node>)
    requires PROJECT in Index(records)
    requires forall n :: Root(records, extras, n) <==> n in pending
    ensures SearchInv(records, canonical, extras, {}, pending)
  {
    forall m | m in pending
      ensures Queueable(records, canonical, extras, m)
    {
      assert Root(records, extras, m);
      RootReachable(records, canonical, extras, m);
    }
  }

  lemma SearchSkips(
    records: seq<Record>, canonical: string -> string, extras: seq<string>, seen: set<Node>, rest: seq<Node>, n: Node)
    requires SearchInv(records, canonical, extras, seen, rest + [n]) && n in seen
    ensures SearchInv(records, canonical, extras, seen, rest)
  {
    assert forall m :: m in rest + [n] <==> m in rest || m == n;
  }

  lemma QueueGrows(
    records: seq<Record>, canonical: string -> string, extras: seq<string>, rest: seq<Node>, n: Node, queue: seq<Node>)
    requires Queueable(records, canonical, extras, n)
    requires forall m :: m in rest ==> Queueable(records, canonical, extras, m)
    requires forall m :: m in queue ==> m in rest || (Edge(Index(records), canonical, n, m) && m.name in Index(records))
    ensures forall m :: m in queue ==> Queueable(records, canonical, extras, m)
  {
    forall m | m in queue ensures Queueable(records, canonical, extras, m) {
      if m !in rest {
        EdgeReachable(records, canonical, extras, n, m);
        EdgeInUniverse(records, canonical, extras, n, m);
      }
    }
  }

  lemma ExpandedGrows(
    packages: Packages, canonical: string -> string, seen: set<Node>, rest: seq<Node>, n: Node, queue: seq<Node>)
    requires forall m :: m in seen ==> Expanded(packages, canonical, m, seen, rest + [n])
    requires NodeOk(packages, canonical, n) && forall m :: m in rest ==> m in queue
    requires forall m :: Edge(packages, canonical, n, m) ==> m in queue
    ensures forall m :: m in seen + {n} ==> Expanded(packages, canonical, m, seen + {n}, queue)
  {
    assert forall m :: m in rest + [n] <==> m in rest || m == n;
  }

  lemma SearchExpands(
    records: seq<Record>, canonical: string -> string, extras: seq<string>,
    seen: set<Node>, rest: seq<Node>, n: Node, queue: seq<Node>)
    requires SearchInv(records, canonical, extras, seen, rest + [n])
    requires NodeOk(Index(records), canonical, n) && forall m :: m in rest ==> m in queue
    requires forall m :: m in queue ==> m in rest || (Edge(Index(records), canonical, n, m) && m.name in Index(records))
    requires forall m :: Edge(Index(records), canonical, n, m) ==> m in queue
    ensures SearchInv(records, canonical, extras, seen + {n}, queue)
  {
    assert forall m :: m in rest + [n] <==> m in rest || m == n;
    QueueGrows(records, canonical, extras, rest, n, queue);
    ExpandedGrows(Index(records), canonical, seen, rest, n, queue);
  }

  lemma SearchFails(
    records: seq<Record>, canonical: string -> string, extras: seq<string>,
    seen: set<Node>, pending: seq<Node>, n: Node, failure: Failure)
    requires SearchInv(records, canonical, extras, seen, pending) && n in pending
    requires !NodeOk(Index(records), canonical, n) && Blames(Index(records), canonical, n, failure)
    ensures !Closed(records, canonical, extras) && Blamed(records, canonical, extras, failure)
  {
    assert Queueable(records, canonical, extras, n);
  }

  lemma UnseenShrinks(records: seq<Record>, canonical: string -> string, extras: seq<string>, seen: set<Node>, n: Node)
    requires n !in seen && n in Universe(records, canonical, extras)
    ensures Universe(records, canonical, extras) - (seen + {n}) < Universe(records, canonical, extras) - seen
  {
    assert n in Universe(records, canonical, extras) - seen;
  }

  lemma SearchEnds(records: seq<Record>, canonical: string -> string, extras: seq<string>, seen: set<Node>)
    requires SearchInv(records, canonical, extras, seen, [])
    ensures forall n :: Reachable(records, canonical, extras, n) ==> NodeOk(Index(records), canonical, n)
  {
    forall n | Reachable(records, canonical, extras, n) ensures NodeOk(Index(records), canonical, n) {
      var path :| IsPath(Index(records), canonical, path) && Root(records, extras, path[0]) && path[|path| - 1] == n;
      ReachableStaysInside(records, canonical, extras, seen, path);
    }
  }

  lemma SearchIgnoresPosition(
    records: seq<Record>, canonical: string -> string, extras: seq<string>, seen: set<Node>, pending: seq<Node>, i: nat)
    requires SearchInv(records, canonical, extras, seen, pending) && i < |pending|
    ensures SearchInv(records, canonical, extras, seen, pending[..i] + pending[i + 1..] + [pending[i]])
  {
    var moved := pending[..i] + pending[i + 1..] + [pending[i]];
    MovedKeepsMembers(pending, i);
    SearchInvByMembers(records, canonical, extras, seen, pending, moved);
  }

  lemma MovedKeepsMembers<T>(s: seq<T>, i: nat)
    requires i < |s|
    ensures forall x :: x in s <==> x in s[..i] + s[i + 1..] + [s[i]]
  {
    var before, after := s[..i], s[i + 1..];
    assert s == before + [s[i]] + after;
    assert forall x :: x in before + [s[i]] + after <==> x in before || x == s[i] || x in after;
  }

  lemma SearchInvByMembers(
    records: seq<Record>, canonical: string -> string, extras: seq<string>,
    seen: set<Node>, pending: seq<Node>, moved: seq<Node>)
    requires SearchInv(records, canonical, extras, seen, pending) && forall m :: m in pending <==> m in moved
    ensures SearchInv(records, canonical, extras, seen, moved)
  {
  }

  /** Takes node i off the work list and expands it unless it was seen before. */
  method Step(
    records: seq<Record>, canonical: string -> string, extras: seq<string>, seen: set<Node>, pending: seq<Node>, i: nat)
    returns (result: Result<(set<Node>, seq<Node>), Failure>)
    requires SearchInv(records, canonical, extras, seen, pending) && i < |pending|
    ensures result.Ok? ==>
      && SearchInv(records, canonical, extras, result.value.0, result.value.1)
      && (|| Universe(records, canonical, extras) - result.value.0 < Universe(records, canonical, extras) - seen
          || (result.value.0 == seen && |result.value.1| < |pending|))
    ensures result.Err? ==>
      !Closed(records, canonical, extras) && Blamed(records, canonical, extras, result.error)
  {
    var n := pending[i];
    var rest := pending[..i] + pending[i + 1..];
    SearchIgnoresPosition(records, canonical, extras, seen, pending, i);
    if n in seen {
      SearchSkips(records, canonical, extras, seen, rest, n);
      return Ok((seen, rest));
    }
    assert n in rest + [n];
    assert Queueable(records, canonical, extras, n);
    var expansion := Expand(Index(records), canonical, n, rest);
    if expansion.Err? {
      SearchFails(records, canonical, extras, seen, rest + [n], n, expansion.error);
      return Err(expansion.error);
    }
    UnseenShrinks(records, canonical, extras, seen, n);
    SearchExpands(records, canonical, extras, seen, rest, n, expansion.value);
    return Ok((seen + {n}, expansion.value));
  }

  /** The work list, started from every package and from the project with its extras, taken in any order. */
  method Search(
    records: seq<Record>, canonical: string -> string, extras: seq<string>, pick: seq<Node> -> nat)
    returns (failure: Option<Failure>)
    requires PROJECT in Index(records)
    requires forall work: seq<Node> :: work != [] ==> pick(work) < |work|
    ensures failure.None? ==>
      forall n :: Reachable(records, canonical, extras, n) ==> NodeOk(Index(records), canonical, n)
    ensures failure.Some? ==>
      !Closed(records, canonical, extras) && Blamed(records, canonical, extras, failure.value)
  {
    var pending := seq(|records|, i requires 0 <= i < |records| => Node(records[i].name, [])) + [Node(PROJECT, extras)];
    var seen := {};
    RootsAreQueued(records, extras, pending);
    SearchStarts(records, canonical, extras, pending);
    while pending != []
      invariant SearchInv(records, canonical, extras, seen, pending)
      decreases Universe(records, canonical, extras) - seen, |pending|
    {
      var next := Step(records, canonical, extras, seen, pending, pick(pending));
      if next.Err? {
        return Some(next.error);
      }
      seen, pending := next.value.0, next.value.1;
    }
    SearchEnds(records, canonical, extras, seen);
    return None;
  }

  /**
   The search accepts exactly the closed bundles: it is sound, complete and,
   since every expansion shrinks the unseen part of a finite universe, it ends.
   Whichever node the search takes next, the verdict is the same; the original takes the last.
   */
  method ValidateClosure(
    records: seq<Record>, canonical: string -> string, extras: seq<string>, pick: seq<Node> -> nat)
    returns (failure: Option<Failure>)
    requires forall work: seq<Node> :: work != [] ==> pick(work) < |work|
    ensures failure.None? <==> Closed(records, canonical, extras)
    ensures failure == Some(ProjectMissing) <==> PROJECT !in Index(records)
    ensures failure == Some(ExtraUnavailable) <==>
      PROJECT in Index(records) && exists e :: e in extras && e !in Index(records)[PROJECT].extras
    ensures failure.Some? && failure.value != ProjectMissing && failure.value != ExtraUnavailable ==>
      Blamed(records, canonical, extras, failure.value)
  {
    var packages := Index(records);
    if PROJECT !in packages {
      return Some(ProjectMissing);
    }
    if exists e | e in extras :: e !in packages[PROJECT].extras {
      return Some(ExtraUnavailable);
    }
    failure := Search(records, canonical, extras, pick);
  }

  lemma RootsAreQueued(records: seq<Record>, extras: seq<string>, pending: seq<Node>)
    requires pending ==
      seq(|records|, i requires 0 <= i < |records| => Node(records[i].name, [])) + [Node(PROJECT, extras)]
    ensures forall n :: Root(records, extras, n) <==> n in pending
  {
    forall n | Root(records, extras, n) ensures n in pending {
      if n == Node(PROJECT, extras) {
        assert pending[|records|] == n;
      } else {
        var r :| r in records && n == Node(r.name, []);
        var i :| 0 <= i < |records| && records[i] == r;
        assert pending[i] == n;
      }
    }
    forall n | n in pending ensures Root(records, extras, n) {
      var i :| 0 <= i < |pending| && pending[i] == n;
      if i < |records| {
        assert records[i] in records;
      }
    }
  }

  lemma EdgeInUniverse(records: seq<Record>, canonical: string -> string, extras: seq<string>, n: Node, m: Node)
    requires Edge(Index(records), canonical, n, m)
    ensures m in Universe(records, canonical, extras)
  {
    var q :| q in Index(records)[n.name].dependencies && Active(q, n.extras) && m == Target(canonical, q);
    assert Index(records)[n.name] in Index(records).Values;
  }

  // ----- The same meaning without a search, on the records alone -----

  /** The record that counts for its name: the last one listed. */
  ghost predicate Listed(records: seq<Record>, r: Record) {
    exists i :: 0 <= i < |records| && records[i] == r && forall j :: i < j < |records| ==> records[j].name != r.name
  }

  lemma ListedLast(rest: seq<Record>, last: Record, r: Record)
    ensures Listed(rest + [last], r) <==> last == r || (last.name != r.name && Listed(rest, r))
  {
    var all := rest + [last];
    assert all[|rest|] == last;
    if Listed(all, r) && last != r {
      var i :| 0 <= i < |all| && all[i] == r && forall j :: i < j < |all| ==> all[j].name != r.name;
      assert rest[i] == r && forall j :: i < j < |rest| ==> rest[j].name == all[j].name;
    }
    if last.name != r.name && Listed(rest, r) {
      var i :| 0 <= i < |rest| && rest[i] == r && forall j :: i < j < |rest| ==> rest[j].name != r.name;
      assert all[i] == r && forall j :: i < j < |all| ==> all[j].name != r.name;
    }
  }

  lemma {:induction false} IndexFinds(records: seq<Record>, r: Record)
    ensures Listed(records, r) <==> r.name in Index(records) && Index(records)[r.name] == r
  {
    if records != [] {
      var n := |records| - 1;
      assert records == records[..n] + [records[n]];
      IndexFinds(records[..n], r);
      ListedLast(records[..n], records[n], r);
    }
  }

  /**
   A set of packages with selected extras that leaves nothing to be desired. It
   has the project with the requested extras, which the project provides, and
   every package by itself. And for every requirement of a package in it that has
   no marker, or whose marker holds for one of the selected extras or for none,
   the bundle has the package that is named, in an accepted version, providing
   the extras that are asked for; and with just these extras it is in the set.
   */
  ghost predicate Complete(
    records: seq<Record>, canonical: string -> string, extras: seq<string>, needed: set<Node>)
  {
    && (exists p :: Listed(records, p) && p.name == PROJECT && forall e :: e in extras ==> e in p.extras)
    && Node(PROJECT, extras) in needed && (forall r :: r in records ==> Node(r.name, []) in needed)
    && forall r, selected, q ::
         && Listed(records, r) && Node(r.name, selected) in needed && q in r.dependencies
         && (q.marker.None? || q.marker.value("") || exists e :: e in selected && q.marker.value(e)) ==>
           Meets(records, canonical, needed, q)
  }

  ghost predicate Completable(records: seq<Record>, canonical: string -> string, extras: seq<string>) {
    exists needed :: Complete(records, canonical, extras, needed)
  }

  ghost predicate Meets(records: seq<Record>, canonical: string -> string, needed: set<Node>, q: Requirement) {
    exists d ::
      && Listed(records, d) && d.name == canonical(q.name) && q.accepts(d.version)
      && (forall e :: e in q.extras ==> canonical(e) in d.extras)
      && Node(d.name, q.extras) in needed
  }

  lemma ReachableInUniverse(records: seq<Record>, canonical: string -> string, extras: seq<string>, n: Node)
    requires Reachable(records, canonical, extras, n)
    ensures n in Universe(records, canonical, extras)
  {
    var path :| IsPath(Index(records), canonical, path) && Root(records, extras, path[0]) && path[|path| - 1] == n;
    forall a, b | Edge(Index(records), canonical, a, b) ensures b in Universe(records, canonical, extras) {
      EdgeInUniverse(records, canonical, extras, a, b);
    }
    ReachableStaysInside(records, canonical, extras, Universe(records, canonical, extras), path);
  }

  /** What a requirement that counts leads to in a closed bundle. */
  lemma ClosedMeets(
    records: seq<Record>, canonical: string -> string, extras: seq<string>, needed: set<Node>, n: Node, q: Requirement)
    requires Closed(records, canonical, extras) && Reachable(records, canonical, extras, n)
    requires n.name in Index(records) && q in Index(records)[n.name].dependencies
    requires q.marker.None? || q.marker.value("") || exists e :: e in n.extras && q.marker.value(e)
    requires forall m :: Reachable(records, canonical, extras, m) ==> m in needed
    ensures Meets(records, canonical, needed, q)
  {
    assert Active(q, n.extras) && NodeOk(Index(records), canonical, n);
    var d := Index(records)[canonical(q.name)];
    NamesAgree(records);
    IndexFinds(records, d);
    assert Edge(Index(records), canonical, n, Node(d.name, q.extras));
    EdgeReachable(records, canonical, extras, n, Node(d.name, q.extras));
    assert Listed(records, d) && Node(d.name, q.extras) in needed;
  }

  lemma ClosedIsComplete(records: seq<Record>, canonical: string -> string, extras: seq<string>)
    requires Closed(records, canonical, extras)
    ensures Completable(records, canonical, extras)
  {
    var needed := set n | n in Universe(records, canonical, extras) && Reachable(records, canonical, extras, n);
    forall n | Reachable(records, canonical, extras, n) ensures n in needed {
      ReachableInUniverse(records, canonical, extras, n);
    }
    forall n | Root(records, extras, n) ensures n in needed {
      RootReachable(records, canonical, extras, n);
    }
    assert exists p :: Listed(records, p) && p.name == PROJECT && forall e :: e in extras ==> e in p.extras by {
      NamesAgree(records);
      IndexFinds(records, Index(records)[PROJECT]);
    }
    forall r, selected, q |
      && Listed(records, r) && Node(r.name, selected) in needed && q in r.dependencies
      && (q.marker.None? || q.marker.value("") || exists e :: e in selected && q.marker.value(e))
      ensures Meets(records, canonical, needed, q)
    {
      IndexFinds(records, r);
      ClosedMeets(records, canonical, extras, needed, Node(r.name, selected), q);
    }
    assert Root(records, extras, Node(PROJECT, extras));
    assert forall r :: r in records ==> Root(records, extras, Node(r.name, []));
    assert Complete(records, canonical, extras, needed);
  }

  lemma {:induction false} NamesAgree(records: seq<Record>)
    ensures forall name :: name in Index(records) ==> Index(records)[name].name == name
  {
    if records != [] {
      NamesAgree(records[..|records| - 1]);
    }
  }

  /** In a complete set a package has all it needs, and so is everything that an edge leads to. */
  lemma CompleteNode(
    records: seq<Record>, canonical: string -> string, extras: seq<string>, needed: set<Node>, n: Node)
    requires Complete(records, canonical, extras, needed) && n in needed && n.name in Index(records)
    ensures NodeOk(Index(records), canonical, n)
    ensures forall m :: Edge(Index(records), canonical, n, m) ==> m in needed && m.name in Index(records)
  {
    var r := Index(records)[n.name];
    NamesAgree(records);
    IndexFinds(records, r);
    forall q | q in r.dependencies && Active(q, n.extras)
      ensures Satisfied(Index(records), canonical, q)
      ensures Target(canonical, q) in needed && Target(canonical, q).name in Index(records)
    {
      assert n == Node(r.name, n.extras);
      assert Meets(records, canonical, needed, q);
      var d :| && Listed(records, d) && d.name == canonical(q.name) && q.accepts(d.version)
               && (forall e :: e in q.extras ==> canonical(e) in d.extras) && Node(d.name, q.extras) in needed;
      IndexFinds(records, d);
    }
  }

  lemma CompleteIsClosed(records: seq<Record>, canonical: string -> string, extras: seq<string>, needed: set<Node>)
    requires Complete(records, canonical, extras, needed)
    ensures Closed(records, canonical, extras)
  {
    var project :| && Listed(records, project) && project.name == PROJECT
                   && forall e :: e in extras ==> e in project.extras;
    IndexFinds(records, project);
    var inside := set n | n in needed && n.name in Index(records);
    forall n, m | n in inside && Edge(Index(records), canonical, n, m) ensures m in inside {
      CompleteNode(records, canonical, extras, needed, n);
    }
    forall n | Reachable(records, canonical, extras, n) ensures NodeOk(Index(records), canonical, n) {
      var path :| IsPath(Index(records), canonical, path) && Root(records, extras, path[0]) && path[|path| - 1] == n;
      ReachableStaysInside(records, canonical, extras, inside, path);
      CompleteNode(records, canonical, extras, needed, n);
    }
  }

  /** The bundles that the search accepts are those with a complete set: neither more nor fewer. */
  lemma ClosedExactlyWhenComplete(records: seq<Record>, canonical: string -> string, extras: seq<string>)
    ensures Closed(records, canonical, extras) <==> Completable(records, canonical, extras)
  {
    if Closed(records, canonical, extras) {
      ClosedIsComplete(records, canonical, extras);
    }
    if Completable(records, canonical, extras) {
      var needed :| Complete(records, canonical, extras, needed);
      CompleteIsClosed(records, canonical, extras, needed);
    }
  }

  /**
   The extras that a requirement asks for count for the package it names: when
   the bundle is accepted, a requirement of that package whose marker holds for
   one of them alone is satisfied as well.
   */
  lemma RequestedExtrasCount(
    records: seq<Record>, canonical: string -> string, extras: seq<string>,
    selected: seq<string>, a: Record, q: Requirement, b: Record, r: Requirement)
    requires Closed(records, canonical, extras)
    requires Listed(records, a) && Reachable(records, canonical, extras, Node(a.name, selected))
    requires q in a.dependencies
    requires q.marker.None? || q.marker.value("") || exists e :: e in selected && q.marker.value(e)
    requires Listed(records, b) && b.name == canonical(q.name) && r in b.dependencies
    requires r.marker.None? || r.marker.value("") || exists e :: e in q.extras && r.marker.value(e)
    ensures exists c ::
      && Listed(records, c) && c.name == canonical(r.name) && r.accepts(c.version)
      && forall e :: e in r.extras ==> canonical(e) in c.extras
  {
    IndexFinds(records, a);
    IndexFinds(records, b);
    var n, m := Node(a.name, selected), Node(b.name, q.extras);
    assert Active(q, n.extras) && Edge(Index(records), canonical, n, m);
    EdgeReachable(records, canonical, extras, n, m);
    assert Active(r, m.extras) && NodeOk(Index(records), canonical, m);
    NamesAgree(records);
    IndexFinds(records, Index(records)[canonical(r.name)]);
  }

  // ----- A bundle without the package that an extra needs -----

  function Plain(name: string, marker: Option<string -> bool>, extras: seq<string>): Requirement {
    Requirement(name, marker, version => true, extras)
  }

  /** Every name of this bundle is in its canonical form. */
  function Canonical(name: string): string { name }

  function Pillowless(): seq<Record> {
    [ Record(PROJECT, "1", [Plain("transformers", None, ["vision"])], {}),
      Record("transformers", "1", [Plain("pillow", Some(extra => extra == "vision"), [])], {"vision"})]
  }

  lemma PillowlessIndex()
    ensures Index(Pillowless()) == map[PROJECT := Pillowless()[0], "transformers" := Pillowless()[1]]
    ensures forall r :: Listed(Pillowless(), r) ==> r.name == PROJECT || r.name == "transformers"
  {
    var records := Pillowless();
    assert records[..1] == [records[0]] && records[..1][..0] == [];
    assert Index(records[..1]) == map[PROJECT := records[0]];
  }

  lemma VisionIsProvided()
    ensures !Blamed(Pillowless(), Canonical, [], DependencyExtraUnavailable)
  {
    PillowlessIndex();
    var packages := Index(Pillowless());
    assert ExtrasProvided(packages, Canonical, Pillowless()[0].dependencies[0]);
  }

  lemma PillowIsMissing()
    ensures !Closed(Pillowless(), Canonical, [])
  {
    var records, Canonical := Pillowless(), Canonical;
    var a, b := records[0], records[1];
    PillowlessIndex();
    IndexFinds(records, a);
    IndexFinds(records, b);
    if Closed(records, Canonical, []) {
      RootReachable(records, Canonical, [], Node(PROJECT, []));
      assert "vision" in a.dependencies[0].extras;
      RequestedExtrasCount(records, Canonical, [], [], a, a.dependencies[0], b, b.dependencies[0]);
      assert false;
    }
  }

  /** The project asks for an extra of a package, and what that extra needs is not in the bundle: refused. */
  method RefusesMissingPillow(pick: seq<Node> -> nat) returns (failure: Option<Failure>)
    requires forall work: seq<Node> :: work != [] ==> pick(work) < |work|
    ensures failure == Some(DependencyUnsatisfied)
  {
    failure := ValidateClosure(Pillowless(), Canonical, [], pick);
    PillowIsMissing();
    PillowlessIndex();
    VisionIsProvided();
  }

  ghost predicate DistinctNames(records: seq<Record>) {
    forall i, j :: 0 <= i < j < |records| ==> records[i].name != records[j].name
  }

  lemma DistinctAreListed(records: seq<Record>)
    requires DistinctNames(records)
    ensures forall r :: r in records ==> r.name in Index(records) && Index(records)[r.name] == r
  {
    forall r | r in records ensures r.name in Index(records) && Index(records)[r.name] == r {
      var i :| 0 <= i < |records| && records[i] == r;
      assert Listed(records, r);
      IndexFinds(records, r);
    }
  }

  /** The verdict depends on the set of records only, not on the order in which they are listed. */
  lemma ClosureIgnoresOrder(a: seq<Record>, b: seq<Record>, canonical: string -> string, extras: seq<string>)
    requires DistinctNames(a) && DistinctNames(b) && forall r :: r in a <==> r in b
    ensures Closed(a, canonical, extras) <==> Closed(b, canonical, extras)
  {
    DistinctAreListed(a);
    DistinctAreListed(b);
    assert Index(a) == Index(b) by {
      forall name | name in Index(a) ensures name in Index(b) && Index(a)[name] == Index(b)[name] {
        var r :| r in a && r.name == name;
        assert r in b;
      }
      forall name | name in Index(b) ensures name in Index(a) {
        var r :| r in b && r.name == name;
        assert r in a;
      }
    }
    assert forall n :: Root(a, extras, n) <==> Root(b, extras, n);
    assert forall n :: Reachable(a, canonical, extras, n) <==> Reachable(b, canonical, extras, n);
  }
}
