/**
 The bounded reasoning graph. The language model, the page graph and the
 verifier are arbitrary: an event carries whatever they answered at that step,
 and every theorem is about every sequence of events.
 */
module Reasoning {
  import opened Wrappers

  const MAX_ITERATIONS := 7
  const NONE := "NONE"
  const ACCEPT := "ACCEPT"
  const REFUSAL := "I don't know based on the provided knowledge set."

  datatype Decision = Decision(answer: string, nextLead: string)

  datatype Neighbour = Neighbour(title: string, url: string)

  /** A vector match, and the neighbours that were read before the graph failed, if it did. */
  datatype Match = Match(url: string, section: string, neighbours: seq<Neighbour>)

  datatype Node = Seeding | Deciding | Exploring | Verifying | Synthesizing | End | Raised

  datatype State = State(
    node: Node,
    knowledge: string,
    candidates: seq<string>,
    visited: set<string>,
    path: seq<string>,
    iterations: nat,
    decision: Decision,
    finalAnswer: Option<string>)

  /** What the outside world answered to one node. */
  datatype Event =
    | Seeded(matches: seq<Match>)
    | Decided(decision: Decision)
    | Explored(section: string, neighbours: seq<Neighbour>)
    | Verified(verdict: string)
    | Synthesized(answer: string, verdict: string)

  // ----- Lists without repetitions -----

  ghost predicate NoRepeats<T>(s: seq<T>) {
    forall i, j :: 0 <= i < j < |s| ==> s[i] != s[j]
  }

  ghost function Elements<T>(s: seq<T>): set<T> {
    set x | x in s
  }

  lemma AppendKeeps<T>(s: seq<T>, x: T)
    ensures Elements(s + [x]) == Elements(s) + {x}
    ensures NoRepeats(s) && x !in s ==> NoRepeats(s + [x])
  {
  }

  // ----- The nodes that gather pages -----

  function Label(n: Neighbour): string {
    n.title + " (" + n.url + ")"
  }

  predicate Contains(s: string, part: string) {
    exists i | 0 <= i <= |s| :: part <= s[i..]
  }

  /** The candidates after the neighbours of a page were looked at in order. */
  function Offered(candidates: seq<string>, visited: set<string>, neighbours: seq<Neighbour>): seq<string> {
    if neighbours == [] then candidates else
      var before := Offered(candidates, visited, neighbours[..|neighbours| - 1]);
      var n := neighbours[|neighbours| - 1];
      if n.url !in visited && Label(n) !in before then before + [Label(n)] else before
  }

  /** Offering adds exactly the labels of pages not visited, once each, behind what was there. */
  lemma {:induction false} OfferedMeans(candidates: seq<string>, visited: set<string>, neighbours: seq<Neighbour>)
    ensures candidates <= Offered(candidates, visited, neighbours)
    ensures Elements(Offered(candidates, visited, neighbours)) ==
      Elements(candidates) + set n | n in neighbours && n.url !in visited :: Label(n)
    ensures NoRepeats(candidates) ==> NoRepeats(Offered(candidates, visited, neighbours))
  {
    if neighbours != [] {
      var most, n := neighbours[..|neighbours| - 1], neighbours[|neighbours| - 1];
      assert neighbours == most + [n];
      OfferedMeans(candidates, visited, most);
      AppendKeeps(Offered(candidates, visited, most), Label(n));
    }
  }

  method OfferNeighbours(candidates: seq<string>, visited: set<string>, neighbours: seq<Neighbour>)
    returns (result: seq<string>)
    ensures result == Offered(candidates, visited, neighbours)
  {
    result := candidates;
    for i := 0 to |neighbours|
      invariant result == Offered(candidates, visited, neighbours[..i])
    {
      assert neighbours[..i + 1][..i] == neighbours[..i];
      var candidate := Label(neighbours[i]);
      if neighbours[i].url !in visited && candidate !in result {
        result := result + [candidate];
      }
    }
    assert neighbours[..|neighbours|] == neighbours;
  }

  datatype Seed = Seed(sections: seq<string>, candidates: seq<string>, visited: set<string>, path: seq<string>)

  /** What the matches leave behind; a match without a page or with a page already seen is skipped. */
  function Seeds(matches: seq<Match>): Seed {
    if matches == [] then Seed([], [], {}, []) else
      var before := Seeds(matches[..|matches| - 1]);
      var m := matches[|matches| - 1];
      if m.url == "" || m.url in before.visited then before else
        Seed(before.sections + [m.section],
             Offered(before.candidates, before.visited + {m.url}, m.neighbours),
             before.visited + {m.url}, before.path + [m.url])
  }

  /** Match j is the first of its page. */
  predicate FirstOfItsPage(matches: seq<Match>, j: nat)
    requires j < |matches|
  {
    matches[j].url != "" && forall k | 0 <= k < j :: matches[k].url != matches[j].url
  }

  lemma FirstOfMore(matches: seq<Match>, m: Match, j: nat)
    requires j < |matches|
    ensures FirstOfItsPage(matches + [m], j) <==> FirstOfItsPage(matches, j)
  {
    var all := matches + [m];
    assert forall k :: 0 <= k <= j ==> all[k] == matches[k];
  }

  /** What the first match of each page contributes: its section, and the neighbours that are visited by none. */
  lemma {:induction false} SeedsGather(matches: seq<Match>)
    ensures var seed := Seeds(matches);
      && |seed.path| == |seed.sections|
      && (forall i :: 0 <= i < |seed.path| ==> exists j ::
            && 0 <= j < |matches| && FirstOfItsPage(matches, j)
            && matches[j].url == seed.path[i] && matches[j].section == seed.sections[i])
      && forall j, n :: 0 <= j < |matches| && FirstOfItsPage(matches, j) && n in matches[j].neighbours ==>
           n.url in seed.visited || Label(n) in seed.candidates
  {
    if matches != [] {
      var most, m := matches[..|matches| - 1], matches[|matches| - 1];
      var before, seed := Seeds(most), Seeds(matches);
      assert matches == most + [m];
      SeedsGather(most);
      SeedsMean(most);
      OfferedMeans(before.candidates, before.visited + {m.url}, m.neighbours);
      forall i | 0 <= i < |seed.path|
        ensures exists j ::
          && 0 <= j < |matches| && FirstOfItsPage(matches, j)
          && matches[j].url == seed.path[i] && matches[j].section == seed.sections[i]
      {
        if i < |before.path| {
          var j :| 0 <= j < |most| && FirstOfItsPage(most, j)
            && most[j].url == before.path[i] && most[j].section == before.sections[i];
          FirstOfMore(most, m, j);
        } else {
          assert forall k :: 0 <= k < |most| ==> matches[k] == most[k] && most[k] in most;
          assert FirstOfItsPage(matches, |most|);
        }
      }
      forall j, n | 0 <= j < |matches| && FirstOfItsPage(matches, j) && n in matches[j].neighbours
        ensures n.url in seed.visited || Label(n) in seed.candidates
      {
        if j < |most| {
          FirstOfMore(most, m, j);
          assert Label(n) in Elements(before.candidates) ==> Label(n) in Elements(seed.candidates);
        } else {
          NewPage(most, m);
          assert n.url !in seed.visited ==> Label(n) in Elements(seed.candidates);
        }
      }
    }
  }

  lemma NewPage(most: seq<Match>, m: Match)
    requires FirstOfItsPage(most + [m], |most|)
    ensures m.url != "" && m.url !in Seeds(most).visited
  {
    SeedsMean(most);
    var all := most + [m];
    forall x | x in most ensures x.url != m.url {
      var k :| 0 <= k < |most| && most[k] == x;
      assert all[k] == x && all[|most|] == m;
    }
  }

  lemma {:induction false} SeedsMean(matches: seq<Match>)
    ensures var seed := Seeds(matches);
      && NoRepeats(seed.path) && Elements(seed.path) == seed.visited
      && seed.visited == (set m | m in matches && m.url != "" :: m.url)
      && NoRepeats(seed.candidates) && |seed.path| == |seed.sections| <= |matches|
  {
    if matches != [] {
      var most, m := matches[..|matches| - 1], matches[|matches| - 1];
      var before := Seeds(most);
      assert matches == most + [m];
      SeedsMean(most);
      AppendKeeps(before.path, m.url);
      OfferedMeans(before.candidates, before.visited + {m.url}, m.neighbours);
    }
  }

  method SeedRetrieval(matches: seq<Match>) returns (seed: Seed)
    ensures seed == Seeds(matches)
  {
    var sections, candidates, visited, path := [], [], {}, [];
    for i := 0 to |matches|
      invariant Seed(sections, candidates, visited, path) == Seeds(matches[..i])
    {
      assert matches[..i + 1][..i] == matches[..i];
      var m := matches[i];
      if m.url == "" || m.url in visited {
        continue;
      }
      visited := visited + {m.url};
      path := path + [m.url];
      sections := sections + [m.section];
      candidates := OfferNeighbours(candidates, visited, m.neighbours);
    }
    assert matches[..|matches|] == matches;
    return Seed(sections, candidates, visited, path);
  }

  /** The candidates that do not name the page in parentheses. */
  function Without(candidates: seq<string>, url: string): seq<string> {
    if candidates == [] then [] else
      var rest := Without(candidates[..|candidates| - 1], url);
      var c := candidates[|candidates| - 1];
      if Contains(c, "(" + url + ")") then rest else rest + [c]
  }

  lemma {:induction false} WithoutMeans(candidates: seq<string>, url: string)
    ensures Elements(Without(candidates, url)) == set c | c in candidates && !Contains(c, "(" + url + ")")
    ensures NoRepeats(candidates) ==> NoRepeats(Without(candidates, url))
  {
    if candidates != [] {
      var most, c := candidates[..|candidates| - 1], candidates[|candidates| - 1];
      assert candidates == most + [c];
      WithoutMeans(most, url);
      if !Contains(c, "(" + url + ")") {
        AppendKeeps(Without(most, url), c);
      }
    }
  }

  method ExploreLead(s: State, url: string, section: string, neighbours: seq<Neighbour>)
    returns (knowledge: string, candidates: seq<string>, visited: set<string>, path: seq<string>)
    ensures knowledge == s.knowledge + "\n\n" + section
    ensures candidates == Offered(Without(s.candidates, url), s.visited + {url}, neighbours)
    ensures visited == s.visited + {url} && path == s.path + [url]
  {
    knowledge, visited, path := s.knowledge + "\n\n" + section, s.visited + {url}, s.path + [url];
    candidates := [];
    for i := 0 to |s.candidates|
      invariant candidates == Without(s.candidates[..i], url)
    {
      assert s.candidates[..i + 1][..i] == s.candidates[..i];
      if !Contains(s.candidates[i], "(" + url + ")") {
        candidates := candidates + [s.candidates[i]];
      }
    }
    assert s.candidates[..|s.candidates|] == s.candidates;
    candidates := OfferNeighbours(candidates, visited, neighbours);
  }

  // ----- The graph -----

  function JoinSections(sections: seq<string>): string {
    if sections == [] then "" else if |sections| == 1 then sections[0] else
      JoinSections(sections[..|sections| - 1]) + "\n\n" + sections[|sections| - 1]
  }

  /**
   The router. `clean` turns a lead into the address of a page; None is the
   exception it raises for a lead that is a bare address.
   */
  function Route(s: State, clean: string -> Option<string>): Node {
    var url := clean(s.decision.nextLead);
    if url.None? then Raised
    else if s.iterations >= MAX_ITERATIONS then Synthesizing
    else if url.value in s.visited then Synthesizing
    else if s.decision.answer != NONE then Verifying
    else if s.decision.nextLead != NONE then Exploring
    else Synthesizing
  }

  const INITIAL := State(Seeding, "", [], {}, [], 0, Decision(NONE, NONE), None)

  predicate Answers(s: State, e: Event) {
    match s.node
    case Seeding => e.Seeded?
    case Deciding => e.Decided?
    case Exploring => e.Explored?
    case Verifying => e.Verified?
    case Synthesizing => e.Synthesized?
    case End => false
    case Raised => false
  }

  function Advance(s: State, e: Event, clean: string -> Option<string>): State
    requires Answers(s, e)
  {
    match e
    case Seeded(matches) =>
      var seed := Seeds(matches);
      s.(node := Deciding, knowledge := JoinSections(seed.sections), candidates := seed.candidates,
         visited := s.visited + seed.visited, path := s.path + seed.path, iterations := 0)
    case Decided(decision) =>
      var next := s.(decision := decision, iterations := s.iterations + 1);
      next.(node := Route(next, clean))
    case Explored(section, neighbours) =>
      var url := clean(s.decision.nextLead);
      if url.None? then s.(node := Raised) else
        s.(node := Deciding, knowledge := s.knowledge + "\n\n" + section,
           candidates := Offered(Without(s.candidates, url.value), s.visited + {url.value}, neighbours),
           visited := s.visited + {url.value}, path := s.path + [url.value])
    case Verified(verdict) =>
      if verdict == ACCEPT then s.(node := End, finalAnswer := Some(s.decision.answer))
      else s.(node := Deciding, finalAnswer := None)
    case Synthesized(answer, verdict) =>
      s.(node := End, finalAnswer := Some(if verdict == ACCEPT then answer else REFUSAL))
  }

  /** The state after a run, or None when the events do not fit the graph. */
  function After(events: seq<Event>, clean: string -> Option<string>): Option<State> {
    if events == [] then Some(INITIAL) else
      var before := After(events[..|events| - 1], clean);
      var e := events[|events| - 1];
      if before.Some? && Answers(before.value, e) then Some(Advance(before.value, e, clean)) else None
  }

  /** What the caller of the workflow is given: no answer and an empty answer are both the refusal. */
  function Answer(s: State): string {
    if s.finalAnswer.None? || s.finalAnswer.value == "" then REFUSAL else s.finalAnswer.value
  }

  // ----- Bounds -----

  function Decisions(events: seq<Event>): nat {
    if events == [] then 0 else
      Decisions(events[..|events| - 1]) + if events[|events| - 1].Decided? then 1 else 0
  }

  function Explorations(events: seq<Event>): nat {
    if events == [] then 0 else
      Explorations(events[..|events| - 1]) + if events[|events| - 1].Explored? then 1 else 0
  }

  /** An upper bound on the steps that can still follow. */
  function Remaining(s: State): int {
    match s.node
    case Seeding => 2 * MAX_ITERATIONS + 1
    case Deciding => 2 * (MAX_ITERATIONS - s.iterations)
    case Exploring => 2 * (MAX_ITERATIONS - s.iterations) + 1
    case Verifying => 2 * (MAX_ITERATIONS - s.iterations) + 1
    case Synthesizing => 1
    case End => 0
    case Raised => 0
  }

  predicate Bounded(s: State) {
    match s.node
    case Seeding => s.iterations == 0
    case Deciding => s.iterations < MAX_ITERATIONS
    case Exploring => 0 < s.iterations < MAX_ITERATIONS
    case Verifying => 0 < s.iterations < MAX_ITERATIONS
    case Synthesizing => s.iterations <= MAX_ITERATIONS
    case End => s.iterations <= MAX_ITERATIONS
    case Raised => s.iterations <= MAX_ITERATIONS
  }

  /** How many explorations the decisions so far can have led to. */
  function Led(s: State): int {
    if s.node in {Exploring, Verifying, Synthesizing, Raised} then s.iterations - 1 else s.iterations
  }

  lemma {:induction false} RunIsBounded(events: seq<Event>, clean: string -> Option<string>)
    requires After(events, clean).Some?
    ensures var s := After(events, clean).value;
      && Bounded(s) && 0 <= Remaining(s) && |events| + Remaining(s) <= 2 * MAX_ITERATIONS + 1
      && Decisions(events) == s.iterations
      && (s.node != End ==> Explorations(events) <= Led(s))
      && (s.node == End ==> Explorations(events) < MAX_ITERATIONS)
  {
    if events != [] {
      RunIsBounded(events[..|events| - 1], clean);
    }
  }

  /**
   Every run ends: after at most fifteen steps, seven decisions and six
   explorations, whatever the model, the graph and the verifier answer.
   */
  lemma EveryRunEnds(events: seq<Event>, clean: string -> Option<string>)
    requires After(events, clean).Some?
    ensures |events| <= 15 && Decisions(events) <= 7 && Explorations(events) <= 6
    ensures |events| == 15 ==> After(events, clean).value.node in {End, Raised}
  {
    RunIsBounded(events, clean);
  }

  function SomeEvent(node: Node): Event {
    match node
    case Seeding => Seeded([])
    case Deciding => Decided(Decision(NONE, NONE))
    case Exploring => Explored("", [])
    case Verifying => Verified(ACCEPT)
    case _ => Synthesized("", ACCEPT)
  }

  lemma OneMore(events: seq<Event>, e: Event, clean: string -> Option<string>)
    requires After(events, clean).Some? && Answers(After(events, clean).value, e)
    ensures After(events + [e], clean) == Some(Advance(After(events, clean).value, e, clean))
  {
    var all := events + [e];
    assert all[..|all| - 1] == events && all[|all| - 1] == e;
  }

  /** A run stops only at the end or at the exception of the router. */
  lemma NeverStuck(events: seq<Event>, clean: string -> Option<string>) returns (e: Event)
    requires After(events, clean).Some? && After(events, clean).value.node !in {End, Raised}
    ensures After(events + [e], clean).Some?
  {
    var s := After(events, clean).value;
    e := SomeEvent(s.node);
    assert Answers(s, e);
    OneMore(events, e, clean);
  }

  // ----- Pages -----

  /** The path has no repetitions and lists exactly the visited pages, and the router never explores one twice. */
  ghost predicate PathInv(s: State, clean: string -> Option<string>) {
    && NoRepeats(s.path) && Elements(s.path) == s.visited && NoRepeats(s.candidates)
    && (s.node == Seeding ==> s == INITIAL)
    && (s.node == Exploring ==>
          clean(s.decision.nextLead).Some? && clean(s.decision.nextLead).value !in s.visited)
  }

  lemma AdvanceKeepsPath(s: State, e: Event, clean: string -> Option<string>)
    requires PathInv(s, clean) && Answers(s, e)
    ensures PathInv(Advance(s, e, clean), clean)
  {
    match e
    case Seeded(matches) =>
      SeedsMean(matches);
      assert s.path + Seeds(matches).path == Seeds(matches).path;
    case Explored(section, neighbours) =>
      var url := clean(s.decision.nextLead).value;
      AppendKeeps(s.path, url);
      WithoutMeans(s.candidates, url);
      OfferedMeans(Without(s.candidates, url), s.visited + {url}, neighbours);
    case _ =>
  }

  lemma PathListsTheVisitedPagesOnce(events: seq<Event>, clean: string -> Option<string>)
    requires After(events, clean).Some?
    ensures PathInv(After(events, clean).value, clean)
    ensures |After(events, clean).value.path| <= SeedCount(events) + 6
  {
    PathInvHolds(events, clean);
    PathLength(events, clean);
    RunIsBounded(events, clean);
  }

  lemma {:induction false} PathInvHolds(events: seq<Event>, clean: string -> Option<string>)
    requires After(events, clean).Some?
    ensures PathInv(After(events, clean).value, clean)
  {
    if events != [] {
      PathInvHolds(events[..|events| - 1], clean);
      AdvanceKeepsPath(After(events[..|events| - 1], clean).value, events[|events| - 1], clean);
    }
  }

  function SeedCount(events: seq<Event>): nat {
    if events == [] || !events[0].Seeded? then 0 else |events[0].matches|
  }

  lemma {:induction false} PathLength(events: seq<Event>, clean: string -> Option<string>)
    requires After(events, clean).Some?
    ensures var s := After(events, clean).value;
      if events == [] then s == INITIAL
      else s.node != Seeding && |s.path| <= SeedCount(events) + Explorations(events)
  {
    if events != [] {
      var most, e := events[..|events| - 1], events[|events| - 1];
      PathLength(most, clean);
      if most == [] {
        SeedsMean(e.matches);
      } else {
        assert most[0] == events[0];
      }
    }
  }

  // ----- Knowledge -----

  /** The sections behind one another, each behind an empty line. */
  function Trail(sections: seq<string>): string {
    if sections == [] then "" else Trail(sections[..|sections| - 1]) + "\n\n" + sections[|sections| - 1]
  }

  lemma TrailGrows(sections: seq<string>, section: string)
    ensures Trail(sections + [section]) == Trail(sections) + "\n\n" + section
  {
    assert (sections + [section])[..|sections|] == sections;
  }

  /** The sections of the pages that were explored, in the order of the run. */
  function ExploredSections(events: seq<Event>): seq<string> {
    if events == [] then [] else
      var before, e := ExploredSections(events[..|events| - 1]), events[|events| - 1];
      if e.Explored? then before + [e.section] else before
  }

  lemma AdvanceGathers(s: State, e: Event, clean: string -> Option<string>, seeded: string, trail: string)
    requires PathInv(s, clean) && Answers(s, e) && s.node != Seeding && s.knowledge == seeded + trail
    ensures Advance(s, e, clean).node != Seeding
    ensures Advance(s, e, clean).knowledge == seeded + (if e.Explored? then trail + "\n\n" + e.section else trail)
  {
    if e.Explored? {
      assert seeded + trail + "\n\n" + e.section == seeded + (trail + "\n\n" + e.section);
    }
  }

  /**
   The knowledge is all that was gathered and nothing else: the sections of the
   seed, then those of the pages explored, in the order of the run.
   */
  lemma {:induction false} KnowledgeIsWhatWasGathered(events: seq<Event>, clean: string -> Option<string>)
    requires After(events, clean).Some?
    ensures var s := After(events, clean).value;
      if events == [] then s == INITIAL
      else events[0].Seeded? && s.node != Seeding
           && s.knowledge == JoinSections(Seeds(events[0].matches).sections) + Trail(ExploredSections(events))
  {
    if events != [] {
      var most, e := events[..|events| - 1], events[|events| - 1];
      KnowledgeIsWhatWasGathered(most, clean);
      if most == [] {
        assert ExploredSections(events) == [] && Trail([]) == "";
      } else {
        var seeded := JoinSections(Seeds(most[0].matches).sections);
        PathInvHolds(most, clean);
        AdvanceGathers(After(most, clean).value, e, clean, seeded, Trail(ExploredSections(most)));
        if e.Explored? {
          TrailGrows(ExploredSections(most), e.section);
        }
      }
    }
  }

  lemma {:induction false} TrailContains(sections: seq<string>, i: nat)
    requires i < |sections|
    ensures Contains(Trail(sections), sections[i])
  {
    var most, last := sections[..|sections| - 1], sections[|sections| - 1];
    if i == |sections| - 1 {
      ContainedBehind(Trail(most) + "\n\n", last);
    } else {
      TrailContains(most, i);
      StillContained(Trail(most), "\n\n" + last, sections[i]);
      assert Trail(sections) == Trail(most) + ("\n\n" + last);
    }
  }

  lemma {:induction false} JoinContains(sections: seq<string>, i: nat)
    requires i < |sections|
    ensures Contains(JoinSections(sections), sections[i])
  {
    var most, last := sections[..|sections| - 1], sections[|sections| - 1];
    if |sections| == 1 {
      ContainedBehind("", last);
      assert "" + last == last;
    } else if i == |sections| - 1 {
      ContainedBehind(JoinSections(most) + "\n\n", last);
    } else {
      JoinContains(most, i);
      StillContained(JoinSections(most), "\n\n" + last, sections[i]);
      assert JoinSections(sections) == JoinSections(most) + ("\n\n" + last);
    }
  }

  lemma ContainedBehind(front: string, part: string)
    ensures Contains(front + part, part)
  {
    assert (front + part)[|front|..] == part;
  }

  lemma StillContained(s: string, more: string, part: string)
    requires Contains(s, part)
    ensures Contains(s + more, part)
  {
    var i :| 0 <= i <= |s| && part <= s[i..];
    assert (s + more)[i..] == s[i..] + more;
  }

  lemma {:induction false} SectionsAreListed(events: seq<Event>, k: nat)
    requires k < |events| && events[k].Explored?
    ensures events[k].section in ExploredSections(events)
  {
    if k < |events| - 1 {
      SectionsAreListed(events[..|events| - 1], k);
    }
  }

  /** Whatever the model and the verifier are shown holds the text of every seeded and every explored page. */
  lemma EveryPageIsKnown(events: seq<Event>, clean: string -> Option<string>, k: nat)
    requires After(events, clean).Some? && k < |events|
    ensures events[k].Explored? ==> Contains(After(events, clean).value.knowledge, events[k].section)
    ensures events[k].Seeded? ==> forall section <- Seeds(events[k].matches).sections ::
      Contains(After(events, clean).value.knowledge, section)
  {
    KnowledgeIsWhatWasGathered(events, clean);
    SeededFirst(events, clean, k);
    var seeded, trail := JoinSections(Seeds(events[0].matches).sections), Trail(ExploredSections(events));
    if events[k].Explored? {
      SectionsAreListed(events, k);
      var i :| 0 <= i < |ExploredSections(events)| && ExploredSections(events)[i] == events[k].section;
      TrailContains(ExploredSections(events), i);
      BehindMore(seeded, trail, events[k].section);
    }
    if events[k].Seeded? {
      var sections := Seeds(events[0].matches).sections;
      forall section | section in sections ensures Contains(seeded + trail, section) {
        var i :| 0 <= i < |sections| && sections[i] == section;
        JoinContains(sections, i);
        StillContained(seeded, trail, section);
      }
    }
  }

  lemma BehindMore(front: string, s: string, part: string)
    requires Contains(s, part)
    ensures Contains(front + s, part)
  {
    var i :| 0 <= i <= |s| && part <= s[i..];
    assert (front + s)[|front| + i..] == s[i..];
  }

  lemma {:induction false} SeededFirst(events: seq<Event>, clean: string -> Option<string>, k: nat)
    requires After(events, clean).Some? && k < |events|
    ensures events[k].Seeded? ==> k == 0
  {
    var most := events[..|events| - 1];
    if k < |most| {
      SeededFirst(most, clean, k);
    } else {
      KnowledgeIsWhatWasGathered(most, clean);
    }
  }

  // ----- Where a decision leads -----

  /**
   An answer, with a lead to a page not seen, that comes before the seventh
   decision is put to the verifier with all that is known. Accepted, it is the
   answer; rejected, the model decides again and knows no less.
   */
  lemma AnAnswerIsVerified(events: seq<Event>, clean: string -> Option<string>, d: Decision, verdict: string)
    requires After(events, clean).Some? && After(events, clean).value.node == Deciding
    requires Decisions(events) < 6 && d.answer != "NONE"
    requires clean(d.nextLead).Some? && clean(d.nextLead).value !in After(events, clean).value.visited
    ensures var s := After(events, clean).value;
      After(events + [Decided(d)] + [Verified(verdict)], clean) ==
        Some(s.(node := if verdict == "ACCEPT" then End else Deciding, iterations := s.iterations + 1, decision := d,
                finalAnswer := if verdict == "ACCEPT" then Some(d.answer) else None))
  {
    RunIsBounded(events, clean);
    OneMore(events, Decided(d), clean);
    OneMore(events + [Decided(d)], Verified(verdict), clean);
  }

  /** Without an answer such a lead is explored: the page is visited and its section is known from then on. */
  lemma ALeadIsExplored(
    events: seq<Event>, clean: string -> Option<string>, lead: string, section: string, neighbours: seq<Neighbour>)
    requires After(events, clean).Some? && After(events, clean).value.node == Deciding
    requires Decisions(events) < 6 && lead != "NONE"
    requires clean(lead).Some? && clean(lead).value !in After(events, clean).value.visited
    ensures var all := events + [Decided(Decision("NONE", lead))] + [Explored(section, neighbours)];
      && After(all, clean).Some?
      && var (s, next, url) := (After(events, clean).value, After(all, clean).value, clean(lead).value);
      && next.node == Deciding && next.iterations == s.iterations + 1
      && next.knowledge == s.knowledge + "\n\n" + section
      && next.visited == s.visited + {url} && next.path == s.path + [url]
      && (forall c :: c in next.candidates <==>
            || (c in s.candidates && !Contains(c, "(" + url + ")"))
            || exists n <- neighbours :: n.url !in next.visited && c == Label(n))
  {
    RunIsBounded(events, clean);
    OneMore(events, Decided(Decision("NONE", lead)), clean);
    OneMore(events + [Decided(Decision("NONE", lead))], Explored(section, neighbours), clean);
    var s, url := After(events, clean).value, clean(lead).value;
    WithoutMeans(s.candidates, url);
    OfferedMeans(Without(s.candidates, url), s.visited + {url}, neighbours);
    var kept, offered := Without(s.candidates, url), Offered(Without(s.candidates, url), s.visited + {url}, neighbours);
    forall c ensures c in offered <==>
      || (c in s.candidates && !Contains(c, "(" + url + ")"))
      || exists n <- neighbours :: n.url !in s.visited + {url} && c == Label(n)
    {
      assert c in offered <==> c in Elements(offered);
      assert c in kept <==> c in Elements(kept);
    }
  }

  /** The seventh decision, a lead to a page seen before, or neither answer nor lead: the fallback has the last word. */
  lemma AnythingElseFallsBack(
    events: seq<Event>, clean: string -> Option<string>, d: Decision, answer: string, verdict: string)
    requires After(events, clean).Some? && After(events, clean).value.node == Deciding && clean(d.nextLead).Some?
    requires Decisions(events) == 6 || clean(d.nextLead).value in After(events, clean).value.visited
             || (d.answer == "NONE" && d.nextLead == "NONE")
    ensures var s := After(events, clean).value;
      After(events + [Decided(d)] + [Synthesized(answer, verdict)], clean) ==
        Some(s.(node := End, iterations := s.iterations + 1, decision := d,
                finalAnswer := Some(if verdict == "ACCEPT" then answer else REFUSAL)))
  {
    RunIsBounded(events, clean);
    OneMore(events, Decided(d), clean);
    OneMore(events + [Decided(d)], Synthesized(answer, verdict), clean);
  }

  // ----- Answers -----

  /** By event e the verifier accepted the answer of `next` against the knowledge of `next`. */
  predicate Accepted(s: State, e: Event, next: State) {
    && next.knowledge == s.knowledge
    && (|| (e == Verified(ACCEPT) && s.node == Verifying && s.decision.answer == Answer(next) != NONE)
        || (e == Synthesized(Answer(next), ACCEPT) && s.node == Synthesizing))
  }

  predicate AsksAboutAnAnswer(s: State) {
    s.node == Verifying ==> s.decision.answer != NONE
  }

  lemma {:induction false} VerifiesOnlyAnswers(events: seq<Event>, clean: string -> Option<string>)
    requires After(events, clean).Some?
    ensures AsksAboutAnAnswer(After(events, clean).value)
  {
    if events != [] {
      VerifiesOnlyAnswers(events[..|events| - 1], clean);
    }
  }

  lemma LastStepAccepts(s: State, e: Event, clean: string -> Option<string>)
    requires Answers(s, e) && AsksAboutAnAnswer(s) && Advance(s, e, clean).node == End
    ensures var next := Advance(s, e, clean);
      next.finalAnswer.Some? && (Answer(next) == REFUSAL || Accepted(s, e, next))
  {
  }

  /**
   The answer given to the caller was accepted by the verifier in the last
   step, against exactly the knowledge that is returned with it, or it is the
   fixed refusal.
   */
  lemma FinalAnswerIsAcceptedOrRefused(events: seq<Event>, clean: string -> Option<string>)
    returns (before: State, last: Event)
    requires After(events, clean).Some? && After(events, clean).value.node == End
    ensures events != [] && After(events[..|events| - 1], clean) == Some(before) && events[|events| - 1] == last
    ensures After(events, clean).value.finalAnswer.Some?
    ensures Answer(After(events, clean).value) == REFUSAL || Accepted(before, last, After(events, clean).value)
  {
    assert events != [];
    before, last := After(events[..|events| - 1], clean).value, events[|events| - 1];
    VerifiesOnlyAnswers(events[..|events| - 1], clean);
    LastStepAccepts(before, last, clean);
  }
}
