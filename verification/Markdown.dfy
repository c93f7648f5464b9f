/**
 The structural splitter of Markdown documents. Its segments cover every line
 that is not blank exactly once, and their locators name exactly those lines.
 */
module Markdown {
  import opened Wrappers
  import opened PythonText

  datatype Failure = EmptyDocument | ParserLimit

  /** Line numbers count from one and both ends are included; `under` is the heading in force. */
  datatype Locator =
    | HeadingAt(title: string, line: nat)
    | CodeBlock(first: nat, last: nat, under: Option<string>)
    | TableAt(first: nat, last: nat, under: Option<string>)
    | LinesAt(first: nat, last: nat, under: Option<string>)

  datatype Segment = Segment(text: string, locator: Locator)

  // ----- Classes of lines -----

  function HashRun(s: string): (n: nat)
    ensures n <= |s| && (forall i :: 0 <= i < n ==> s[i] == '#') && (n < |s| ==> s[n] != '#')
  {
    if s != "" && s[0] == '#' then 1 + HashRun(s[1..]) else 0
  }

  /** One to six hashes and a space: what ends a paragraph. */
  predicate HeadingStart(value: string) {
    1 <= HashRun(value) <= 6 && HashRun(value) < |value| && IsSpace(value[HashRun(value)])
  }

  predicate AllHashes(s: string) {
    forall i | 0 <= i < |s| :: s[i] == '#'
  }

  /** Spaces and then hashes up to the end. */
  predicate ClosingHashes(s: string) {
    exists k | 0 <= k <= |s| :: IsBlank(s[..k]) && AllHashes(s[k..])
  }

  /** Where the shortest title of at least t characters ends. */
  function TitleEnd(body: string, t: nat): (end: nat)
    requires 1 <= t <= |body|
    ensures t <= end <= |body|
    decreases |body| - t
  {
    if t == |body| || ClosingHashes(body[t..]) then t else TitleEnd(body, t + 1)
  }

  /** A title is followed by nothing but closing hashes, and no shorter one is. */
  lemma {:induction false} TitleIsShortest(body: string, t: nat)
    requires 1 <= t <= |body|
    ensures ClosingHashes(body[TitleEnd(body, t)..])
    ensures forall k :: t <= k < TitleEnd(body, t) ==> !ClosingHashes(body[k..])
    decreases |body| - t
  {
    if t == |body| {
      var none := body[t..];
      assert IsBlank(none[..0]) && AllHashes(none[0..]);
    } else if !ClosingHashes(body[t..]) {
      TitleIsShortest(body, t + 1);
    }
  }

  /** The title of a stripped heading line. */
  function Title(value: string): Option<string> {
    if !HeadingStart(value) then None else
      var rest := value[HashRun(value)..];
      var body := rest[SpaceRun(rest)..];
      if body == "" then None else Some(Strip(body[..TitleEnd(body, 1)]))
  }

  /** A stripped line that starts like a heading is one, so the two tests of the splitter agree. */
  lemma HeadingTestsAgree(line: string)
    ensures Title(Strip(line)).Some? <==> HeadingStart(Strip(line))
  {
    var a, b := StripSlices(line);
    var value := Strip(line);
    if HeadingStart(value) {
      var k := HashRun(value);
      var rest := value[k..];
      assert value == line[a..b] && value[|value| - 1] == line[b - 1];
      assert rest[|rest| - 1] == value[|value| - 1];
      assert SpaceRun(rest) < |rest|;
    }
  }

  predicate IsFence(line: string) {
    StartsWith(Strip(line), "```") || StartsWith(Strip(line), "~~~")
  }

  predicate HasPipe(line: string) {
    '|' in line
  }

  /** A line that continues a paragraph. */
  predicate IsPlain(line: string) {
    Strip(line) != "" && !IsFence(line) && !HeadingStart(Strip(line)) && !HasPipe(line)
  }

  predicate IsRow(line: string) {
    Strip(line) != "" && HasPipe(line)
  }

  /** The classes of lines, character by character. */
  lemma LineClassesMean(line: string)
    ensures var v := Strip(line);
      HeadingStart(v) <==>
        exists n :: 1 <= n <= 6 && n < |v| && IsSpace(v[n]) && forall i :: 0 <= i < n ==> v[i] == '#'
    ensures var v := Strip(line);
      IsFence(line) <==> |v| >= 3 && v[0] == v[1] == v[2] && (v[0] == '`' || v[0] == '~')
    ensures HasPipe(line) <==> exists i :: 0 <= i < |line| && line[i] == '|'
  {
    var v := Strip(line);
    HashRunIsWhole(v);
    FenceMeans(v, "```", '`');
    FenceMeans(v, "~~~", '~');
  }

  lemma HashRunIsWhole(v: string)
    ensures forall n :: 0 <= n < |v| && v[n] != '#' && (forall i :: 0 <= i < n ==> v[i] == '#') ==> n == HashRun(v)
  {
  }

  lemma FenceMeans(v: string, mark: string, c: char)
    requires |mark| == 3 && mark[0] == mark[1] == mark[2] == c
    ensures StartsWith(v, mark) <==> |v| >= 3 && v[0] == v[1] == v[2] == c
  {
    if |v| >= 3 && v[0] == v[1] == v[2] == c {
      assert v[..3] == mark;
    }
    if StartsWith(v, mark) {
      assert forall i :: 0 <= i < 3 ==> v[i] == mark[i];
    }
  }

  /**
   A heading as it is written: one to six hashes, a space or more, the title, and
   perhaps spaces and closing hashes. Its title is read back.
   */
  lemma HeadingReadsBack(hashes: string, gap: string, title: string, spaces: string, closing: string)
    requires 1 <= |hashes| <= 6 && AllHashes(hashes) && gap != "" && IsBlank(gap)
    requires title != "" && !IsSpace(title[0]) && !IsSpace(title[|title| - 1]) && title[|title| - 1] != '#'
    requires IsBlank(spaces) && AllHashes(closing)
    ensures Title(hashes + gap + title + spaces + closing) == Some(title)
  {
    var back := spaces + closing;
    assert hashes + gap + title + spaces + closing == hashes + (gap + (title + back));
    TitleOfBody(hashes, gap, title + back);
    TitleEndsBefore(title, back, spaces, closing);
    assert (title + back)[..|title|] == title;
    TightTextIsStripped(title);
  }

  lemma TitleOfBody(hashes: string, gap: string, body: string)
    requires 1 <= |hashes| <= 6 && AllHashes(hashes) && gap != "" && IsBlank(gap) && body != "" && !IsSpace(body[0])
    ensures Title(hashes + (gap + body)) == Some(Strip(body[..TitleEnd(body, 1)]))
  {
    var rest := gap + body;
    var value := hashes + rest;
    assert rest[0] == gap[0];
    HashRunOf(hashes, rest);
    assert value[|hashes|] == rest[0] && value[|hashes|..] == rest;
    SpaceRunIs(gap, body);
    assert rest[|gap|..] == body;
  }

  lemma {:induction false} HashRunOf(hashes: string, rest: string)
    requires AllHashes(hashes) && (rest == "" || rest[0] != '#')
    ensures HashRun(hashes + rest) == |hashes|
  {
    if hashes != "" {
      assert (hashes + rest)[1..] == hashes[1..] + rest;
      HashRunOf(hashes[1..], rest);
    } else {
      assert hashes + rest == rest;
    }
  }

  lemma TitleEndsBefore(title: string, back: string, spaces: string, closing: string)
    requires title != "" && !IsSpace(title[|title| - 1]) && title[|title| - 1] != '#'
    requires back == spaces + closing && IsBlank(spaces) && AllHashes(closing)
    ensures TitleEnd(title + back, 1) == |title|
  {
    var body := title + back;
    TitleIsShortest(body, 1);
    assert body[|title|..] == back && back[..|spaces|] == spaces && back[|spaces|..] == closing;
    assert ClosingHashes(body[|title|..]);
    if TitleEnd(body, 1) < |title| {
      LastCharacterStays(title, back, TitleEnd(body, 1));
    }
  }

  /** What leaves a character that is neither a space nor a hash is not only a closing. */
  lemma LastCharacterStays(title: string, back: string, t: nat)
    requires t < |title| && !IsSpace(title[|title| - 1]) && title[|title| - 1] != '#'
    ensures !ClosingHashes((title + back)[t..])
  {
    var s, n := (title + back)[t..], |title| - 1 - t;
    assert s[n] == title[|title| - 1];
    forall k | 0 <= k <= |s| ensures !(IsBlank(s[..k]) && AllHashes(s[k..])) {
      if n < k {
        assert s[..k][n] == s[n];
      } else {
        assert s[k..][n - k] == s[n];
      }
    }
  }

  // ----- What a segment may be -----

  function First(s: Segment): nat {
    if s.locator.HeadingAt? then s.locator.line else s.locator.first
  }

  function Last(s: Segment): nat {
    if s.locator.HeadingAt? then s.locator.line else s.locator.last
  }

  predicate Closes(line: string, marker: string) {
    StartsWith(Strip(line), marker)
  }

  /** Lines [a, b) open with a fence and run to the first line that closes it, or to the end. */
  ghost predicate FencedBlock(lines: seq<string>, a: nat, b: nat) {
    && a < b <= |lines| && IsFence(lines[a])
    && var marker := Strip(lines[a])[..3];
    && (forall p :: a < p < b - 1 ==> !Closes(lines[p], marker))
    && (b < |lines| ==> a < b - 1 && Closes(lines[b - 1], marker))
  }

  /** A maximal run of table rows. */
  ghost predicate TableBlock(lines: seq<string>, a: nat, b: nat) {
    && a < b <= |lines| && (forall p :: a <= p < b ==> IsRow(lines[p]))
    && (b < |lines| ==> !IsRow(lines[b]))
  }

  /** A maximal run of plain lines. */
  ghost predicate TextBlock(lines: seq<string>, a: nat, b: nat) {
    && a < b <= |lines| && (forall p :: a <= p < b ==> IsPlain(lines[p]))
    && (b < |lines| ==> !IsPlain(lines[b]))
  }

  ghost predicate SegmentOk(lines: seq<string>, s: Segment, heading: Option<string>) {
    && 1 <= First(s) <= Last(s) <= |lines|
    && var a, b := First(s) - 1, Last(s);
    && Strip(lines[a]) != ""
    && match s.locator
       case HeadingAt(title, _) => Title(Strip(lines[a])) == Some(title) && s.text == title
       case CodeBlock(_, _, under) =>
         && under == heading && FencedBlock(lines, a, b) && !HeadingStart(Strip(lines[a]))
        && s.text == JoinLines(lines[a..b])
       case TableAt(_, _, under) =>
         && under == heading && TableBlock(lines, a, b) && !HeadingStart(Strip(lines[a])) && !IsFence(lines[a])
         && s.text == JoinLines(lines[a..b])
       case LinesAt(_, _, under) => under == heading && TextBlock(lines, a, b) && s.text == JoinLines(lines[a..b])
  }

  /** The title of the last heading among the first n segments. */
  function HeadingBefore(segments: seq<Segment>, n: nat): Option<string>
    requires n <= |segments|
  {
    if n == 0 then None
    else if segments[n - 1].locator.HeadingAt? then Some(segments[n - 1].locator.title)
    else HeadingBefore(segments, n - 1)
  }

  predicate Holds(s: Segment, p: nat) {
    First(s) - 1 <= p < Last(s)
  }

  ghost predicate WellFormed(lines: seq<string>, segments: seq<Segment>) {
    forall i {:trigger SegmentOk(lines, segments[i], HeadingBefore(segments, i))} :: 0 <= i < |segments| ==>
      SegmentOk(lines, segments[i], HeadingBefore(segments, i))
  }

  predicate InOrder(segments: seq<Segment>, upto: nat) {
    && (forall i, j :: 0 <= i < j < |segments| ==> Last(segments[i]) < First(segments[j]))
    && (forall i :: 0 <= i < |segments| ==> Last(segments[i]) <= upto)
  }

  ghost predicate Covered(lines: seq<string>, segments: seq<Segment>, upto: nat)
    requires upto <= |lines|
  {
    forall p :: 0 <= p < upto && Strip(lines[p]) != "" ==> exists s :: s in segments && Holds(s, p)
  }

  /** The segments are well formed, in order, disjoint, and hold every line before `upto` that is not blank. */
  ghost predicate Partitions(lines: seq<string>, segments: seq<Segment>, upto: nat) {
    upto <= |lines| && WellFormed(lines, segments) && InOrder(segments, upto) && Covered(lines, segments, upto)
  }

  lemma {:induction false} HeadingBeforeKept(segments: seq<Segment>, s: Segment, n: nat)
    requires n <= |segments|
    ensures HeadingBefore(segments + [s], n) == HeadingBefore(segments, n)
  {
    if n > 0 {
      HeadingBeforeKept(segments, s, n - 1);
    }
  }

  lemma AddWellFormed(lines: seq<string>, segments: seq<Segment>, s: Segment)
    requires WellFormed(lines, segments) && SegmentOk(lines, s, HeadingBefore(segments, |segments|))
    ensures WellFormed(lines, segments + [s])
  {
    var all := segments + [s];
    forall i | 0 <= i < |all| ensures SegmentOk(lines, all[i], HeadingBefore(all, i)) {
      HeadingBeforeKept(segments, s, i);
      if i < |segments| {
        assert all[i] == segments[i];
        assert SegmentOk(lines, segments[i], HeadingBefore(segments, i));
      }
    }
  }

  lemma AddCovered(lines: seq<string>, segments: seq<Segment>, s: Segment, index: nat, next: nat)
    requires index < next <= |lines| && Covered(lines, segments, index)
    requires First(s) == index + 1 && Last(s) == next
    ensures Covered(lines, segments + [s], next)
  {
    var all := segments + [s];
    forall p | 0 <= p < next && Strip(lines[p]) != "" ensures exists x :: x in all && Holds(x, p) {
      if p < index {
        var x :| x in segments && Holds(x, p);
        assert x in all;
      } else {
        assert s in all && Holds(s, p);
      }
    }
  }

  /** Adding the block that starts at `index` and ends before `next`. */
  lemma AddSegment(lines: seq<string>, segments: seq<Segment>, s: Segment, index: nat, next: nat)
    requires Partitions(lines, segments, index) && index < next <= |lines|
    requires First(s) == index + 1 && Last(s) == next
    requires SegmentOk(lines, s, HeadingBefore(segments, |segments|))
    ensures Partitions(lines, segments + [s], next)
  {
    AddWellFormed(lines, segments, s);
    AddCovered(lines, segments, s, index, next);
  }

  lemma SkipBlank(lines: seq<string>, segments: seq<Segment>, index: nat)
    requires Partitions(lines, segments, index) && index < |lines| && Strip(lines[index]) == ""
    ensures Partitions(lines, segments, index + 1)
  {
  }

  // ----- The partition leaves no choice -----

  lemma SameFencedEnd(lines: seq<string>, a: nat, b: nat, c: nat)
    requires FencedBlock(lines, a, b) && FencedBlock(lines, a, c)
    ensures b == c
  {
  }

  lemma SameTableEnd(lines: seq<string>, a: nat, b: nat, c: nat)
    requires TableBlock(lines, a, b) && TableBlock(lines, a, c)
    ensures b == c
  {
  }

  lemma SameTextEnd(lines: seq<string>, a: nat, b: nat, c: nat)
    requires TextBlock(lines, a, b) && TextBlock(lines, a, c)
    ensures b == c
  {
  }

  /** 0: heading, 1: code, 2: table, 3: text. */
  function KindOfLine(line: string): nat {
    if HeadingStart(Strip(line)) then 0 else if IsFence(line) then 1 else if HasPipe(line) then 2 else 3
  }

  function Kind(s: Segment): nat {
    match s.locator
    case HeadingAt(_, _) => 0
    case CodeBlock(_, _, _) => 1
    case TableAt(_, _, _) => 2
    case LinesAt(_, _, _) => 3
  }

  lemma KindIsForced(lines: seq<string>, s: Segment, heading: Option<string>)
    requires SegmentOk(lines, s, heading)
    ensures Kind(s) == KindOfLine(lines[First(s) - 1])
  {
    var a := First(s) - 1;
    HeadingTestsAgree(lines[a]);
    if s.locator.LinesAt? {
      assert IsPlain(lines[a]);
    }
  }

  lemma EndIsForced(lines: seq<string>, s: Segment, t: Segment, heading: Option<string>)
    requires SegmentOk(lines, s, heading) && SegmentOk(lines, t, heading)
    requires First(s) == First(t) && Kind(s) == Kind(t)
    ensures Last(s) == Last(t)
  {
    var a := First(s) - 1;
    if s.locator.CodeBlock? {
      SameFencedEnd(lines, a, Last(s), Last(t));
    } else if s.locator.TableAt? {
      SameTableEnd(lines, a, Last(s), Last(t));
    } else if s.locator.LinesAt? {
      SameTextEnd(lines, a, Last(s), Last(t));
    }
  }

  lemma SameBlock(lines: seq<string>, s: Segment, t: Segment, heading: Option<string>)
    requires SegmentOk(lines, s, heading) && SegmentOk(lines, t, heading) && First(s) == First(t)
    ensures s == t
  {
    KindIsForced(lines, s, heading);
    KindIsForced(lines, t, heading);
    EndIsForced(lines, s, t, heading);
  }

  lemma FirstLineHasText(lines: seq<string>, segments: seq<Segment>, n: nat)
    requires WellFormed(lines, segments) && n < |segments|
    ensures 1 <= First(segments[n]) <= Last(segments[n]) <= |lines| && Strip(lines[First(segments[n]) - 1]) != ""
  {
    assert SegmentOk(lines, segments[n], HeadingBefore(segments, n));
  }

  /** Where segment n has to start: at the first line with text after segment n - 1. */
  lemma StartIsForced(lines: seq<string>, segments: seq<Segment>, n: nat, p: nat)
    requires Partitions(lines, segments, |lines|) && n <= |segments| && p < |lines| && Strip(lines[p]) != ""
    requires n > 0 ==> Last(segments[n - 1]) <= p
    ensures n < |segments| && First(segments[n]) <= p + 1
  {
    var s :| s in segments && Holds(s, p);
    var i :| 0 <= i < |segments| && segments[i] == s;
    if i < n {
      FirstLineHasText(lines, segments, n - 1);
    } else {
      FirstLineHasText(lines, segments, n);
    }
  }

  lemma {:induction false} HeadingBeforeAgrees(segments: seq<Segment>, others: seq<Segment>, n: nat)
    requires n <= |segments| && n <= |others| && segments[..n] == others[..n]
    ensures HeadingBefore(segments, n) == HeadingBefore(others, n)
  {
    if n > 0 {
      assert segments[n - 1] == segments[..n][n - 1] == others[..n][n - 1];
      assert segments[..n - 1] == segments[..n][..n - 1] == others[..n - 1];
      HeadingBeforeAgrees(segments, others, n - 1);
    }
  }

  lemma NextStart(lines: seq<string>, segments: seq<Segment>, others: seq<Segment>, n: nat)
    requires Partitions(lines, segments, |lines|) && Partitions(lines, others, |lines|)
    requires n < |segments| && n <= |others| && segments[..n] == others[..n]
    ensures n < |others| && First(others[n]) <= First(segments[n])
  {
    FirstLineHasText(lines, segments, n);
    if n > 0 {
      assert others[n - 1] == others[..n][n - 1] == segments[n - 1];
    }
    StartIsForced(lines, others, n, First(segments[n]) - 1);
  }

  lemma {:induction false} PrefixesAgree(lines: seq<string>, segments: seq<Segment>, others: seq<Segment>, n: nat)
    requires Partitions(lines, segments, |lines|) && Partitions(lines, others, |lines|)
    requires n <= |segments|
    ensures n <= |others| && segments[..n] == others[..n]
  {
    if n > 0 {
      PrefixesAgree(lines, segments, others, n - 1);
      NextStart(lines, segments, others, n - 1);
      NextStart(lines, others, segments, n - 1);
      HeadingBeforeAgrees(segments, others, n - 1);
      SameBlock(lines, segments[n - 1], others[n - 1], HeadingBefore(segments, n - 1));
      assert segments[..n] == segments[..n - 1] + [segments[n - 1]];
      assert others[..n] == others[..n - 1] + [others[n - 1]];
    }
  }

  /** A document has one partition, so what the splitter returns is determined by the lines. */
  lemma PartitionIsUnique(lines: seq<string>, segments: seq<Segment>, others: seq<Segment>)
    requires Partitions(lines, segments, |lines|) && Partitions(lines, others, |lines|)
    ensures segments == others
  {
    PrefixesAgree(lines, segments, others, |segments|);
    PrefixesAgree(lines, others, segments, |others|);
  }

  // ----- The splitter -----

  method FencedLines(lines: seq<string>, start: nat) returns (block: seq<string>, index: nat)
    requires start < |lines| && IsFence(lines[start])
    ensures FencedBlock(lines, start, index) && block == lines[start..index]
  {
    var marker := Strip(lines[start])[..3];
    block := [lines[start]];
    index := start + 1;
    while index < |lines|
      invariant start < index <= |lines| && block == lines[start..index]
      invariant forall p :: start < p < index ==> !Closes(lines[p], marker)
    {
      block := block + [lines[index]];
      if StartsWith(Strip(lines[index]), marker) {
        index := index + 1;
        break;
      }
      index := index + 1;
    }
  }

  method TableLines(lines: seq<string>, start: nat) returns (block: seq<string>, index: nat)
    requires start < |lines| && IsRow(lines[start])
    ensures TableBlock(lines, start, index) && block == lines[start..index]
  {
    block := [];
    index := start;
    while index < |lines| && Strip(lines[index]) != "" && HasPipe(lines[index])
      invariant start <= index <= |lines| && block == lines[start..index]
      invariant forall p :: start <= p < index ==> IsRow(lines[p])
    {
      block := block + [lines[index]];
      index := index + 1;
    }
  }

  method PlainLines(lines: seq<string>, start: nat) returns (block: seq<string>, index: nat)
    requires start < |lines| && IsPlain(lines[start])
    ensures TextBlock(lines, start, index) && block == lines[start..index]
  {
    block := [];
    index := start;
    while index < |lines|
      invariant start <= index <= |lines| && block == lines[start..index]
      invariant forall p :: start <= p < index ==> IsPlain(lines[p])
    {
      var candidate := lines[index];
      var value := Strip(candidate);
      if value == "" || StartsWith(value, "```") || StartsWith(value, "~~~") || HeadingStart(value) {
        break;
      }
      if HasPipe(candidate) && block != [] {
        break;
      }
      block := block + [candidate];
      index := index + 1;
    }
  }

  /** The segment that starts at a line that is not blank, and the line after it. */
  method NextSegment(lines: seq<string>, index: nat, heading: Option<string>) returns (s: Segment, next: nat)
    requires index < |lines| && Strip(lines[index]) != ""
    ensures index < next <= |lines| && First(s) == index + 1 && Last(s) == next
    ensures SegmentOk(lines, s, heading)
  {
    var raw := lines[index];
    var stripped := Strip(raw);
    HeadingTestsAgree(raw);
    var title := Title(stripped);
    if title.Some? {
      return Segment(title.value, HeadingAt(title.value, index + 1)), index + 1;
    }
    var block;
    if StartsWith(stripped, "```") || StartsWith(stripped, "~~~") {
      block, next := FencedLines(lines, index);
      return Segment(JoinLines(block), CodeBlock(index + 1, next, heading)), next;
    }
    if HasPipe(raw) {
      block, next := TableLines(lines, index);
      return Segment(JoinLines(block), TableAt(index + 1, next, heading)), next;
    }
    block, next := PlainLines(lines, index);
    assert block != [];
    s := Segment(JoinLines(block), LinesAt(index + 1, index + |block|, heading));
  }

  function TotalText(segments: seq<Segment>): nat {
    if segments == [] then 0 else TotalText(segments[..|segments| - 1]) + |segments[|segments| - 1].text|
  }

  /** The limit is on the sum of the lengths of the texts. */
  lemma {:induction false} TotalTextAdds(front: seq<Segment>, back: seq<Segment>)
    ensures TotalText([]) == 0 && forall s: Segment {:trigger s.text} :: TotalText([s]) == |s.text|
    ensures TotalText(front + back) == TotalText(front) + TotalText(back)
  {
    forall s: Segment ensures TotalText([s]) == |s.text| {
      assert [s][..0] == [];
    }
    if back == [] {
      assert front + back == front;
    } else {
      var most, last := back[..|back| - 1], back[|back| - 1];
      TotalTextAdds(front, most);
      assert (front + back)[..|front + back| - 1] == front + most;
    }
  }

  /**
   Splits a document. The segments partition the lines that are not blank; the
   branch for an empty paragraph is never taken; and the document is refused
   exactly when it has no text or its segments exceed the limit.
   */
  method ExtractMarkdown(text: string, limit: nat) returns (result: Result<seq<Segment>, Failure>)
    ensures result == Err(EmptyDocument) <==> IsBlank(text)
    ensures result.Ok? ==>
      Partitions(SplitLines(text), result.value, |SplitLines(text)|) && TotalText(result.value) <= limit
    ensures result == Err(ParserLimit) ==> exists segments ::
      Partitions(SplitLines(text), segments, |SplitLines(text)|) && TotalText(segments) > limit
  {
    var _, _ := StripSlices(text);
    if Strip(text) == "" {
      return Err(EmptyDocument);
    }
    var lines := SplitLines(text);
    var segments: seq<Segment> := [];
    var heading: Option<string> := None;
    var index := 0;
    while index < |lines|
      invariant Partitions(lines, segments, index)
      invariant heading == HeadingBefore(segments, |segments|)
    {
      if Strip(lines[index]) == "" {
        SkipBlank(lines, segments, index);
        index := index + 1;
      } else {
        var s, next := NextSegment(lines, index, heading);
        AddSegment(lines, segments, s, index, next);
        HeadingBeforeKept(segments, s, |segments|);
        segments := segments + [s];
        if s.locator.HeadingAt? {
          heading := Some(s.locator.title);
        }
        index := next;
      }
    }
    if TotalText(segments) > limit {
      return Err(ParserLimit);
    }
    return Ok(segments);
  }
}
