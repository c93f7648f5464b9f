/**
 The environment file: the printer of the installer and the parser of the
 service. Reading back what was printed gives the same values exactly when no
 value holds a line separator that the printer does not look for.
 */
module Dotenv {
  import opened Wrappers
  import opened PythonText

  type Binding = (string, string)

  // ----- The parser -----

  predicate IsLetter(c: char) {
    'a' <= c <= 'z' || 'A' <= c <= 'Z' || c == '_'
  }

  predicate IsWord(c: char) {
    IsLetter(c) || '0' <= c <= '9'
  }

  predicate IsIdentifier(s: string) {
    s != "" && IsLetter(s[0]) && forall i | 0 <= i < |s| :: IsWord(s[i])
  }

  function WordRun(s: string): (n: nat)
    ensures n <= |s| && (forall i :: 0 <= i < n ==> IsWord(s[i])) && (n < |s| ==> !IsWord(s[n]))
  {
    if s != "" && IsWord(s[0]) then 1 + WordRun(s[1..]) else 0
  }

  function Unquote(value: string): string {
    if |value| >= 2 && value[0] == value[|value| - 1] && (value[0] == '\'' || value[0] == '"')
    then value[1..|value| - 1]
    else value
  }

  /** A name, an equals sign and the rest of the line as the value. */
  function Assignment(s: string): Option<Binding> {
    if s == "" || !IsLetter(s[0]) then None else
      var name := s[..WordRun(s)];
      var rest := s[WordRun(s)..];
      var tail := rest[SpaceRun(rest)..];
      if tail == "" || tail[0] != '=' then None else Some((name, Unquote(Strip(tail[1..]))))
  }

  /** The part after the word export and at least one space, when the line starts so. */
  function AfterExport(line: string): Option<string> {
    if !StartsWith(line, "export") || SpaceRun(line[6..]) == 0 then None
    else Some(line[6..][SpaceRun(line[6..])..])
  }

  datatype Entry = Nothing | Binds(binding: Binding) | Invalid

  function ReadLine(raw: string): Entry {
    var line := Strip(raw);
    if line == "" || line[0] == '#' then Nothing else
      var exported := AfterExport(line);
      if exported.Some? && Assignment(exported.value).Some? then Binds(Assignment(exported.value).value)
      else if Assignment(line).Some? then Binds(Assignment(line).value)
      else Invalid
  }

  datatype Failure = Unreadable | InvalidLine(number: nat)

  /** What the lines of a file say: later lines win, and the first invalid line refuses the file. */
  function Collected(entries: seq<Entry>): Result<map<string, string>, Failure> {
    if entries == [] then Ok(map[]) else
      var before := Collected(entries[..|entries| - 1]);
      if before.Err? then before else
        match entries[|entries| - 1]
        case Nothing => before
        case Binds((key, value)) => Ok(before.value[key := value])
        case Invalid => Err(InvalidLine(|entries|))
  }

  predicate BindsKey(entry: Entry, key: string) {
    entry.Binds? && entry.binding.0 == key
  }

  /** The last line that binds the key gives it this value. */
  ghost predicate Says(entries: seq<Entry>, key: string, value: string) {
    exists i :: 0 <= i < |entries| && entries[i] == Binds((key, value))
      && forall j :: i < j < |entries| ==> !BindsKey(entries[j], key)
  }

  lemma SaysGrows(entries: seq<Entry>, entry: Entry, key: string, value: string)
    ensures Says(entries + [entry], key, value) <==>
              if BindsKey(entry, key) then entry.binding.1 == value else Says(entries, key, value)
  {
    var all := entries + [entry];
    assert all[|entries|] == entry;
    if BindsKey(entry, key) {
      assert entry.binding.1 == value ==> all[|entries|] == Binds((key, value));
    } else {
      if Says(entries, key, value) {
        var i :| 0 <= i < |entries| && entries[i] == Binds((key, value))
          && forall j :: i < j < |entries| ==> !BindsKey(entries[j], key);
        assert all[i] == Binds((key, value));
      }
      if Says(all, key, value) {
        var i :| 0 <= i < |all| && all[i] == Binds((key, value))
          && forall j :: i < j < |all| ==> !BindsKey(all[j], key);
        assert entries[i] == Binds((key, value));
        assert forall j :: i < j < |entries| ==> all[j] == entries[j];
      }
    }
  }

  /**
   The parser without its loop: it succeeds exactly when every line is valid,
   gives each key the value of the last line that binds it, and otherwise names
   the first invalid line.
   */
  lemma {:induction false} CollectedMeans(entries: seq<Entry>)
    ensures Collected(entries).Ok? <==> Invalid !in entries
    ensures Collected(entries).Ok? ==> forall key, value {:trigger Says(entries, key, value)} ::
      (key in Collected(entries).value && Collected(entries).value[key] == value) <==> Says(entries, key, value)
    ensures Collected(entries).Err? ==>
      && Collected(entries).error.InvalidLine?
      && var n := Collected(entries).error.number;
      && 1 <= n <= |entries| && entries[n - 1].Invalid? && Invalid !in entries[..n - 1]
  {
    if entries != [] {
      var most, last := entries[..|entries| - 1], entries[|entries| - 1];
      assert entries == most + [last];
      CollectedMeans(most);
      if Collected(most).Err? {
        var n := Collected(most).error.number;
        assert most[n - 1] == entries[n - 1] && most[..n - 1] == entries[..n - 1];
      } else {
        forall key, value ensures Collected(entries).Ok? ==>
          ((key in Collected(entries).value && Collected(entries).value[key] == value) <==> Says(entries, key, value))
        {
          SaysGrows(most, last, key, value);
          assert Says(most, key, value) <==> (key in Collected(most).value && Collected(most).value[key] == value);
        }
      }
    }
  }

  lemma {:induction false} FirstErrorStays(entries: seq<Entry>, n: nat)
    requires n <= |entries| && Collected(entries[..n]).Err?
    ensures Collected(entries) == Collected(entries[..n])
  {
    if n == |entries| {
      assert entries[..n] == entries;
    } else {
      var most := entries[..|entries| - 1];
      assert most[..n] == entries[..n];
      FirstErrorStays(most, n);
    }
  }

  datatype File = Missing | Locked | Holds(text: string)

  /** The byte order mark that the decoder drops. */
  function WithoutMark(text: string): string {
    if text != "" && text[0] == '\U{FEFF}' then text[1..] else text
  }

  function Entries(lines: seq<string>): seq<Entry> {
    seq(|lines|, i requires 0 <= i < |lines| => ReadLine(lines[i]))
  }

  function Meaning(file: File): Result<map<string, string>, Failure> {
    match file
    case Missing => Ok(map[])
    case Locked => Err(Unreadable)
    case Holds(text) => Collected(Entries(SplitLines(WithoutMark(text))))
  }

  /** A byte order mark at the start of the file makes no difference; no other character is dropped. */
  lemma TheMarkIsDropped(text: string)
    requires text == "" || text[0] != '\U{FEFF}'
    ensures Meaning(Holds(text)) == Collected(Entries(SplitLines(text)))
    ensures Meaning(Holds(['\U{FEFF}'] + text)) == Meaning(Holds(text))
  {
    assert (['\U{FEFF}'] + text)[1..] == text;
  }

  lemma NextCollected(entries: seq<Entry>, n: nat)
    requires n < |entries| && Collected(entries[..n]).Ok?
    ensures var parsed := Collected(entries[..n]).value;
      Collected(entries[..n + 1]) ==
        match entries[n]
        case Invalid => Err(InvalidLine(n + 1))
        case Binds(binding) => Ok(parsed[binding.0 := binding.1])
        case _ => Ok(parsed)
  {
    assert entries[..n + 1][..n] == entries[..n];
  }

  method CollectLines(lines: seq<string>) returns (result: Result<map<string, string>, Failure>)
    ensures result == Collected(Entries(lines))
  {
    ghost var entries := Entries(lines);
    var parsed: map<string, string> := map[];
    for n := 0 to |lines|
      invariant Collected(entries[..n]) == Ok(parsed)
    {
      NextCollected(entries, n);
      var line := ReadLine(lines[n]);
      assert entries[n] == line;
      if line.Invalid? {
        FirstErrorStays(entries, n + 1);
        return Err(InvalidLine(n + 1));
      }
      if line.Binds? {
        parsed := parsed[line.binding.0 := line.binding.1];
      }
    }
    assert entries[..|lines|] == entries;
    return Ok(parsed);
  }

  method ParseDotenv(file: File) returns (result: Result<map<string, string>, Failure>)
    ensures result == Meaning(file)
  {
    if file == Missing {
      return Ok(map[]);
    }
    if file == Locked {
      return Err(Unreadable);
    }
    result := CollectLines(SplitLines(WithoutMark(file.text)));
  }

  // ----- The grammar of a line -----

  /**
   A binding as it is written: spaces, perhaps the word export and spaces, the
   key, spaces, the equals sign and the rest of the line.
   */
  predicate IsForm(raw: string, front: string, word: string, key: string, gap: string, tail: string) {
    && raw == front + word + key + gap + "=" + tail
    && IsBlank(front) && IsBlank(gap) && IsIdentifier(key)
    && (word == "" || (|word| > 6 && word[..6] == "export" && IsBlank(word[6..])))
  }

  /** The text between i and j is what is left of the tail without the spaces around it. */
  predicate IsTrimmed(tail: string, i: nat, j: nat) {
    && i <= j <= |tail| && IsBlank(tail[..i]) && IsBlank(tail[j..])
    && (i < j ==> !IsSpace(tail[i]) && !IsSpace(tail[j - 1]))
  }

  predicate InQuotes(v: string) {
    |v| >= 2 && ((v[0] == '"' && v[|v| - 1] == '"') || (v[0] == '\'' && v[|v| - 1] == '\''))
  }

  /** The value is the tail without the spaces around it and without one pair of equal quotes around that. */
  ghost predicate IsValueOf(tail: string, value: string) {
    exists i: nat, j: nat :: IsTrimmed(tail, i, j) && value == Core(tail[i..j])
  }

  function Core(v: string): string {
    if InQuotes(v) then v[1..|v| - 1] else v
  }

  ghost predicate IsBinding(raw: string, key: string, value: string) {
    exists front, word, gap, tail :: IsForm(raw, front, word, key, gap, tail) && IsValueOf(tail, value)
  }

  /** Stripping finds the trimmed text. */
  lemma TrimmedIsStripped(tail: string, i: nat, j: nat)
    requires IsTrimmed(tail, i, j)
    ensures Strip(tail) == tail[i..j]
  {
    if i < j {
      assert tail == tail[..i] + tail[i..j] + tail[j..];
      StripsTo(tail[..i], tail[i..j], tail[j..]);
    } else {
      assert tail == tail[..i] + tail[j..] && IsBlank(tail);
      var _, _ := StripSlices(tail);
    }
  }

  lemma ValueIsUnquoted(tail: string, value: string)
    ensures IsValueOf(tail, value) <==> value == Unquote(Strip(tail))
  {
    var a, b := StripSlices(tail);
    assert IsTrimmed(tail, a, b) && Core(tail[a..b]) == Unquote(tail[a..b]);
    if IsValueOf(tail, value) {
      var i: nat, j: nat :| IsTrimmed(tail, i, j) && value == Core(tail[i..j]);
      TrimmedIsStripped(tail, i, j);
    }
  }

  lemma AssignmentIs(key: string, gap: string, tail: string)
    requires IsIdentifier(key) && IsBlank(gap)
    ensures Assignment(key + gap + "=" + tail) == Some((key, Unquote(Strip(tail))))
  {
    var line := key + gap + "=" + tail;
    var rest := gap + "=" + tail;
    assert line == key + rest;
    WordRunIs(key, rest);
    assert line[..|key|] == key && line[|key|..] == rest;
    SpaceRunIs(gap, "=" + tail);
    assert rest == gap + ("=" + tail) && rest[|gap|..] == "=" + tail;
    assert ("=" + tail)[1..] == tail;
  }

  lemma {:induction false} WordRunIs(word: string, rest: string)
    requires (forall i :: 0 <= i < |word| ==> IsWord(word[i])) && (rest == "" || !IsWord(rest[0]))
    ensures WordRun(word + rest) == |word|
  {
    if word != "" {
      assert (word + rest)[1..] == word[1..] + rest;
      WordRunIs(word[1..], rest);
    } else {
      assert word + rest == rest;
    }
  }

  /** What stands behind the word export and its spaces is found. */
  lemma ExportIsFound(word: string, rest: string)
    requires |word| > 6 && word[..6] == "export" && IsBlank(word[6..]) && rest != "" && !IsSpace(rest[0])
    ensures AfterExport(word + rest) == Some(rest)
  {
    var line := word + rest;
    assert line[..6] == word[..6] && line[6..] == word[6..] + rest;
    SpaceRunIs(word[6..], rest);
    assert (word[6..] + rest)[|word| - 6..] == rest;
  }

  /** Without the word, what seems to follow it is no assignment. */
  lemma ExportedIsNoAssignment(key: string, gap: string, tail: string)
    requires IsIdentifier(key) && IsBlank(gap)
    ensures var exported := AfterExport(key + gap + "=" + tail);
      exported.Some? ==> Assignment(exported.value).None?
  {
    var line, rest := key + gap + "=" + tail, gap + ("=" + tail);
    assert line == key + rest && rest[0] == if gap == "" then '=' else gap[0];
    WordRunIs(key, rest);
    if AfterExport(line).Some? {
      ExportEndsTheWord(line);
      assert line[6..] == rest;
      SpaceRunIs(gap, "=" + tail);
      assert rest[|gap|..] == "=" + tail;
    }
  }

  lemma ExportEndsTheWord(line: string)
    requires AfterExport(line).Some?
    ensures WordRun(line) == 6
  {
    forall i | 0 <= i < 6 ensures IsWord(line[i]) {
      assert line[i] == line[..6][i] == "export"[i];
    }
    WordRunReaches(line, 6);
    assert IsSpace(line[6..][0]) && line[6] == line[6..][0];
  }

  lemma {:induction false} WordRunReaches(s: string, n: nat)
    requires n <= |s| && forall i :: 0 <= i < n ==> IsWord(s[i])
    ensures WordRun(s) >= n
  {
    if n > 0 {
      assert forall i :: 0 <= i < n - 1 ==> s[1..][i] == s[i + 1];
      WordRunReaches(s[1..], n - 1);
    }
  }

  lemma StrippedBindingIsRead(line: string, word: string, key: string, gap: string, tail: string)
    requires line == word + (key + gap + "=" + tail) && Strip(line) == line && IsIdentifier(key) && IsBlank(gap)
    requires word == "" || (|word| > 6 && word[..6] == "export" && IsBlank(word[6..]))
    ensures ReadLine(line) == Binds((key, Unquote(Strip(tail))))
  {
    var rest := key + gap + "=" + tail;
    assert rest[0] == key[0];
    AssignmentIs(key, gap, tail);
    if word == "" {
      assert line == rest;
      ExportedIsNoAssignment(key, gap, tail);
    } else {
      assert line[0] == word[..6][0];
      ExportIsFound(word, rest);
    }
  }

  lemma StripIsFinal(s: string)
    ensures Strip(Strip(s)) == Strip(s) && ReadLine(Strip(s)) == ReadLine(s)
  {
    var a, b := StripSlices(s);
    if a < b {
      TightTextIsStripped(s[a..b]);
    }
  }

  lemma BindingIsRead(raw: string, front: string, word: string, key: string, gap: string, tail: string)
    requires IsForm(raw, front, word, key, gap, tail)
    ensures ReadLine(raw) == Binds((key, Unquote(Strip(tail))))
  {
    var k := StripRightSlices(tail);
    var cut := tail[..k];
    var line := word + (key + gap + "=" + cut);
    assert line[0] == if word == "" then key[0] else word[..6][0];
    assert !IsSpace(line[0]) && !IsSpace(line[|line| - 1]);
    assert raw == front + line + tail[k..];
    StripsTo(front, line, tail[k..]);
    StripIsFinal(raw);
    StrippedBindingIsRead(line, word, key, gap, cut);
    Cut(tail, k);
    BackIsStripped(cut, tail[k..]);
  }

  /** Behind the name: spaces, the equals sign and the tail. */
  lemma RestHasForm(rest: string) returns (gap: string, tail: string)
    requires SpaceRun(rest) < |rest| && rest[SpaceRun(rest)] == '='
    ensures rest == gap + "=" + tail && IsBlank(gap) && tail == rest[SpaceRun(rest)..][1..]
  {
    var n := SpaceRun(rest);
    gap, tail := rest[..n], rest[n..][1..];
    assert rest[n..] == "=" + tail;
  }

  lemma NameIsIdentifier(s: string)
    requires s != "" && IsLetter(s[0])
    ensures IsIdentifier(s[..WordRun(s)])
  {
    assert s[..WordRun(s)][0] == s[0];
  }

  lemma AssignmentHasForm(s: string) returns (gap: string, tail: string)
    requires Assignment(s).Some?
    ensures IsBlank(gap) && IsIdentifier(Assignment(s).value.0)
    ensures s == Assignment(s).value.0 + (gap + "=" + tail) && Assignment(s).value.1 == Unquote(Strip(tail))
  {
    NameIsIdentifier(s);
    Cut(s, WordRun(s));
    gap, tail := RestHasForm(s[WordRun(s)..]);
  }

  lemma Cut<T>(s: seq<T>, n: nat)
    requires n <= |s|
    ensures s == s[..n] + s[n..]
  {
  }

  /** The optional word and what the binding is read from. */
  lemma LineHasWord(line: string) returns (word: string, rest: string)
    requires line != "" && line[0] != '#' && Strip(line) == line && ReadLine(line).Binds?
    ensures line == word + rest && Assignment(rest) == Some(ReadLine(line).binding)
    ensures word == "" || (|word| > 6 && word[..6] == "export" && IsBlank(word[6..]))
  {
    var exported := AfterExport(line);
    if exported.Some? && Assignment(exported.value).Some? {
      word, rest := ExportedParts(line);
    } else {
      word, rest := "", line;
    }
  }

  lemma ExportedParts(line: string) returns (word: string, rest: string)
    requires AfterExport(line).Some?
    ensures line == word + rest && AfterExport(line) == Some(rest)
    ensures |word| > 6 && word[..6] == "export" && IsBlank(word[6..])
  {
    var behind := line[6..];
    var n := SpaceRun(behind);
    word, rest := line[..6] + behind[..n], behind[n..];
    Cut(line, 6);
    Cut(behind, n);
    assert word[..6] == line[..6] && word[6..] == behind[..n];
  }

  lemma ReadIsBinding(raw: string)
    requires ReadLine(raw).Binds?
    ensures IsBinding(raw, ReadLine(raw).binding.0, ReadLine(raw).binding.1)
  {
    StripIsFinal(raw);
    var front, line, back := StripParts(raw);
    var word, rest := LineHasWord(line);
    var gap, tail := AssignmentHasForm(rest);
    PartsBind(raw, front, word, ReadLine(raw).binding.0, gap, tail, back);
  }

  lemma StripParts(raw: string) returns (front: string, line: string, back: string)
    ensures raw == front + line + back && line == Strip(raw) && IsBlank(front) && IsBlank(back)
  {
    var a, b := StripSlices(raw);
    front, line, back := raw[..a], raw[a..b], raw[b..];
  }

  lemma PartsBind(raw: string, front: string, word: string, key: string, gap: string, tail: string, back: string)
    requires raw == front + (word + (key + (gap + "=" + tail))) + back
    requires IsBlank(front) && IsBlank(gap) && IsBlank(back)
    requires IsIdentifier(key) && (word == "" || (|word| > 6 && word[..6] == "export" && IsBlank(word[6..])))
    ensures IsBinding(raw, key, Unquote(Strip(tail)))
  {
    FormOfParts(raw, front, word, key, gap, tail, back);
    BackIsStripped(tail, back);
    ValueIsUnquoted(tail + back, Unquote(Strip(tail)));
  }

  lemma BackIsStripped(tail: string, back: string)
    requires IsBlank(back)
    ensures Strip(tail + back) == Strip(tail)
  {
    var i, j := StripSlices(tail);
    var all := tail + back;
    assert all[..i] == tail[..i] && all[j..] == tail[j..] + back && all[i..j] == tail[i..j];
    assert IsTrimmed(all, i, j);
    TrimmedIsStripped(all, i, j);
  }

  lemma FormOfParts(raw: string, front: string, word: string, key: string, gap: string, tail: string, back: string)
    requires raw == front + (word + (key + (gap + "=" + tail))) + back && IsBlank(front) && IsBlank(gap)
    requires IsIdentifier(key) && (word == "" || (|word| > 6 && word[..6] == "export" && IsBlank(word[6..])))
    ensures IsForm(raw, front, word, key, gap, tail + back)
  {
  }

  /**
   What each line says, by the grammar: nothing, when it is blank or its first
   character that is no space is a hash sign; a binding exactly as it is written;
   and otherwise the line is invalid.
   */
  lemma ReadLineMeans(raw: string, key: string, value: string)
    ensures ReadLine(raw) == Binds((key, value)) <==> IsBinding(raw, key, value)
    ensures ReadLine(raw) == Nothing <==>
      IsBlank(raw) || exists i :: 0 <= i < |raw| && raw[i] == '#' && IsBlank(raw[..i])
  {
    if ReadLine(raw) == Binds((key, value)) {
      ReadIsBinding(raw);
    }
    if IsBinding(raw, key, value) {
      var front, word, gap, tail :| IsForm(raw, front, word, key, gap, tail) && IsValueOf(tail, value);
      BindingIsRead(raw, front, word, key, gap, tail);
      ValueIsUnquoted(tail, value);
    }
    var a, b := StripSlices(raw);
    BlankPrefix(raw, a);
    if i :| 0 <= i < |raw| && raw[i] == '#' && IsBlank(raw[..i]) {
      BlankPrefix(raw, i);
      assert a == i && a < b;
    }
  }

  // ----- The printer -----

  predicate Printable(value: string) {
    forall i | 0 <= i < |value| :: value[i] != '\n' && value[i] != '\r' && value[i] != '"' && value[i] != '\\'
  }

  function LineOf(binding: Binding): string {
    binding.0 + "=\"" + binding.1 + "\""
  }

  function Printed(bindings: seq<Binding>): string {
    if bindings == [] then "" else LineOf(bindings[0]) + "\n" + Printed(bindings[1..])
  }

  /** None is the refusal of a value with an escape or a newline. */
  function Environment(bindings: seq<Binding>): Option<string> {
    if exists binding <- bindings :: !Printable(binding.1) then None else Some(Printed(bindings))
  }

  /** The keys of a dictionary are distinct; these are also names of settings. */
  ghost predicate Dictionary(bindings: seq<Binding>) {
    && (forall b <- bindings :: IsIdentifier(b.0))
    && forall i, j :: 0 <= i < j < |bindings| ==> bindings[i].0 != bindings[j].0
  }

  ghost predicate SameBindings(m: map<string, string>, bindings: seq<Binding>) {
    forall key, value :: (key in m && m[key] == value) <==> (key, value) in bindings
  }

  // ----- Reading back what was printed -----

  lemma QuotedReads(quoted: string, value: string)
    requires quoted == "\"" + value + "\""
    ensures Unquote(Strip(quoted)) == value
  {
    assert StripLeft(quoted) == quoted;
    assert StripRight(quoted) == quoted;
    assert quoted[1..|quoted| - 1] == value;
  }

  lemma LineReadsBack(binding: Binding)
    requires IsIdentifier(binding.0)
    ensures ReadLine(LineOf(binding)) == Binds(binding)
  {
    var line, tail := LineOf(binding), "\"" + binding.1 + "\"";
    assert line == "" + "" + binding.0 + "" + "=" + tail;
    BindingIsRead(line, "", "", binding.0, "", tail);
    QuotedReads(tail, binding.1);
  }

  lemma {:induction false} FirstBreakIs(line: string, rest: string)
    requires NoBreak(line)
    ensures FirstBreak(line + "\n" + rest) == |line|
  {
    if line != "" {
      assert (line + "\n" + rest)[1..] == line[1..] + "\n" + rest;
      FirstBreakIs(line[1..], rest);
    }
  }

  function Lines(bindings: seq<Binding>): (lines: seq<string>)
    ensures |lines| == |bindings| && forall i :: 0 <= i < |lines| ==> lines[i] == LineOf(bindings[i])
  {
    if bindings == [] then [] else [LineOf(bindings[0])] + Lines(bindings[1..])
  }

  lemma {:induction false} PrintedLines(bindings: seq<Binding>)
    requires forall b <- bindings :: IsIdentifier(b.0) && NoBreak(b.1)
    ensures SplitLines(Printed(bindings)) == Lines(bindings)
  {
    if bindings != [] {
      var line, rest := LineOf(bindings[0]), Printed(bindings[1..]);
      var text := Printed(bindings);
      FirstBreakIs(line, rest);
      assert text[|line|] == '\n' && text[..|line|] == line && text[|line| + 1..] == rest;
      PrintedLines(bindings[1..]);
    }
  }

  lemma NoMark(bindings: seq<Binding>)
    requires forall b <- bindings :: IsIdentifier(b.0)
    ensures WithoutMark(Printed(bindings)) == Printed(bindings)
  {
    if bindings != [] {
      assert Printed(bindings)[0] == bindings[0].0[0];
    }
  }

  lemma PrintedEntries(bindings: seq<Binding>)
    requires forall b <- bindings :: IsIdentifier(b.0) && NoBreak(b.1)
    ensures var entries := Entries(SplitLines(WithoutMark(Printed(bindings))));
      |entries| == |bindings| && forall i :: 0 <= i < |entries| ==> entries[i] == Binds(bindings[i])
  {
    NoMark(bindings);
    PrintedLines(bindings);
    forall i | 0 <= i < |bindings| ensures Entries(Lines(bindings))[i] == Binds(bindings[i]) {
      LineReadsBack(bindings[i]);
    }
  }

  lemma DistinctKeysSay(entries: seq<Entry>, bindings: seq<Binding>, key: string, value: string)
    requires Dictionary(bindings) && |entries| == |bindings|
    requires forall i :: 0 <= i < |entries| ==> entries[i] == Binds(bindings[i])
    ensures Says(entries, key, value) <==> (key, value) in bindings
  {
    if (key, value) in bindings {
      var i :| 0 <= i < |bindings| && bindings[i] == (key, value);
      assert entries[i] == Binds((key, value));
    }
  }

  lemma CollectsBack(entries: seq<Entry>, bindings: seq<Binding>)
    requires Dictionary(bindings) && |entries| == |bindings|
    requires forall i :: 0 <= i < |entries| ==> entries[i] == Binds(bindings[i])
    ensures Collected(entries).Ok? && SameBindings(Collected(entries).value, bindings)
  {
    CollectedMeans(entries);
    forall key, value ensures Says(entries, key, value) <==> (key, value) in bindings {
      DistinctKeysSay(entries, bindings, key, value);
    }
  }

  lemma ReadsBack(bindings: seq<Binding>)
    requires Dictionary(bindings) && forall b <- bindings :: NoBreak(b.1)
    ensures Meaning(Holds(Printed(bindings))).Ok? && SameBindings(Meaning(Holds(Printed(bindings))).value, bindings)
  {
    PrintedEntries(bindings);
    CollectsBack(Entries(SplitLines(WithoutMark(Printed(bindings)))), bindings);
  }

  lemma StripHasNoBreak(s: string)
    requires NoBreak(s)
    ensures NoBreak(Strip(s))
  {
    var a, b := StripSlices(s);
  }

  lemma AssignmentHasNoBreak(s: string)
    requires NoBreak(s) && Assignment(s).Some?
    ensures NoBreak(Assignment(s).value.1)
  {
    var rest := s[WordRun(s)..];
    var tail := rest[SpaceRun(rest)..];
    assert NoBreak(tail[1..]);
    StripHasNoBreak(tail[1..]);
  }

  lemma ValueHasNoBreak(line: string)
    requires NoBreak(line) && ReadLine(line).Binds?
    ensures NoBreak(ReadLine(line).binding.1)
  {
    StripHasNoBreak(line);
    var s := Strip(line);
    var exported := AfterExport(s);
    if exported.Some? && Assignment(exported.value).Some? {
      AssignmentHasNoBreak(exported.value);
    } else {
      AssignmentHasNoBreak(s);
    }
  }

  lemma LinesSayNoBreak(lines: seq<string>, key: string, value: string)
    requires (forall line <- lines :: NoBreak(line)) && Says(Entries(lines), key, value)
    ensures NoBreak(value)
  {
    var i :| 0 <= i < |lines| && Entries(lines)[i] == Binds((key, value));
    ValueHasNoBreak(lines[i]);
  }

  /** No file makes the parser return a value with a line separator in it. */
  lemma ParsedValuesHaveNoBreaks(file: File, key: string)
    requires Meaning(file).Ok? && key in Meaning(file).value
    ensures NoBreak(Meaning(file).value[key])
  {
    if file.Holds? {
      var lines := SplitLines(WithoutMark(file.text));
      LinesHaveNoBreaks(WithoutMark(file.text));
      CollectedMeans(Entries(lines));
      assert Says(Entries(lines), key, Meaning(file).value[key]);
      LinesSayNoBreak(lines, key, Meaning(file).value[key]);
    }
  }

  /** Reading the printed file gives exactly the printed dictionary. */
  ghost predicate ReadsTheSame(bindings: seq<Binding>)
    requires Environment(bindings).Some?
  {
    var result := Meaning(Holds(Environment(bindings).value));
    result.Ok? && SameBindings(result.value, bindings)
  }

  /**
   The printer and the parser undo each other exactly on the values without a
   line separator. The printer refuses only newlines and carriage returns, so
   the other separators are printed and then not read back.
   */
  lemma RoundTrip(bindings: seq<Binding>)
    requires Dictionary(bindings) && Environment(bindings).Some?
    ensures ReadsTheSame(bindings) <==> forall b <- bindings :: NoBreak(b.1)
  {
    if forall b <- bindings :: NoBreak(b.1) {
      ReadsBack(bindings);
    } else if ReadsTheSame(bindings) {
      var b :| b in bindings && !NoBreak(b.1);
      assert (b.0, b.1) in bindings;
      ParsedValuesHaveNoBreaks(Holds(Printed(bindings)), b.0);
      assert false;
    }
  }

  /** A vertical tab is accepted by the printer and not read back. */
  lemma VerticalTabIsLost(bindings: seq<Binding>)
    requires bindings == [("A", "\U{0B}")]
    ensures Dictionary(bindings) && Environment(bindings).Some? && !ReadsTheSame(bindings)
  {
    assert IsBreak(bindings[0].1[0]);
    RoundTrip(bindings);
  }
}
