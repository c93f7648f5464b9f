/** The text operations of the Python runtime that the splitters and parsers use. */
module PythonText {

  /** The characters that str.isspace, str.strip and the pattern class \s agree on. */
  predicate IsSpace(c: char) {
    || '\t' <= c <= '\r' || '\U{1C}' <= c <= ' ' || c == '\U{85}' || c == '\U{A0}' || c == '\U{1680}'
    || '\U{2000}' <= c <= '\U{200A}' || c == '\U{2028}' || c == '\U{2029}' || c == '\U{202F}'
    || c == '\U{205F}' || c == '\U{3000}'
  }

  /** The characters at which str.splitlines ends a line. */
  predicate IsBreak(c: char) {
    '\n' <= c <= '\r' || '\U{1C}' <= c <= '\U{1E}' || c == '\U{85}' || c == '\U{2028}' || c == '\U{2029}'
  }

  /** Whether the stripped text would be empty. */
  predicate IsBlank(s: string) {
    forall i | 0 <= i < |s| :: IsSpace(s[i])
  }

  /** How many spaces a text starts with. */
  function SpaceRun(s: string): (n: nat)
    ensures n <= |s| && (forall i :: 0 <= i < n ==> IsSpace(s[i])) && (n < |s| ==> !IsSpace(s[n]))
  {
    if s != "" && IsSpace(s[0]) then 1 + SpaceRun(s[1..]) else 0
  }

  function StripLeft(s: string): string {
    if s != "" && IsSpace(s[0]) then StripLeft(s[1..]) else s
  }

  function StripRight(s: string): string {
    if s != "" && IsSpace(s[|s| - 1]) then StripRight(s[..|s| - 1]) else s
  }

  function Strip(s: string): string {
    StripRight(StripLeft(s))
  }

  lemma {:induction false} StripLeftSlices(s: string) returns (k: nat)
    ensures k <= |s| && StripLeft(s) == s[k..] && IsBlank(s[..k])
    ensures k < |s| ==> !IsSpace(s[k])
  {
    if s != "" && IsSpace(s[0]) {
      k := StripLeftSlices(s[1..]);
      assert s[1..][k..] == s[k + 1..];
      assert forall i :: 1 <= i < k + 1 ==> s[i] == s[1..][..k][i - 1];
      k := k + 1;
    } else {
      k := 0;
    }
  }

  lemma {:induction false} StripRightSlices(s: string) returns (k: nat)
    ensures k <= |s| && StripRight(s) == s[..k] && IsBlank(s[k..])
    ensures k > 0 ==> !IsSpace(s[k - 1])
  {
    if s != "" && IsSpace(s[|s| - 1]) {
      var most := s[..|s| - 1];
      k := StripRightSlices(most);
      assert most[..k] == s[..k];
      forall i | k <= i < |s| ensures IsSpace(s[i]) {
        if i < |s| - 1 {
          assert s[i] == most[i] == most[k..][i - k];
        }
      }
    } else {
      k := |s|;
    }
  }

  /** Stripping cuts blank ends and leaves a text that is empty or has no space at either end. */
  lemma StripSlices(s: string) returns (a: nat, b: nat)
    ensures a <= b <= |s| && Strip(s) == s[a..b] && IsBlank(s[..a]) && IsBlank(s[b..])
    ensures a < b ==> !IsSpace(s[a]) && !IsSpace(s[b - 1])
    ensures IsBlank(s) <==> Strip(s) == ""
  {
    a := StripLeftSlices(s);
    var k := StripRightSlices(s[a..]);
    b := a + k;
    assert s[a..][..k] == s[a..b];
    assert s[a..][k..] == s[b..];
    if k > 0 {
      assert s[a..][k - 1] == s[b - 1];
    } else {
      assert s == s[..a] + s[b..];
    }
  }

  lemma {:induction false} StripLeftSkips(front: string, s: string)
    requires IsBlank(front) && (s == "" || !IsSpace(s[0]))
    ensures StripLeft(front + s) == s
  {
    if front == "" {
      assert front + s == s;
    } else {
      assert (front + s)[1..] == front[1..] + s;
      StripLeftSkips(front[1..], s);
    }
  }

  lemma {:induction false} StripRightSkips(s: string, back: string)
    requires IsBlank(back) && (s == "" || !IsSpace(s[|s| - 1]))
    ensures StripRight(s + back) == s
  {
    if back == "" {
      assert s + back == s;
    } else {
      assert (s + back)[..|s + back| - 1] == s + back[..|back| - 1];
      StripRightSkips(s, back[..|back| - 1]);
    }
  }

  lemma StripsTo(front: string, s: string, back: string)
    requires IsBlank(front) && IsBlank(back) && s != "" && !IsSpace(s[0]) && !IsSpace(s[|s| - 1])
    ensures Strip(front + s + back) == s
  {
    assert front + s + back == front + (s + back);
    StripLeftSkips(front, s + back);
    StripRightSkips(s, back);
  }

  lemma {:induction false} SpaceRunIs(gap: string, rest: string)
    requires IsBlank(gap) && (rest == "" || !IsSpace(rest[0]))
    ensures SpaceRun(gap + rest) == |gap|
  {
    if gap != "" {
      assert (gap + rest)[1..] == gap[1..] + rest;
      SpaceRunIs(gap[1..], rest);
    } else {
      assert gap + rest == rest;
    }
  }

  lemma TightTextIsStripped(s: string)
    requires s != "" && !IsSpace(s[0]) && !IsSpace(s[|s| - 1])
    ensures Strip(s) == s
  {
    assert StripLeft(s) == s && StripRight(s) == s;
  }

  lemma BlankPrefix(s: string, n: nat)
    requires n <= |s| && IsBlank(s[..n])
    ensures forall k :: 0 <= k < n ==> IsSpace(s[k])
  {
    forall k | 0 <= k < n ensures IsSpace(s[k]) {
      assert s[..n][k] == s[k];
    }
  }

  /** str.rfind of one character in text[lo:hi]. */
  function RFind(text: string, c: char, lo: nat, hi: nat): (found: int)
    requires hi <= |text|
    ensures found == -1 || (lo <= found < hi && text[found] == c)
    ensures forall i :: lo <= i < hi && text[i] == c ==> i <= found
  {
    if hi <= lo then -1 else if text[hi - 1] == c then hi - 1 else RFind(text, c, lo, hi - 1)
  }

  /** str.count of one character. */
  function Count(text: string, c: char): nat {
    |set i | 0 <= i < |text| && text[i] == c|
  }

  predicate NoBreak(s: string) {
    forall i | 0 <= i < |s| :: !IsBreak(s[i])
  }

  /** The position of the first line break, or the length. */
  function FirstBreak(text: string): (found: nat)
    ensures found <= |text| && NoBreak(text[..found])
    ensures found < |text| ==> IsBreak(text[found])
  {
    if text == "" || IsBreak(text[0]) then 0 else
      var found := FirstBreak(text[1..]);
      assert text[..found + 1] == [text[0]] + text[1..][..found];
      found + 1
  }

  /** str.splitlines: a carriage return followed by a newline is one break, and a final break adds no line. */
  function SplitLines(text: string): seq<string> {
    if text == "" then [] else
      var end := FirstBreak(text);
      if end == |text| then [text] else
        var width := if text[end] == '\r' && end + 1 < |text| && text[end + 1] == '\n' then 2 else 1;
        [text[..end]] + SplitLines(text[end + width..])
  }

  lemma {:induction false} LinesHaveNoBreaks(text: string)
    ensures forall line :: line in SplitLines(text) ==> NoBreak(line)
  {
    if text != "" && FirstBreak(text) < |text| {
      var end := FirstBreak(text);
      var width := if text[end] == '\r' && end + 1 < |text| && text[end + 1] == '\n' then 2 else 1;
      LinesHaveNoBreaks(text[end + width..]);
    }
  }

  lemma {:induction false} FirstBreakAfter(line: string, rest: string)
    requires NoBreak(line) && rest != "" && IsBreak(rest[0])
    ensures FirstBreak(line + rest) == |line|
  {
    if line == "" {
      assert line + rest == rest;
    } else {
      assert (line + rest)[1..] == line[1..] + rest;
      FirstBreakAfter(line[1..], rest);
    }
  }

  lemma BreakOfTwo(line: string, rest: string)
    requires NoBreak(line)
    ensures SplitLines(line + ("\r\n" + rest)) == [line] + SplitLines(rest)
  {
    var text := line + ("\r\n" + rest);
    FirstBreakAfter(line, "\r\n" + rest);
    assert text[..|line|] == line && text[|line| + 2..] == rest && text[|line|] == '\r' && text[|line| + 1] == '\n';
  }

  lemma BreakOfOne(line: string, c: char, rest: string)
    requires NoBreak(line) && IsBreak(c) && !(c == '\r' && rest != "" && rest[0] == '\n')
    ensures SplitLines(line + ([c] + rest)) == [line] + SplitLines(rest)
  {
    var text := line + ([c] + rest);
    FirstBreakAfter(line, [c] + rest);
    assert text[..|line|] == line && text[|line| + 1..] == rest && text[|line|] == c;
    assert rest != "" ==> text[|line| + 1] == rest[0];
  }

  /** The four cases of splitting determine it: no text, one line, and a first line behind which a break stands. */
  lemma SplitLinesMeans(line: string, c: char, rest: string)
    requires NoBreak(line) && IsBreak(c)
    ensures SplitLines("") == [] && (line != "" ==> SplitLines(line) == [line])
    ensures SplitLines(line + ("\r\n" + rest)) == [line] + SplitLines(rest)
    ensures !(c == '\r' && rest != "" && rest[0] == '\n') ==>
      SplitLines(line + ([c] + rest)) == [line] + SplitLines(rest)
  {
    if line != "" {
      OneLine(line);
    }
    BreakOfTwo(line, rest);
    if !(c == '\r' && rest != "" && rest[0] == '\n') {
      BreakOfOne(line, c, rest);
    }
  }

  lemma OneLine(line: string)
    requires NoBreak(line) && line != ""
    ensures SplitLines(line) == [line]
  {
  }

  /** "\n".join. */
  function JoinLines(lines: seq<string>): string {
    if lines == [] then "" else if |lines| == 1 then lines[0] else
      JoinLines(lines[..|lines| - 1]) + "\n" + lines[|lines| - 1]
  }

  lemma {:induction false} JoinFromTheFront(line: string, rest: seq<string>)
    requires rest != []
    ensures JoinLines([line] + rest) == line + ("\n" + JoinLines(rest))
  {
    var all, n := [line] + rest, |rest|;
    assert all[..n] == [line] + rest[..n - 1] && all[n] == rest[n - 1];
    if n > 1 {
      JoinFromTheFront(line, rest[..n - 1]);
    } else {
      assert rest[..0] == [] && all[..1] == [line];
    }
  }

  /** Joining and splitting undo each other on lines without breaks, when the last is not empty. */
  lemma {:induction false} JoinedLinesSplitBack(lines: seq<string>)
    requires lines != [] && (forall line <- lines :: NoBreak(line)) && lines[|lines| - 1] != ""
    ensures SplitLines(JoinLines(lines)) == lines
  {
    if |lines| == 1 {
      OneLine(lines[0]);
    } else {
      var rest := lines[1..];
      assert lines == [lines[0]] + rest && lines[0] in lines && forall line <- rest :: line in lines;
      JoinFromTheFront(lines[0], rest);
      JoinedLinesSplitBack(rest);
      BreakOfOne(lines[0], '\n', JoinLines(rest));
      assert ['\n'] + JoinLines(rest) == "\n" + JoinLines(rest);
    }
  }

  predicate StartsWith(s: string, prefix: string) {
    prefix <= s
  }
}
