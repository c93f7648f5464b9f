/** The two window chunkers: plain text, and text within parser segments. */
module Chunking {
  import opened Wrappers
  import opened PythonText

  datatype Window = Window(start: nat, end: nat)

  /** Where the text came from: its lines, or its segment's label and, for long segments, the part. */
  datatype Locator = Lines(first: nat, last: nat) | InSegment(segment: string, part: Option<nat>)

  datatype Chunk = Chunk(ordinal: nat, text: string, locator: Locator, start: nat, end: nat)

  datatype Segment = Segment(text: string, locator: string)

  function Max(a: nat, b: int): nat {
    if a >= b then a else b
  }

  // ----- Windows -----

  /** The end of the window at `start`: full size, cut back to just after a late newline. */
  function WindowEnd(text: string, start: nat, size: nat): (end: nat)
    requires start < |text| && 0 < size
    ensures start < end <= |text| && end <= start + size
    ensures end < |text| ==> end - start >= size / 2 + 1
  {
    if |text| <= start + size then |text| else
      var newline := RFind(text, '\n', start + Max(1, size / 2), start + size);
      if newline > start then newline + 1 else start + size
  }

  function NextStart(start: nat, end: nat, overlap: nat): (next: nat)
    requires start < end
    ensures start < next <= end
  {
    Max(start + 1, end - overlap)
  }

  /** The slice is inside the text and not empty. */
  predicate InText(text: string, w: Window) {
    w.start < w.end <= |text|
  }

  function Windows(text: string, start: nat, size: nat, overlap: nat): (ws: seq<Window>)
    requires 0 < size
    ensures forall w :: w in ws ==> InText(text, w) && start <= w.start
    decreases |text| - start
  {
    if start >= |text| then [] else
      var end := WindowEnd(text, start, size);
      [Window(start, end)] +
      (if end >= |text| then [] else Windows(text, NextStart(start, end, overlap), size, overlap))
  }

  /** Cutting back never moves the next window's end behind this one's. */
  lemma EndsNeverMoveBack(text: string, start: nat, size: nat, overlap: nat)
    requires start < |text| && 0 < size && WindowEnd(text, start, size) < |text|
    ensures var end := WindowEnd(text, start, size);
            end <= WindowEnd(text, NextStart(start, end, overlap), size)
  {
    var end := WindowEnd(text, start, size);
    var next := NextStart(start, end, overlap);
    if next + size < |text| {
      var here := RFind(text, '\n', start + Max(1, size / 2), start + size);
      var there := RFind(text, '\n', next + Max(1, size / 2), next + size);
      if there > next {
        if here > start {
          assert next + Max(1, size / 2) <= end - 1 ==> text[end - 1] == '\n';
        }
      }
    }
  }

  /** With an overlap of at most half a window, starts advance by at least the remaining half. */
  predicate Steady(size: nat, overlap: nat) {
    overlap <= size / 2
  }

  /**
   What holds of two successive windows: the second repeats exactly the last
   `overlap` characters of the first, or all but one of a first that is no longer.
   */
  predicate Follows(text: string, a: Window, b: Window, size: nat, overlap: nat) {
    && a.start < b.start <= a.end <= b.end && a.end < |text|
    && (if a.end - a.start > overlap then a.end - b.start == overlap else b.start == a.start + 1)
    && (Steady(size, overlap) ==> b.start >= a.start + (size / 2 + 1 - overlap))
  }

  /**
   The windows cover the text: the first starts at its start, the last ends at
   its end, each starts inside or right after its predecessor, starts strictly
   increase, ends never decrease, and none is empty or longer than the size.
   */
  lemma {:induction false} WindowsCover(text: string, start: nat, size: nat, overlap: nat)
    requires start < |text| && 0 < size
    ensures var ws := Windows(text, start, size, overlap);
            && |ws| > 0 && ws[0].start == start && ws[|ws| - 1].end == |text|
            && ws[0].end == WindowEnd(text, start, size)
            && (forall i :: 0 <= i < |ws| ==>
                  ws[i].start < ws[i].end <= |text| && ws[i].end - ws[i].start <= size && start <= ws[i].start)
            && (forall i :: 0 <= i < |ws| - 1 ==> Follows(text, ws[i], ws[i + 1], size, overlap))
    decreases |text| - start
  {
    var end := WindowEnd(text, start, size);
    if end < |text| {
      var next := NextStart(start, end, overlap);
      WindowsCover(text, next, size, overlap);
      EndsNeverMoveBack(text, start, size, overlap);
      var ws := Windows(text, start, size, overlap);
      var rest := Windows(text, next, size, overlap);
      assert ws == [Window(start, end)] + rest;
      forall i | 0 <= i < |ws| - 1 ensures Follows(text, ws[i], ws[i + 1], size, overlap) {
        assert i > 0 ==> ws[i] == rest[i - 1] && ws[i + 1] == rest[i];
      }
    }
  }

  /** Every position of the text lies in some window. */
  lemma {:induction false} PositionIsCovered(text: string, start: nat, size: nat, overlap: nat, p: nat) returns (k: nat)
    requires 0 < size && start <= p < |text|
    ensures k < |Windows(text, start, size, overlap)|
    ensures var w := Windows(text, start, size, overlap)[k]; w.start <= p < w.end
    decreases |text| - start
  {
    var end := WindowEnd(text, start, size);
    if p < end {
      k := 0;
    } else {
      k := PositionIsCovered(text, NextStart(start, end, overlap), size, overlap, p);
      k := k + 1;
    }
  }

  lemma Multiples(k: nat, step: int)
    requires k > 0
    ensures (k - 1) * step + step == k * step
  {
  }

  lemma {:induction false} StartsAdvance(text: string, size: nat, overlap: nat, step: nat, k: nat)
    requires 0 < size && Steady(size, overlap) && step == size / 2 + 1 - overlap
    requires k < |Windows(text, 0, size, overlap)|
    ensures k * step <= Windows(text, 0, size, overlap)[k].start
  {
    if k > 0 {
      StartsAdvance(text, size, overlap, step, k - 1);
      FollowsItsPredecessor(text, size, overlap, k);
      Multiples(k, step);
    }
  }

  /** With overlap at most half the size, the number of windows is bounded by the text's length. */
  lemma WindowCountIsBounded(text: string, size: nat, overlap: nat)
    requires 0 < size && Steady(size, overlap) && text != ""
    ensures (|Windows(text, 0, size, overlap)| - 1) * (size / 2 + 1 - overlap) < |text|
  {
    var ws := Windows(text, 0, size, overlap);
    WindowsCover(text, 0, size, overlap);
    StartsAdvance(text, size, overlap, size / 2 + 1 - overlap, |ws| - 1);
    assert ws[|ws| - 1] in ws;
  }

  // ----- Chunks of one text -----

  function Payload(text: string, w: Window): string
    requires InText(text, w)
  {
    text[w.start..w.end]
  }

  function LineOf(text: string, position: nat): nat
    requires position <= |text|
  {
    Count(text[..position], '\n') + 1
  }

  function TextChunk(text: string, w: Window, ordinal: nat): Chunk
    requires InText(text, w)
  {
    Chunk(ordinal, Payload(text, w), Lines(LineOf(text, w.start), LineOf(text, w.end - 1)), w.start, w.end)
  }

  /** One chunk for each window that is not blank, numbered in order. */
  function Emit(text: string, ws: seq<Window>): seq<Chunk>
    requires forall w :: w in ws ==> InText(text, w)
  {
    if ws == [] then [] else
      var last := ws[|ws| - 1];
      var before := Emit(text, ws[..|ws| - 1]);
      if IsBlank(Payload(text, last)) then before else before + [TextChunk(text, last, |before|)]
  }

  lemma EmitStep(text: string, ws: seq<Window>, w: Window)
    requires (forall v :: v in ws ==> InText(text, v)) && InText(text, w)
    ensures forall v :: v in ws + [w] ==> InText(text, v)
    ensures Emit(text, ws + [w]) ==
      Emit(text, ws) + (if IsBlank(Payload(text, w)) then [] else [TextChunk(text, w, |Emit(text, ws)|)])
  {
    assert (ws + [w])[..|ws|] == ws;
  }

  /** The chunk is the k-th slice of the text, not blank, within the size, and its locator counts its lines. */
  predicate IsSlice(text: string, c: Chunk, k: nat, size: nat) {
    && c.ordinal == k
    && c.start < c.end <= |text| && c.end - c.start <= size
    && c.text == text[c.start..c.end] && !IsBlank(c.text)
    && c.locator.Lines?
    && c.locator.first == 1 + |set i | 0 <= i < c.start && text[i] == '\n'|
    && c.locator.last == 1 + |set i | 0 <= i < c.end - 1 && text[i] == '\n'|
  }

  predicate SliceOf(whole: string, c: Chunk) {
    c.start < c.end <= |whole| && c.text == whole[c.start..c.end]
  }

  predicate Precedes(a: Chunk, b: Chunk) {
    a.start < b.start && a.end <= b.end
  }

  /** What holds of the chunks of a text, whichever windows they came from. */
  ghost predicate ChunksOf(text: string, chunks: seq<Chunk>, size: nat) {
    && (forall k :: 0 <= k < |chunks| ==> IsSlice(text, chunks[k], k, size))
    && (forall j, k :: 0 <= j < k < |chunks| ==> Precedes(chunks[j], chunks[k]))
  }

  ghost predicate Ordered(text: string, ws: seq<Window>, size: nat) {
    && (forall w :: w in ws ==> InText(text, w) && w.end - w.start <= size)
    && (forall i, j :: 0 <= i < j < |ws| ==> ws[i].start < ws[j].start && ws[i].end <= ws[j].end)
  }

  lemma {:induction false} LaterWindowsLieBehind(text: string, size: nat, overlap: nat, i: nat, j: nat)
    requires 0 < size && i < j < |Windows(text, 0, size, overlap)|
    ensures var ws := Windows(text, 0, size, overlap); ws[i].start < ws[j].start && ws[i].end <= ws[j].end
    decreases j
  {
    assert text != "";
    WindowsCover(text, 0, size, overlap);
    var ws := Windows(text, 0, size, overlap);
    assert Follows(text, ws[j - 1], ws[j - 1 + 1], size, overlap);
    if i < j - 1 {
      LaterWindowsLieBehind(text, size, overlap, i, j - 1);
    }
  }

  lemma WindowsAreOrdered(text: string, size: nat, overlap: nat)
    requires 0 < size
    ensures Ordered(text, Windows(text, 0, size, overlap), size)
  {
    var ws := Windows(text, 0, size, overlap);
    if text != "" {
      WindowsCover(text, 0, size, overlap);
      forall i, j | 0 <= i < j < |ws| ensures ws[i].start < ws[j].start && ws[i].end <= ws[j].end {
        LaterWindowsLieBehind(text, size, overlap, i, j);
      }
    }
  }

  /** Emission keeps every window that is not blank. */
  lemma {:induction false} EmitKeeps(text: string, ws: seq<Window>, i: nat)
    requires (forall w :: w in ws ==> InText(text, w)) && i < |ws| && !IsBlank(Payload(text, ws[i]))
    ensures exists c :: c in Emit(text, ws) && c.start == ws[i].start && c.end == ws[i].end
  {
    var front, last := ws[..|ws| - 1], ws[|ws| - 1];
    var before := Emit(text, front);
    if i == |ws| - 1 {
      assert TextChunk(text, last, |before|) in Emit(text, ws);
    } else {
      assert front[i] == ws[i];
      EmitKeeps(text, front, i);
      var c :| c in before && c.start == ws[i].start && c.end == ws[i].end;
      assert c in Emit(text, ws);
    }
  }

  /** Emission invents nothing. */
  lemma {:induction false} EmitOnlyWindows(text: string, ws: seq<Window>, c: Chunk)
    requires (forall w :: w in ws ==> InText(text, w)) && c in Emit(text, ws)
    ensures Window(c.start, c.end) in ws
  {
    var front, last := ws[..|ws| - 1], ws[|ws| - 1];
    if c in Emit(text, front) {
      EmitOnlyWindows(text, front, c);
    } else {
      assert last in ws;
    }
  }

  lemma LastPrecededByAll(text: string, front: seq<Window>, last: Window, size: nat, c: Chunk)
    requires Ordered(text, front + [last], size) && (forall w :: w in front ==> InText(text, w))
    requires c in Emit(text, front)
    ensures c.start < last.start && c.end <= last.end
  {
    EmitOnlyWindows(text, front, c);
    var i :| 0 <= i < |front| && front[i] == Window(c.start, c.end);
    assert (front + [last])[i] == front[i] && (front + [last])[|front|] == last;
  }

  lemma OrderedFront(text: string, ws: seq<Window>, size: nat)
    requires Ordered(text, ws, size) && ws != []
    ensures Ordered(text, ws[..|ws| - 1], size) && InText(text, ws[|ws| - 1])
    ensures ws == ws[..|ws| - 1] + [ws[|ws| - 1]]
  {
    assert ws[|ws| - 1] in ws;
  }

  lemma LinesAreCounted(text: string, position: nat)
    requires position <= |text|
    ensures LineOf(text, position) == 1 + |set i | 0 <= i < position && text[i] == '\n'|
  {
    var front := text[..position];
    assert (set i | 0 <= i < |front| && front[i] == '\n') == set i | 0 <= i < position && text[i] == '\n';
  }

  lemma ChunkOfWindow(text: string, w: Window, k: nat, size: nat)
    requires InText(text, w) && w.end - w.start <= size && !IsBlank(Payload(text, w))
    ensures IsSlice(text, TextChunk(text, w, k), k, size)
  {
    LinesAreCounted(text, w.start);
    LinesAreCounted(text, w.end - 1);
  }

  lemma {:induction false} EmittedChunks(text: string, ws: seq<Window>, size: nat)
    requires Ordered(text, ws, size)
    ensures ChunksOf(text, Emit(text, ws), size)
  {
    if ws != [] {
      OrderedFront(text, ws, size);
      var front, last := ws[..|ws| - 1], ws[|ws| - 1];
      EmittedChunks(text, front, size);
      var before := Emit(text, front);
      EmitStep(text, front, last);
      forall j | 0 <= j < |before| ensures before[j].start < last.start && before[j].end <= last.end {
        LastPrecededByAll(text, front, last, size, before[j]);
      }
      if !IsBlank(Payload(text, last)) {
        ChunkOfWindow(text, last, |before|, size);
      }
    }
  }

  function TextChunks(text: string, size: nat, overlap: nat): seq<Chunk>
    requires 0 < size
  {
    Emit(text, Windows(text, 0, size, overlap))
  }

  lemma CharacterIsChunked(text: string, size: nat, overlap: nat, p: nat)
    requires 0 < size && p < |text| && !IsSpace(text[p])
    ensures exists c :: c in TextChunks(text, size, overlap) && c.start <= p < c.end
  {
    var ws := Windows(text, 0, size, overlap);
    var k := PositionIsCovered(text, 0, size, overlap, p);
    assert ws[k] in ws;
    assert Payload(text, ws[k])[p - ws[k].start] == text[p];
    EmitKeeps(text, ws, k);
  }

  /**
   The chunks of a text are slices of it in order, numbered from zero, no longer
   than the size, and together they hold every character that is not a space.
   */
  lemma TextChunksCoverTheText(text: string, size: nat, overlap: nat)
    requires 0 < size
    ensures ChunksOf(text, TextChunks(text, size, overlap), size)
    ensures forall p :: 0 <= p < |text| && !IsSpace(text[p]) ==>
      exists c :: c in TextChunks(text, size, overlap) && c.start <= p < c.end
  {
    WindowsAreOrdered(text, size, overlap);
    EmittedChunks(text, Windows(text, 0, size, overlap), size);
    forall p | 0 <= p < |text| && !IsSpace(text[p])
      ensures exists c :: c in TextChunks(text, size, overlap) && c.start <= p < c.end
    {
      CharacterIsChunked(text, size, overlap, p);
    }
  }

  // ----- Neighbouring chunks overlap -----

  lemma {:induction false} EmitGrows(text: string, ws: seq<Window>, n: nat)
    requires (forall w :: w in ws ==> InText(text, w)) && n <= |ws|
    ensures (forall w :: w in ws[..n] ==> InText(text, w)) && Emit(text, ws[..n]) <= Emit(text, ws)
  {
    if n < |ws| {
      EmitGrows(text, ws[..|ws| - 1], n);
      assert ws[..|ws| - 1][..n] == ws[..n];
    } else {
      assert ws[..n] == ws;
    }
  }

  /** The window that a chunk came from. */
  lemma {:induction false} EmitCameFrom(text: string, ws: seq<Window>, j: nat) returns (k: nat)
    requires (forall w :: w in ws ==> InText(text, w)) && j < |Emit(text, ws)|
    ensures k < |ws| && ws[k] in ws && !IsBlank(Payload(text, ws[k])) && |Emit(text, ws[..k])| == j
    ensures Emit(text, ws)[j].start == ws[k].start && Emit(text, ws)[j].end == ws[k].end
  {
    var front := ws[..|ws| - 1];
    if j < |Emit(text, front)| {
      k := EmitCameFrom(text, front, j);
      assert front[..k] == ws[..k];
    } else {
      k := |ws| - 1;
      assert ws[k] in ws;
    }
  }

  /** A window that is not blank gives the chunk numbered by those before it. */
  lemma EmitsAt(text: string, ws: seq<Window>, k: nat)
    requires (forall w :: w in ws ==> InText(text, w)) && k < |ws| && !IsBlank(Payload(text, ws[k]))
    ensures (forall w :: w in ws[..k] ==> InText(text, w)) && |Emit(text, ws[..k])| < |Emit(text, ws)|
    ensures var j := |Emit(text, ws[..k])|;
      && Emit(text, ws)[j].start == ws[k].start && Emit(text, ws)[j].end == ws[k].end
      && |Emit(text, ws[..k + 1])| == j + 1
  {
    EmitGrows(text, ws, k + 1);
    assert ws[..k + 1] == ws[..k] + [ws[k]];
    EmitStep(text, ws[..k], ws[k]);
  }

  /**
   The following chunk starts `overlap` characters before the end, or one behind
   the start when the chunk is no longer, unless only spaces would be shared.
   */
  predicate Repeats(whole: string, c: Chunk, following: Option<Chunk>, overlap: nat)
    requires c.start < c.end <= |whole|
  {
    var next := if c.end - c.start > overlap then c.end - overlap else c.start + 1;
    (exists p | next <= p < c.end :: !IsSpace(whole[p])) ==>
      following.Some? && following.value.start == next && following.value.end >= c.end
  }

  function Following(chunks: seq<Chunk>, k: nat): Option<Chunk> {
    if k + 1 < |chunks| then Some(chunks[k + 1]) else None
  }

  /** The window after chunk j's window gives chunk j + 1. */
  lemma NextIsEmitted(text: string, ws: seq<Window>, j: nat, k: nat)
    requires (forall w :: w in ws ==> InText(text, w)) && k + 1 < |ws| && |Emit(text, ws[..k])| == j
    requires !IsBlank(Payload(text, ws[k])) && !IsBlank(Payload(text, ws[k + 1]))
    ensures j + 1 < |Emit(text, ws)|
    ensures Emit(text, ws)[j + 1].start == ws[k + 1].start && Emit(text, ws)[j + 1].end == ws[k + 1].end
  {
    EmitsAt(text, ws, k);
    EmitsAt(text, ws, k + 1);
  }

  lemma HoldsCharacter(text: string, w: Window, p: nat)
    requires InText(text, w) && w.start <= p < w.end && !IsSpace(text[p])
    ensures !IsBlank(Payload(text, w))
  {
    assert Payload(text, w)[p - w.start] == text[p];
  }

  /** Of two successive windows the second begins with what they share. */
  lemma WindowsShare(text: string, ws: seq<Window>, size: nat, overlap: nat, j: nat, k: nat)
    requires (forall w :: w in ws ==> InText(text, w)) && k + 1 < |ws| && |Emit(text, ws[..k])| == j
    requires ws[k] in ws && !IsBlank(Payload(text, ws[k])) && Follows(text, ws[k], ws[k + 1], size, overlap)
    requires j < |Emit(text, ws)| && Emit(text, ws)[j].start == ws[k].start && Emit(text, ws)[j].end == ws[k].end
    ensures Repeats(text, Emit(text, ws)[j], Following(Emit(text, ws), j), overlap)
  {
    var a, b := ws[k], ws[k + 1];
    if p :| b.start <= p < a.end && !IsSpace(text[p]) {
      assert b in ws;
      HoldsCharacter(text, b, p);
      NextIsEmitted(text, ws, j, k);
    }
  }

  /**
   Successive chunks overlap as configured. A chunk that does not reach the end
   of the text is followed by one that starts `overlap` characters before its
   end, and so repeats these characters, unless they are all spaces.
   */
  lemma NeighboursOverlap(text: string, size: nat, overlap: nat, j: nat)
    requires 0 < size && j < |TextChunks(text, size, overlap)|
    ensures var chunks := TextChunks(text, size, overlap);
      chunks[j].start < chunks[j].end < |text| ==> Repeats(text, chunks[j], Following(chunks, j), overlap)
  {
    var ws := Windows(text, 0, size, overlap);
    var k := EmitCameFrom(text, ws, j);
    if ws[k].end < |text| {
      SuccessorFollows(text, size, overlap, k);
      WindowsShare(text, ws, size, overlap, j, k);
    }
  }

  lemma SuccessorFollows(text: string, size: nat, overlap: nat, k: nat)
    requires 0 < size && k < |Windows(text, 0, size, overlap)| && Windows(text, 0, size, overlap)[k].end < |text|
    ensures k + 1 < |Windows(text, 0, size, overlap)|
    ensures var ws := Windows(text, 0, size, overlap);
      InText(text, ws[k + 1]) && Follows(text, ws[k], ws[k + 1], size, overlap)
  {
    WindowsCover(text, 0, size, overlap);
  }

  lemma {:induction false} EachWindowIsCut(text: string, start: nat, size: nat, overlap: nat, k: nat)
    requires 0 < size && k < |Windows(text, start, size, overlap)|
    ensures var w := Windows(text, start, size, overlap)[k];
      w.start < |text| && w.end == WindowEnd(text, w.start, size)
    decreases k
  {
    if k > 0 {
      EachWindowIsCut(text, NextStart(start, WindowEnd(text, start, size), overlap), size, overlap, k - 1);
    }
  }

  lemma UnbrokenWindow(text: string, start: nat, size: nat)
    requires 0 < size && (forall i :: 0 <= i < |text| ==> text[i] != '\n') && start < |text|
    ensures WindowEnd(text, start, size) == if start + size < |text| then start + size else |text|
  {
  }

  function Steps(k: nat, step: nat): nat {
    if k == 0 then 0 else step + Steps(k - 1, step)
  }

  lemma {:induction false} StepsMultiply(k: nat, step: nat)
    ensures Steps(k, step) == k * step
  {
    if k > 0 {
      StepsMultiply(k - 1, step);
      Multiples(k, step);
    }
  }

  lemma {:induction false} UnbrokenWindows(text: string, size: nat, overlap: nat, k: nat)
    requires overlap < size && (forall i :: 0 <= i < |text| ==> text[i] != '\n')
    requires k < |Windows(text, 0, size, overlap)|
    ensures var w := Windows(text, 0, size, overlap)[k];
      && w.start == Steps(k, size - overlap)
      && w.end == if w.start + size < |text| then w.start + size else |text|
    decreases k
  {
    EachWindowIsCut(text, 0, size, overlap, k);
    UnbrokenWindow(text, Windows(text, 0, size, overlap)[k].start, size);
    if k > 0 {
      UnbrokenWindows(text, size, overlap, k - 1);
      FollowsItsPredecessor(text, size, overlap, k);
    }
  }

  lemma FollowsItsPredecessor(text: string, size: nat, overlap: nat, k: nat)
    requires 0 < size && 0 < k < |Windows(text, 0, size, overlap)|
    ensures Follows(text, Windows(text, 0, size, overlap)[k - 1], Windows(text, 0, size, overlap)[k], size, overlap)
  {
    WindowsCover(text, 0, size, overlap);
    var ws := Windows(text, 0, size, overlap);
    assert Follows(text, ws[k - 1], ws[k - 1 + 1], size, overlap);
  }

  lemma {:induction false} EmitsAll(text: string, ws: seq<Window>)
    requires (forall w :: w in ws ==> InText(text, w)) && forall i :: 0 <= i < |text| ==> !IsSpace(text[i])
    ensures |Emit(text, ws)| == |ws|
    ensures forall k :: 0 <= k < |ws| ==> Emit(text, ws)[k].start == ws[k].start && Emit(text, ws)[k].end == ws[k].end
  {
    if ws != [] {
      var front, last := ws[..|ws| - 1], ws[|ws| - 1];
      EmitsAll(text, front);
      assert last in ws && Payload(text, last)[0] == text[last.start];
    }
  }

  /** A text without spaces is cut into pieces of the full size, each starting one step behind the one before. */
  lemma UnbrokenTextIsCutEvenly(text: string, size: nat, overlap: nat, k: nat)
    requires overlap < size && (forall i :: 0 <= i < |text| ==> !IsSpace(text[i]))
    requires k < |TextChunks(text, size, overlap)|
    ensures var c := TextChunks(text, size, overlap)[k];
      c.start == k * (size - overlap) && c.end == if c.start + size < |text| then c.start + size else |text|
  {
    EmitsAll(text, Windows(text, 0, size, overlap));
    UnbrokenWindows(text, size, overlap, k);
    StepsMultiply(k, size - overlap);
  }

  lemma TextChunkFields(text: string, start: nat, end: nat, ordinal: nat)
    requires start < end <= |text|
    ensures var last := Max(start, end - 1);
            TextChunk(text, Window(start, end), ordinal) ==
              Chunk(ordinal, text[start..end], Lines(LineOf(text, start), LineOf(text, last)), start, end)
    ensures Payload(text, Window(start, end)) == text[start..end]
  {
  }

  /** Doing the window at `start` leaves the windows that start at its successor. */
  lemma WindowDone(text: string, size: nat, overlap: nat, start: nat, done: seq<Window>, all: seq<Window>)
    requires 0 < size && start < |text| && all == done + Windows(text, start, size, overlap)
    ensures var end := WindowEnd(text, start, size);
            var done' := done + [Window(start, end)];
            if end < |text| then all == done' + Windows(text, NextStart(start, end, overlap), size, overlap)
            else all == done'
  {
    var end := WindowEnd(text, start, size);
    var rest := if end < |text| then Windows(text, NextStart(start, end, overlap), size, overlap) else [];
    assert Windows(text, start, size, overlap) == [Window(start, end)] + rest;
    assert done + ([Window(start, end)] + rest) == (done + [Window(start, end)]) + rest;
  }

  /** The end of the window at `start`, cut back to a newline in its second half. */
  method CutBack(text: string, start: nat, size: nat) returns (end: nat)
    requires start < |text| && 0 < size
    ensures end == WindowEnd(text, start, size)
    ensures start < end <= |text| && end - start <= size
    ensures start + size >= |text| ==> end == |text|
    ensures start + size < |text| ==>
      var half := start + Max(1, size / 2);
      if exists i :: half <= i < start + size && text[i] == '\n'
      then half < end && text[end - 1] == '\n' && forall i :: end <= i < start + size ==> text[i] != '\n'
      else end == start + size
  {
    end := if |text| < start + size then |text| else start + size;
    if end < |text| {
      var newline := RFind(text, '\n', start + Max(1, size / 2), end);
      if newline > start {
        end := newline + 1;
      }
    }
  }

  /** The chunker of plain text, step by step. */
  method DeterministicChunks(text: string, size: nat, overlap: nat) returns (chunks: seq<Chunk>)
    requires 0 < size
    ensures chunks == TextChunks(text, size, overlap)
    ensures forall j :: 0 <= j < |chunks| && chunks[j].start < chunks[j].end < |text| ==>
      Repeats(text, chunks[j], Following(chunks, j), overlap)
  {
    chunks := [];
    var start, ordinal := 0, 0;
    ghost var all := Windows(text, 0, size, overlap);
    ghost var done: seq<Window> := [];
    assert all == done + all;
    while start < |text|
      invariant all == done + Windows(text, start, size, overlap)
      invariant forall w :: w in done ==> InText(text, w)
      invariant chunks == Emit(text, done) && ordinal == |chunks|
      decreases |text| - start
    {
      var end := CutBack(text, start, size);
      ghost var w := Window(start, end);
      WindowDone(text, size, overlap, start, done, all);
      EmitStep(text, done, w);
      TextChunkFields(text, start, end, ordinal);
      ghost var next := NextStart(start, end, overlap);
      var payload := text[start..end];
      if !IsBlank(payload) {
        var lineStart := LineOf(text, start);
        var lineEnd := LineOf(text, Max(start, end - 1));
        chunks := chunks + [Chunk(ordinal, payload, Lines(lineStart, lineEnd), start, end)];
        ordinal := ordinal + 1;
      }
      done := done + [w];
      if end >= |text| {
        assert all == done;
        break;
      }
      start := Max(start + 1, end - overlap);
      assert start == next;
    }
    assert all == done;
    forall j | 0 <= j < |chunks| && chunks[j].start < chunks[j].end < |text|
      ensures Repeats(text, chunks[j], Following(chunks, j), overlap)
    {
      NeighboursOverlap(text, size, overlap, j);
    }
  }

  // ----- Chunks of parser segments -----

  /** The segments joined by newlines, as the canonical text of the document. */
  function Joined(segments: seq<Segment>): string {
    if segments == [] then "" else
      var front, last := segments[..|segments| - 1], segments[|segments| - 1];
      if front == [] then last.text else Joined(front) + "\n" + last.text
  }

  /** Where the next segment starts in the joined text. */
  function Offset(segments: seq<Segment>): nat {
    if segments == [] then 0 else Offset(segments[..|segments| - 1]) + |segments[|segments| - 1].text| + 1
  }

  lemma {:induction false} JoinedLength(segments: seq<Segment>)
    requires segments != []
    ensures |Joined(segments)| + 1 == Offset(segments)
  {
    var front := segments[..|segments| - 1];
    if front != [] {
      JoinedLength(front);
    }
  }

  /** A chunk of one segment's text, located in the whole document. */
  function Located(c: Chunk, segment: Segment, size: nat, ordinal: nat, offset: nat): Chunk {
    Chunk(ordinal + c.ordinal, c.text,
      InSegment(segment.locator, if |segment.text| > size then Some(c.ordinal + 1) else None),
      offset + c.start, offset + c.end)
  }

  function LocatedAll(chunks: seq<Chunk>, segment: Segment, size: nat, ordinal: nat, offset: nat): (located: seq<Chunk>)
    ensures |located| == |chunks|
  {
    if chunks == [] then [] else
      var front, last := chunks[..|chunks| - 1], chunks[|chunks| - 1];
      LocatedAll(front, segment, size, ordinal, offset) + [Located(last, segment, size, ordinal, offset)]
  }

  lemma {:induction false} LocatedAt(chunks: seq<Chunk>, segment: Segment, size: nat, ordinal: nat, offset: nat, k: nat)
    requires k < |chunks|
    ensures LocatedAll(chunks, segment, size, ordinal, offset)[k] == Located(chunks[k], segment, size, ordinal, offset)
  {
    if k < |chunks| - 1 {
      LocatedAt(chunks[..|chunks| - 1], segment, size, ordinal, offset, k);
    }
  }

  function SegmentChunks(segments: seq<Segment>, size: nat, overlap: nat): seq<Chunk>
    requires 0 < size
  {
    if segments == [] then [] else
      var front, last := segments[..|segments| - 1], segments[|segments| - 1];
      var before := SegmentChunks(front, size, overlap);
      before + LocatedAll(TextChunks(last.text, size, overlap), last, size, |before|, Offset(front))
  }

  /** The chunk is the k-th, lies inside segment i and is the slice of the joined text at its offsets. */
  ghost predicate IndexesJoined(segments: seq<Segment>, c: Chunk, k: nat, i: nat, size: nat) {
    && c.ordinal == k && i < |segments|
    && Offset(segments[..i]) <= c.start < c.end <= Offset(segments[..i]) + |segments[i].text|
    && c.end - c.start <= size && !IsBlank(c.text)
    && SliceOf(Joined(segments), c)
    && c.locator.InSegment? && c.locator.segment == segments[i].locator
    && (c.locator.part.Some? <==> |segments[i].text| > size)
  }

  lemma JoinedGrows(front: seq<Segment>, last: Segment)
    ensures var all := front + [last];
            && Offset(front) + |last.text| == |Joined(all)|
            && Joined(all)[Offset(front)..] == last.text
            && (front != [] ==> Joined(all)[..|Joined(front)|] == Joined(front) && |Joined(front)| <= Offset(front))
  {
    var all := front + [last];
    assert all[..|front|] == front;
    if front != [] {
      JoinedLength(front);
      JoinedLength(all);
    }
  }

  /** A chunk that indexes the joined text keeps doing so when a segment is added. */
  lemma IndexSurvives(front: seq<Segment>, last: Segment, c: Chunk, k: nat, i: nat, size: nat)
    requires IndexesJoined(front, c, k, i, size)
    ensures IndexesJoined(front + [last], c, k, i, size)
  {
    JoinedGrows(front, last);
    var all := front + [last];
    assert all[..i] == front[..i] && all[i] == front[i];
    assert Joined(all)[c.start..c.end] == Joined(all)[..|Joined(front)|][c.start..c.end];
  }

  lemma LocatedSlice(whole: string, c: Chunk, segment: Segment, size: nat, ordinal: nat, offset: nat)
    requires SliceOf(segment.text, c) && offset <= |whole| && whole[offset..] == segment.text
    ensures SliceOf(whole, Located(c, segment, size, ordinal, offset))
  {
    assert whole[offset + c.start..offset + c.end] == whole[offset..][c.start..c.end];
  }

  lemma LastSegmentIndexes(front: seq<Segment>, last: Segment, c: Chunk, k: nat, size: nat, ordinal: nat)
    requires c.ordinal == k && c.end - c.start <= size && SliceOf(last.text, c) && !IsBlank(c.text)
    ensures IndexesJoined(front + [last], Located(c, last, size, ordinal, Offset(front)), ordinal + k, |front|, size)
  {
    var all := front + [last];
    JoinedGrows(front, last);
    LocatedSlice(Joined(all), c, last, size, ordinal, Offset(front));
    assert all[..|front|] == front && all[|front|] == last;
  }

  lemma LastChunkIndexes(front: seq<Segment>, last: Segment, size: nat, overlap: nat, j: nat)
    requires 0 < size && j < |TextChunks(last.text, size, overlap)|
    ensures var before := SegmentChunks(front, size, overlap);
      && |before| + j < |SegmentChunks(front + [last], size, overlap)|
      && IndexesJoined(front + [last], SegmentChunks(front + [last], size, overlap)[|before| + j],
                       |before| + j, |front|, size)
  {
    var before, chunks := SegmentChunks(front, size, overlap), TextChunks(last.text, size, overlap);
    assert (front + [last])[..|front|] == front;
    TextChunksCoverTheText(last.text, size, overlap);
    assert IsSlice(last.text, chunks[j], j, size);
    LocatedAt(chunks, last, size, |before|, Offset(front), j);
    LastSegmentIndexes(front, last, chunks[j], j, size, |before|);
  }

  /**
   Every segment chunk is the slice of the joined text at its own offsets, lies
   inside one segment, carries that segment's locator, and is numbered in order.
   */
  lemma {:induction false} SegmentChunksIndexTheJoinedText(segments: seq<Segment>, size: nat, overlap: nat, k: nat)
    returns (i: nat)
    requires 0 < size && k < |SegmentChunks(segments, size, overlap)|
    ensures IndexesJoined(segments, SegmentChunks(segments, size, overlap)[k], k, i, size)
    decreases |segments|
  {
    var front, last := segments[..|segments| - 1], segments[|segments| - 1];
    assert segments == front + [last];
    var before := SegmentChunks(front, size, overlap);
    if k < |before| {
      i := SegmentChunksIndexTheJoinedText(front, size, overlap, k);
      IndexSurvives(front, last, before[k], k, i, size);
    } else {
      i := |front|;
      LastChunkIndexes(front, last, size, overlap, k - |before|);
    }
  }

  /** What two chunks of a text share they share wherever the text is found. */
  lemma RepeatsElsewhere(
    text: string, c: Chunk, d: Option<Chunk>, whole: string, c': Chunk, d': Option<Chunk>, offset: nat, overlap: nat)
    requires c.start < c.end <= |text| && Repeats(text, c, d, overlap)
    requires offset + |text| <= |whole| && forall i :: 0 <= i < |text| ==> whole[offset + i] == text[i]
    requires c'.start == offset + c.start && c'.end == offset + c.end
    requires d.Some? ==>
      d'.Some? && d'.value.start == offset + d.value.start && d'.value.end == offset + d.value.end
    ensures Repeats(whole, c', d', overlap)
  {
    var next := if c.end - c.start > overlap then c.end - overlap else c.start + 1;
    if p :| offset + next <= p < c'.end && !IsSpace(whole[p]) {
      assert whole[offset + (p - offset)] == text[p - offset];
    }
  }

  lemma RepeatsInFront(front: seq<Segment>, last: Segment, before: seq<Chunk>, more: seq<Chunk>, k: nat, overlap: nat)
    requires k < |before| && before[k].start < before[k].end <= |Joined(front)|
    requires Repeats(Joined(front), before[k], Following(before, k), overlap)
    ensures var whole := Joined(front + [last]);
      before[k].end <= |whole| && Repeats(whole, before[k], Following(before + more, k), overlap)
  {
    JoinedGrows(front, last);
    var whole := Joined(front + [last]);
    assert front != [];
    forall i | 0 <= i < |Joined(front)| ensures whole[0 + i] == Joined(front)[i] {
      assert whole[..|Joined(front)|][i] == whole[i];
    }
    var later := Following(before + more, k);
    RepeatsElsewhere(Joined(front), before[k], Following(before, k), whole, before[k], later, 0, overlap);
  }

  lemma RepeatsInLast(front: seq<Segment>, last: Segment, before: seq<Chunk>, size: nat, overlap: nat, j: nat)
    requires 0 < size && j < |TextChunks(last.text, size, overlap)|
    requires TextChunks(last.text, size, overlap)[j].end < |last.text|
    ensures var more := LocatedAll(TextChunks(last.text, size, overlap), last, size, |before|, Offset(front));
      var whole, all, k := Joined(front + [last]), before + more, |before| + j;
      all[k].start < all[k].end <= |whole| && Repeats(whole, all[k], Following(all, k), overlap)
  {
    var chunks := TextChunks(last.text, size, overlap);
    var more := LocatedAll(chunks, last, size, |before|, Offset(front));
    var whole, all, k := Joined(front + [last]), before + more, |before| + j;
    ChunkIsNumbered(last.text, size, overlap, j);
    NeighboursOverlap(last.text, size, overlap, j);
    JoinedGrows(front, last);
    LocatedAt(chunks, last, size, |before|, Offset(front), j);
    if j + 1 < |chunks| {
      LocatedAt(chunks, last, size, |before|, Offset(front), j + 1);
    }
    forall i | 0 <= i < |last.text| ensures whole[Offset(front) + i] == last.text[i] {
      assert whole[Offset(front)..][i] == whole[Offset(front) + i];
    }
    var now, later := Following(chunks, j), Following(all, k);
    RepeatsElsewhere(last.text, chunks[j], now, whole, all[k], later, Offset(front), overlap);
  }

  /** What is said below of chunk k, which lies in segment i. */
  ghost predicate InStep(
    segments: seq<Segment>, chunks: seq<Chunk>, first: nat, k: nat, i: nat, size: nat, overlap: nat)
    requires k < |chunks|
  {
    && IndexesJoined(segments, chunks[k], k, i, size)
    && (chunks[k].end < Offset(segments[..i]) + |segments[i].text| ==>
          Repeats(Joined(segments), chunks[k], Following(chunks, k), overlap))
    && (|segments[i].text| > size ==> chunks[k].locator.part == Some(k - first + 1))
  }

  lemma InStepInFront(
    front: seq<Segment>, last: Segment, before: seq<Chunk>, more: seq<Chunk>,
    first: nat, k: nat, i: nat, size: nat, overlap: nat)
    requires k < |before| && InStep(front, before, first, k, i, size, overlap)
    ensures InStep(front + [last], before + more, first, k, i, size, overlap)
  {
    IndexSurvives(front, last, before[k], k, i, size);
    assert (front + [last])[..i] == front[..i];
    if before[k].end < Offset(front[..i]) + |front[i].text| {
      RepeatsInFront(front, last, before, more, k, overlap);
    }
  }

  lemma SegmentChunksGrow(front: seq<Segment>, last: Segment, size: nat, overlap: nat)
    requires 0 < size
    ensures var before := SegmentChunks(front, size, overlap);
      SegmentChunks(front + [last], size, overlap) ==
        before + LocatedAll(TextChunks(last.text, size, overlap), last, size, |before|, Offset(front))
  {
    assert (front + [last])[..|front|] == front;
  }

  lemma PartInLast(last: Segment, before: seq<Chunk>, size: nat, overlap: nat, offset: nat, j: nat)
    requires 0 < size && j < |TextChunks(last.text, size, overlap)|
    ensures var more := LocatedAll(TextChunks(last.text, size, overlap), last, size, |before|, offset);
      && var c := (before + more)[|before| + j];
      && c.end == offset + TextChunks(last.text, size, overlap)[j].end
      && (|last.text| > size ==> c.locator == InSegment(last.locator, Some(j + 1)))
  {
    LocatedAt(TextChunks(last.text, size, overlap), last, size, |before|, offset, j);
    ChunkIsNumbered(last.text, size, overlap, j);
  }

  lemma InStepInLast(front: seq<Segment>, last: Segment, size: nat, overlap: nat, j: nat)
    requires 0 < size && j < |TextChunks(last.text, size, overlap)|
    ensures var first, all := |SegmentChunks(front, size, overlap)|, SegmentChunks(front + [last], size, overlap);
      first + j < |all| && InStep(front + [last], all, first, first + j, |front|, size, overlap)
  {
    var before := SegmentChunks(front, size, overlap);
    assert (front + [last])[..|front|] == front && (front + [last])[|front|] == last;
    SegmentChunksGrow(front, last, size, overlap);
    LastChunkIndexes(front, last, size, overlap, j);
    PartInLast(last, before, size, overlap, Offset(front), j);
    if TextChunks(last.text, size, overlap)[j].end < |last.text| {
      RepeatsInLast(front, last, before, size, overlap, j);
    }
  }

  /**
   Within a segment successive chunks overlap as configured, as they do in plain
   text, and the parts of a long segment are numbered from one.
   */
  lemma {:induction false} SegmentNeighboursOverlap(segments: seq<Segment>, size: nat, overlap: nat, k: nat)
    returns (i: nat)
    requires 0 < size && k < |SegmentChunks(segments, size, overlap)|
    ensures i < |segments|
    ensures InStep(segments, SegmentChunks(segments, size, overlap),
                   |SegmentChunks(segments[..i], size, overlap)|, k, i, size, overlap)
    decreases |segments|
  {
    var front, last := segments[..|segments| - 1], segments[|segments| - 1];
    assert segments == front + [last];
    var before := SegmentChunks(front, size, overlap);
    var more := LocatedAll(TextChunks(last.text, size, overlap), last, size, |before|, Offset(front));
    if k < |before| {
      i := SegmentNeighboursOverlap(front, size, overlap, k);
      assert segments[..i] == front[..i];
      InStepInFront(front, last, before, more, |SegmentChunks(segments[..i], size, overlap)|, k, i, size, overlap);
    } else {
      i := |front|;
      InStepInLast(front, last, size, overlap, k - |before|);
    }
  }

  lemma ChunkIsNumbered(text: string, size: nat, overlap: nat, j: nat)
    requires 0 < size && j < |TextChunks(text, size, overlap)|
    ensures TextChunks(text, size, overlap)[j].ordinal == j
    ensures TextChunks(text, size, overlap)[j].start < TextChunks(text, size, overlap)[j].end <= |text|
  {
    TextChunksCoverTheText(text, size, overlap);
    assert IsSlice(text, TextChunks(text, size, overlap)[j], j, size);
  }

  /** No character of the document that is not a space is lost. */
  lemma {:induction false} SegmentChunksCoverTheJoinedText(segments: seq<Segment>, size: nat, overlap: nat, p: nat)
    requires 0 < size && p < |Joined(segments)| && !IsSpace(Joined(segments)[p])
    ensures exists c :: c in SegmentChunks(segments, size, overlap) && c.start <= p < c.end
    decreases |segments|
  {
    var front, last := segments[..|segments| - 1], segments[|segments| - 1];
    assert segments == front + [last];
    JoinedGrows(front, last);
    var before, chunks := SegmentChunks(front, size, overlap), TextChunks(last.text, size, overlap);
    var located := LocatedAll(chunks, last, size, |before|, Offset(front));
    if p >= Offset(front) {
      var q := p - Offset(front);
      assert last.text[q] == Joined(segments)[Offset(front)..][q];
      CharacterIsChunked(last.text, size, overlap, q);
      var c :| c in chunks && c.start <= q < c.end;
      var n :| 0 <= n < |chunks| && chunks[n] == c;
      LocatedAt(chunks, last, size, |before|, Offset(front), n);
      assert located[n] in SegmentChunks(segments, size, overlap);
    } else {
      JoinedLength(front);
      assert p < |Joined(front)| ==> Joined(front)[p] == Joined(segments)[..|Joined(front)|][p];
      SegmentChunksCoverTheJoinedText(front, size, overlap, p);
      var c :| c in before && c.start <= p < c.end;
      assert c in SegmentChunks(segments, size, overlap);
    }
  }

  /** On one segment both chunkers agree on everything but the locator. */
  lemma OneSegmentIsPlainText(segment: Segment, size: nat, overlap: nat)
    requires 0 < size
    ensures var a, b := TextChunks(segment.text, size, overlap), SegmentChunks([segment], size, overlap);
            |a| == |b| && forall k :: 0 <= k < |a| ==>
              a[k].ordinal == b[k].ordinal && a[k].text == b[k].text && a[k].start == b[k].start && a[k].end == b[k].end
  {
    var chunks := TextChunks(segment.text, size, overlap);
    assert [segment][..0] == [];
    assert SegmentChunks([segment], size, overlap) == LocatedAll(chunks, segment, size, 0, 0);
    forall k | 0 <= k < |chunks|
      ensures LocatedAll(chunks, segment, size, 0, 0)[k] == Located(chunks[k], segment, size, 0, 0)
    {
      LocatedAt(chunks, segment, size, 0, 0, k);
    }
  }

  lemma LocatedStep(
    segment: Segment, done: seq<Window>, start: nat, end: nat,
    size: nat, first: nat, offset: nat, ordinal: nat, part: nat)
    requires (forall v :: v in done ==> InText(segment.text, v)) && start < end <= |segment.text|
    requires ordinal == first + |Emit(segment.text, done)| && part == 1 + |Emit(segment.text, done)|
    ensures forall v :: v in done + [Window(start, end)] ==> InText(segment.text, v)
    ensures LocatedAll(Emit(segment.text, done + [Window(start, end)]), segment, size, first, offset) ==
      LocatedAll(Emit(segment.text, done), segment, size, first, offset) +
      (if IsBlank(segment.text[start..end]) then [] else
         [Chunk(ordinal, segment.text[start..end],
            InSegment(segment.locator, if |segment.text| > size then Some(part) else None),
            offset + start, offset + end)])
  {
    var text, w := segment.text, Window(start, end);
    EmitStep(text, done, w);
    var before := Emit(text, done);
    if !IsBlank(text[start..end]) {
      var c := TextChunk(text, w, |before|);
      assert (before + [c])[..|before|] == before;
    }
  }

  /** The chunks of one segment, step by step, numbered from `first` and offset by its place in the document. */
  method ChunkSegment(segment: Segment, size: nat, overlap: nat, first: nat, absoluteOffset: nat)
    returns (chunks: seq<Chunk>)
    requires 0 < size
    ensures chunks == LocatedAll(TextChunks(segment.text, size, overlap), segment, size, first, absoluteOffset)
  {
    chunks := [];
    var text := segment.text;
    var start, ordinal, part := 0, first, 1;
    ghost var all := Windows(text, 0, size, overlap);
    ghost var done: seq<Window> := [];
    assert all == done + all;
    while start < |text|
      invariant all == done + Windows(text, start, size, overlap)
      invariant forall w :: w in done ==> InText(text, w)
      invariant chunks == LocatedAll(Emit(text, done), segment, size, first, absoluteOffset)
      invariant ordinal == first + |chunks| && part == 1 + |chunks|
      decreases |text| - start
    {
      var end := CutBack(text, start, size);
      ghost var w := Window(start, end);
      WindowDone(text, size, overlap, start, done, all);
      LocatedStep(segment, done, start, end, size, first, absoluteOffset, ordinal, part);
      ghost var next := NextStart(start, end, overlap);
      var payload := text[start..end];
      if !IsBlank(payload) {
        var locator := InSegment(segment.locator, if |text| > size then Some(part) else None);
        chunks := chunks + [Chunk(ordinal, payload, locator, absoluteOffset + start, absoluteOffset + end)];
        ordinal := ordinal + 1;
        part := part + 1;
      }
      done := done + [w];
      if end >= |text| {
        assert all == done;
        break;
      }
      start := Max(start + 1, end - overlap);
      assert start == next;
    }
    assert all == done;
  }

  /** The chunker of parser segments, segment by segment. */
  method DeterministicSegmentChunks(segments: seq<Segment>, size: nat, overlap: nat) returns (chunks: seq<Chunk>)
    requires 0 < size
    ensures chunks == SegmentChunks(segments, size, overlap)
  {
    chunks := [];
    var absoluteOffset := 0;
    for i := 0 to |segments|
      invariant chunks == SegmentChunks(segments[..i], size, overlap)
      invariant absoluteOffset == Offset(segments[..i])
    {
      var more := ChunkSegment(segments[i], size, overlap, |chunks|, absoluteOffset);
      chunks := chunks + more;
      absoluteOffset := absoluteOffset + |segments[i].text| + 1;
      assert segments[..i + 1][..i] == segments[..i];
    }
    assert segments[..|segments|] == segments;
  }
}
