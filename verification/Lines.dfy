/** Lines, characters and Markdown lines of a document (`document_extract.rs`). */
module Lines {
  import opened Bytes
  import Utf8

  const CR: byte := 13
  const LF: byte := 10

  // ----- line breaks

  /** A line break ends at `n`: after LF, or after CR unless LF follows. */
  predicate BreakEnds(s: bytes, n: nat) {
    0 < n <= |s| && (s[n - 1] == LF || (s[n - 1] == CR && !(n < |s| && s[n] == LF)))
  }

  /** How many line breaks end at or before `n`. */
  function Breaks(s: bytes, n: nat): nat {
    if n == 0 then 0 else Breaks(s, n - 1) + if BreakEnds(s, n) then 1 else 0
  }

  /** No break is cut at `n`. */
  predicate WholeBreak(s: bytes, n: nat) { !(0 < n < |s| && s[n - 1] == CR && s[n] == LF) }

  lemma {:induction false} BreaksOfSlice(s: bytes, from: nat, to: nat, n: nat)
    requires from + n <= to <= |s| && WholeBreak(s, from) && WholeBreak(s, to)
    ensures Breaks(s[from..to], n) + Breaks(s, from) == Breaks(s, from + n)
  {
    if n > 0 {
      BreaksOfSlice(s, from, to, n - 1);
      assert BreakEnds(s[from..to], n) == BreakEnds(s, from + n);
    }
  }

  lemma {:induction false} BreaksGrow(s: bytes, a: nat, b: nat)
    requires a <= b && forall n :: a < n <= b ==> !BreakEnds(s, n)
    ensures Breaks(s, b) == Breaks(s, a)
    decreases b
  {
    if a < b { BreaksGrow(s, a, b - 1); }
  }

  /** The loop of `breaks_before`, which takes CR LF in one step and stops at one that `end` cuts. */
  method BreaksBefore(s: bytes, end: nat) returns (count: nat)
    requires end <= |s|
    ensures count == Breaks(s, end)
  {
    count := 0;
    var index := 0;
    while index < end
      invariant 0 <= index <= end && count == Breaks(s, index)
    {
      if s[index] == CR && index + 1 < |s| && s[index + 1] == LF {
        assert !BreakEnds(s, index + 1);
        if index + 2 > end {
          break;
        }
        assert BreakEnds(s, index + 2);
        count := count + 1;
        index := index + 2;
      } else if s[index] == CR || s[index] == LF {
        assert BreakEnds(s, index + 1);
        count := count + 1;
        index := index + 1;
      } else {
        index := index + 1;
      }
    }
  }

  /** The end of the text of the line that starts at `i`, and the start of the next. */
  function ContentEnd(s: bytes, i: nat): (e: nat)
    requires i <= |s|
    ensures i <= e <= |s|
    decreases |s| - i
  {
    if i == |s| || s[i] == CR || s[i] == LF then i else ContentEnd(s, i + 1)
  }

  function LineEnd(s: bytes, i: nat): (e: nat)
    requires i < |s|
    ensures i < e <= |s|
  {
    var content := ContentEnd(s, i);
    if content == |s| then content
    else if s[content] == CR && content + 1 < |s| && s[content + 1] == LF then content + 2
    else content + 1
  }

  function Content(s: bytes, i: nat): bytes
    requires i <= |s|
  {
    s[i..ContentEnd(s, i)]
  }

  /** A line starts at `i`. */
  predicate LineStart(s: bytes, i: nat) { i == 0 || BreakEnds(s, i) }

  lemma {:induction false} NoBreakInside(s: bytes, i: nat, n: nat)
    requires i <= |s| && i < n <= ContentEnd(s, i)
    ensures s[n - 1] != CR && s[n - 1] != LF && !BreakEnds(s, n)
    decreases n - i
  {
    if n > i + 1 { NoBreakInside(s, i + 1, n); }
  }

  lemma {:induction false} ContentStops(s: bytes, i: nat)
    requires i <= |s|
    ensures ContentEnd(s, i) < |s| ==> s[ContentEnd(s, i)] == CR || s[ContentEnd(s, i)] == LF
    decreases |s| - i
  {
    if i < |s| && s[i] != CR && s[i] != LF { ContentStops(s, i + 1); }
  }

  /** A line has one break, at its end, unless it is the last and has none. */
  lemma LineBreaks(s: bytes, i: nat)
    requires i < |s| && LineStart(s, i)
    ensures var e := LineEnd(s, i);
            && (forall n :: i < n < e ==> !BreakEnds(s, n))
            && (BreakEnds(s, e) || e == |s|)
            && WholeBreak(s, i) && WholeBreak(s, e)
            && Breaks(s, e) == Breaks(s, i) + if BreakEnds(s, e) then 1 else 0
  {
    var content, e := ContentEnd(s, i), LineEnd(s, i);
    ContentStops(s, i);
    forall n | i < n < e ensures !BreakEnds(s, n) {
      if n <= content { NoBreakInside(s, i, n); }
    }
    BreaksGrow(s, i, e - 1);
    if content == e { NoBreakInside(s, i, e); }
  }

  // ----- characters

  /** A cut after the byte before `n` of a document is harmless. */
  predicate Cuttable(s: bytes, n: nat) { Utf8.Boundary(s, n) && WholeBreak(s, n) }

  /** Between a boundary and 5 bytes further there is a place to cut. */
  lemma NextCut(s: bytes, cursor: nat) returns (n: nat)
    requires Utf8.Valid(s) && Utf8.Boundary(s, cursor) && cursor < |s|
    ensures cursor < n <= cursor + 5 && n <= |s| && Cuttable(s, n)
  {
    Utf8.ValidFrom(s, cursor);
    var rest := s[cursor..];
    Utf8.FirstChar(rest);
    n := cursor + Utf8.CharLength(rest);
    assert n < |s| ==> rest[n - cursor] == s[n];
    if !WholeBreak(s, n) {
      Utf8.ValidFrom(s, n);
      Utf8.FirstChar(s[n..]);
      assert n + 1 < |s| ==> s[n..][1] == s[n + 1];
      n := n + 1;
    }
  }

  lemma BreakIsBoundary(s: bytes, n: nat)
    requires Utf8.Valid(s) && n <= |s| && LineStart(s, n)
    ensures Cuttable(s, n)
  {
    if 0 < n < |s| {
      Utf8.BeforeBoundary(s, n);
    }
  }

  // ----- blank text

  /** The length of the white-space character that `s` starts with, or 0. */
  function WhiteLength(s: bytes): (n: nat)
    ensures n <= 3 && n <= |s|
  {
    if s == [] then 0
    else if 9 <= s[0] <= 13 || s[0] == 32 then 1
    else if |s| >= 2 && s[0] == 0xC2 && (s[1] == 0x85 || s[1] == 0xA0) then 2
    else if |s| >= 3 && s[0] == 0xE1 && s[1] == 0x9A && s[2] == 0x80 then 3
    else if |s| >= 3 && s[0] == 0xE2 && s[1] == 0x80 && (0x80 <= s[2] <= 0x8A || s[2] == 0xA8 || s[2] == 0xA9 || s[2] == 0xAF) then 3
    else if |s| >= 3 && s[0] == 0xE2 && s[1] == 0x81 && s[2] == 0x9F then 3
    else if |s| >= 3 && s[0] == 0xE3 && s[1] == 0x80 && s[2] == 0x80 then 3
    else 0
  }

  predicate Blank(s: bytes) { s == [] || (WhiteLength(s) > 0 && Blank(s[WhiteLength(s)..])) }

  function TrimStart(s: bytes): bytes { if WhiteLength(s) > 0 then TrimStart(s[WhiteLength(s)..]) else s }

  function TrimEnd(s: bytes): bytes {
    if Blank(s) then [] else
    var c := Utf8.CharLength(s);
    if c == 0 then s else s[..c] + TrimEnd(s[c..])
  }

  // ----- Markdown lines

  const SPACE: byte := 32
  const HASH: byte := 35
  const BACKQUOTE: byte := 96
  const TILDE: byte := 126
  const TAB: byte := 9

  /** How many bytes `b` the text starts with. */
  function Leading(s: bytes, b: byte): (n: nat)
    ensures n <= |s|
  {
    if s == [] || s[0] != b then 0 else 1 + Leading(s[1..], b)
  }

  datatype Fence = Fence(marker: byte, width: nat)

  function FenceOpen(content: bytes): Option<Fence> {
    var spaces := Leading(content, SPACE);
    if spaces > 3 || spaces == |content| then None else
    var rest := content[spaces..];
    if rest[0] != BACKQUOTE && rest[0] != TILDE then None else
    var width := Leading(rest, rest[0]);
    if width >= 3 then Some(Fence(rest[0], width)) else None
  }

  predicate FenceClose(content: bytes, fence: Fence) {
    var spaces := Leading(content, SPACE);
    spaces <= 3 &&
    var rest := content[spaces..];
    var count := Leading(rest, fence.marker);
    count >= fence.width && forall i :: count <= i < |rest| ==> rest[i] == SPACE || rest[i] == TAB
  }

  datatype Heading = Heading(level: nat, text: bytes)

  function HeadingOf(content: bytes): Option<Heading> {
    var width := Leading(content, HASH);
    if 1 <= width <= 6 && width < |content| && content[width] == SPACE
    then Some(Heading(width, TrimEnd(TrimStart(content[width + 1..])))) else None
  }

  function Repeat(b: byte, n: nat): bytes { seq(n, _ => b) }

  /** The text is `n` bytes `b`, and then another byte or nothing. */
  predicate Runs(s: bytes, b: byte, n: nat, rest: bytes) { s == Repeat(b, n) + rest && (rest == [] || rest[0] != b) }

  lemma {:induction false} LeadingRuns(s: bytes, b: byte)
    ensures Runs(s, b, Leading(s, b), s[Leading(s, b)..])
    decreases |s|
  {
    if s != [] && s[0] == b {
      LeadingRuns(s[1..], b);
      RunMore(s, b, Leading(s[1..], b));
    } else {
      assert s == Repeat(b, 0) + s;
    }
  }

  lemma RunMore(s: bytes, b: byte, m: nat)
    requires s != [] && s[0] == b && m < |s| && Runs(s[1..], b, m, s[1..][m..])
    ensures Runs(s, b, m + 1, s[m + 1..])
  {
    hide Repeat;
    RepeatMore(b, m);
    var rest := s[1..][m..];
    assert s[m + 1..] == rest;
    assert s == [b] + (Repeat(b, m) + rest);
    assert [b] + Repeat(b, m) + rest == [b] + (Repeat(b, m) + rest);
  }

  lemma RepeatMore(b: byte, m: nat)
    ensures Repeat(b, m + 1) == [b] + Repeat(b, m)
  {}

  lemma {:induction false} OneRun(s: bytes, b: byte, n: nat, rest: bytes)
    requires Runs(s, b, n, rest)
    ensures n == Leading(s, b) && rest == s[Leading(s, b)..]
    decreases |s|
  {
    if n > 0 {
      assert Repeat(b, n) == [b] + Repeat(b, n - 1);
      assert s[0] == b && s[1..] == Repeat(b, n - 1) + rest;
      OneRun(s[1..], b, n - 1, rest);
    } else {
      assert rest == s;
    }
  }

  /** At most three spaces, at least three backquotes or tildes, and something else or nothing. */
  ghost predicate FenceParts(content: bytes, fence: Fence, spaces: nat, rest: bytes) {
    && spaces <= 3 && fence.width >= 3 && (fence.marker == '`' as int || fence.marker == '~' as int)
    && content == Repeat(' ' as int, spaces) + (Repeat(fence.marker, fence.width) + rest) && (rest == [] || rest[0] != fence.marker)
  }

  lemma OpensAsParts(content: bytes, fence: Fence)
    requires FenceOpen(content) == Some(fence)
    ensures exists spaces, rest :: FenceParts(content, fence, spaces, rest)
  {
    var spaces := Leading(content, SPACE);
    var rest := content[spaces..];
    LeadingRuns(content, SPACE);
    LeadingRuns(rest, fence.marker);
    assert FenceParts(content, fence, spaces, rest[fence.width..]);
  }

  lemma PartsOpen(content: bytes, fence: Fence, spaces: nat, rest: bytes)
    requires FenceParts(content, fence, spaces, rest)
    ensures FenceOpen(content) == Some(fence)
  {
    var marked := Repeat(fence.marker, fence.width) + rest;
    assert marked[0] == fence.marker;
    OneRun(content, SPACE, spaces, marked);
    OneRun(marked, fence.marker, fence.width, rest);
  }

  /** A line opens a fence just when it has these parts. */
  lemma FenceExact(content: bytes, fence: Fence)
    ensures FenceOpen(content) == Some(fence) <==> exists spaces, rest :: FenceParts(content, fence, spaces, rest)
  {
    hide FenceOpen, FenceParts;
    if FenceOpen(content) == Some(fence) {
      OpensAsParts(content, fence);
    }
    if spaces, rest :| FenceParts(content, fence, spaces, rest) {
      PartsOpen(content, fence, spaces, rest);
    }
  }

  /** It closes with at most three spaces, at least as many of its markers, and only spaces and tabs after them. */
  lemma CloseExact(content: bytes, fence: Fence)
    requires (fence.marker == '`' as int || fence.marker == '~' as int) && fence.width >= 3
    ensures FenceClose(content, fence) <==> exists spaces, count, rest :: CloseParts(content, fence, spaces, count, rest)
  {
    var spaces := Leading(content, SPACE);
    var rest := content[spaces..];
    var count := Leading(rest, fence.marker);
    LeadingRuns(content, SPACE);
    LeadingRuns(rest, fence.marker);
    if FenceClose(content, fence) {
      assert CloseParts(content, fence, spaces, count, rest[count..]);
    }
    if n, k, more :| CloseParts(content, fence, n, k, more) {
      PartsClose(content, fence, n, k, more);
    }
  }

  /** At most three spaces, at least as many markers as opened the fence, and then spaces and tabs. */
  ghost predicate CloseParts(content: bytes, fence: Fence, spaces: nat, count: nat, rest: bytes) {
    && spaces <= 3 && count >= fence.width && content == Repeat(' ' as int, spaces) + (Repeat(fence.marker, count) + rest)
    && forall i :: 0 <= i < |rest| ==> rest[i] == ' ' as int || rest[i] == 9
  }

  lemma PartsClose(content: bytes, fence: Fence, spaces: nat, count: nat, rest: bytes)
    requires CloseParts(content, fence, spaces, count, rest) && fence.width >= 3
    requires fence.marker == '`' as int || fence.marker == '~' as int
    ensures FenceClose(content, fence)
  {
    var marked := Repeat(fence.marker, count) + rest;
    assert count > 0 ==> marked[0] == fence.marker;
    OneRun(content, SPACE, spaces, marked);
    OneRun(marked, fence.marker, count, rest);
  }

  /** A heading is one to six hashes, a space and its text. */
  lemma HeadingExact(content: bytes, heading: Heading)
    ensures HeadingOf(content) == Some(heading) <==>
              exists rest :: 1 <= heading.level <= 6 && content == Repeat('#' as int, heading.level) + ([32] + rest)
                             && heading.text == TrimEnd(TrimStart(rest))
  {
    hide TrimEnd, TrimStart;
    LeadingRuns(content, HASH);
    var width := Leading(content, HASH);
    if HeadingOf(content) == Some(heading) {
      assert content == Repeat(HASH, width) + ([32] + content[width + 1..]);
    }
    if rest :| 1 <= heading.level <= 6 && content == Repeat(HASH, heading.level) + ([32] + rest) && heading.text == TrimEnd(TrimStart(rest)) {
      OneRun(content, HASH, heading.level, [32] + rest);
      assert content[width..] == [32] + rest && content[width + 1..] == rest;
    }
  }

  /** The headings that a heading of this level leaves open. */
  function Enclosing(headings: seq<Heading>, level: nat): seq<Heading> {
    if headings != [] && headings[|headings| - 1].level >= level then Enclosing(headings[..|headings| - 1], level) else headings
  }

  function Texts(headings: seq<Heading>): seq<bytes> {
    if headings == [] then [] else Texts(headings[..|headings| - 1]) + [headings[|headings| - 1].text]
  }

  /** What the lines read so far leave open. */
  datatype State = State(fence: Option<Fence>, headings: seq<Heading>)

  datatype Role = InFence | OpensFence | Titles | Empty | Prose

  function RoleOf(markdown: bool, state: State, content: bytes): Role {
    if state.fence.Some? then InFence
    else if markdown && FenceOpen(content).Some? then OpensFence
    else if markdown && HeadingOf(content).Some? then Titles
    else if Blank(content) then Empty else Prose
  }

  function NextState(markdown: bool, state: State, content: bytes): State {
    match RoleOf(markdown, state, content)
    case InFence => if FenceClose(content, state.fence.value) then state.(fence := None) else state
    case OpensFence => state.(fence := FenceOpen(content))
    case Titles =>
      var heading := HeadingOf(content).value;
      state.(headings := Enclosing(state.headings, heading.level) + [heading])
    case _ => state
  }

  /** A line goes on with the block of the line before it: inside a fence, or one line of prose after another. */
  predicate Joins(before: Role, after: Role) { after == InFence || (before == Prose && after == Prose) }

  /** The state before the line at `to`, read from the line at `from`. */
  function StateFrom(s: bytes, markdown: bool, from: nat, state: State, to: nat): State
    decreases |s| - from
  {
    if from >= to || from >= |s| then state
    else StateFrom(s, markdown, LineEnd(s, from), NextState(markdown, state, Content(s, from)), to)
  }

  function StateAt(s: bytes, markdown: bool, i: nat): State { StateFrom(s, markdown, 0, State(None, []), i) }

  function RoleAt(s: bytes, markdown: bool, i: nat): Role
    requires i <= |s|
  {
    RoleOf(markdown, StateAt(s, markdown, i), Content(s, i))
  }

  /** Where the block of the line at `i` ends. */
  function BlockEnd(s: bytes, markdown: bool, i: nat): (e: nat)
    requires i < |s|
    ensures i < e <= |s|
    decreases |s| - i
  {
    var next := LineEnd(s, i);
    if next < |s| && Joins(RoleAt(s, markdown, i), RoleAt(s, markdown, next)) then BlockEnd(s, markdown, next) else next
  }

  /** Where a block ends whose last line before `cursor` has this role. */
  function Rest(s: bytes, markdown: bool, last: Role, cursor: nat): (e: nat)
    requires cursor <= |s|
    ensures cursor <= e <= |s|
  {
    if cursor < |s| && Joins(last, RoleAt(s, markdown, cursor)) then BlockEnd(s, markdown, cursor) else cursor
  }

  lemma BlockEndIsRest(s: bytes, markdown: bool, i: nat)
    requires i < |s|
    ensures BlockEnd(s, markdown, i) == Rest(s, markdown, RoleAt(s, markdown, i), LineEnd(s, i))
  {
    hide RoleAt, LineEnd;
  }

  lemma {:induction false} StateNext(s: bytes, markdown: bool, from: nat, state: State, i: nat)
    requires from <= i < |s| && LineStart(s, from) && LineStart(s, i)
    ensures StateFrom(s, markdown, from, state, LineEnd(s, i))
         == NextState(markdown, StateFrom(s, markdown, from, state, i), Content(s, i))
    decreases |s| - from
  {
    hide NextState, Content;
    LineBreaks(s, from);
    var e := LineEnd(s, from);
    if from == i {
      assert StateFrom(s, markdown, e, NextState(markdown, state, Content(s, i)), e) == NextState(markdown, state, Content(s, i));
    } else {
      assert i < e ==> !BreakEnds(s, i);
      StateNext(s, markdown, e, NextState(markdown, state, Content(s, from)), i);
    }
  }
}
