/** Text and Markdown extraction (`extract` in `document_extract.rs`): exact chunks of a document. */
module Documents {
  import opened Bytes
  import opened Lines
  import Utf8

  const MAX_INPUT := 16 * 1024 * 1024
  const MAX_CHUNK := 4096
  const MAX_CHUNKS := 100_000

  datatype Chunk = Chunk(text: bytes, startLine: nat, endLine: nat, startByte: nat, endByte: nat, path: seq<bytes>)

  // ----- the line of a byte

  function LineOf(s: bytes, b: nat): (i: nat)
    ensures i <= b && LineStart(s, i)
    ensures forall n :: i < n <= b ==> !BreakEnds(s, n)
  {
    if LineStart(s, b) then b else LineOf(s, b - 1)
  }

  lemma LineOfInside(s: bytes, i: nat, b: nat)
    requires i < |s| && LineStart(s, i) && i <= b < LineEnd(s, i)
    ensures LineOf(s, b) == i
  {
    hide LineEnd;
    LineBreaks(s, i);
  }

  /** The byte is on a blank line outside a fence. */
  predicate OnBlank(s: bytes, markdown: bool, b: nat)
    requires b < |s|
  {
    var i := LineOf(s, b);
    RoleOf(markdown, StateAt(s, markdown, i), Content(s, i)).Empty?
  }

  /** The headings over the byte's line, its own included when it is one. */
  function PathAt(s: bytes, markdown: bool, b: nat): seq<bytes>
    requires b < |s|
  {
    var i := LineOf(s, b);
    Texts(NextState(markdown, StateAt(s, markdown, i), Content(s, i)).headings)
  }

  /** Where the block of the byte's line ends. */
  function EndOf(s: bytes, markdown: bool, b: nat): nat
    requires b < |s|
  {
    BlockEnd(s, markdown, LineOf(s, b))
  }

  // ----- what chunks are

  /** No longer piece of the block, of at most 4096 bytes, cuts no character and no CR LF at its end. */
  predicate Longest(s: bytes, markdown: bool, start: nat, end: nat)
    requires start < |s|
  {
    end <= EndOf(s, markdown, start)
    && forall n :: end < n <= EndOf(s, markdown, start) && n - start <= 4096 ==> !Cuttable(s, n)
  }

  /** Exact bytes, whole characters and line breaks, as many as can be, and the lines they are on. */
  predicate ChunkOk(s: bytes, markdown: bool, c: Chunk) {
    && c.startByte < c.endByte <= |s| && c.endByte - c.startByte <= MAX_CHUNK
    && c.text == s[c.startByte..c.endByte]
    && Cuttable(s, c.startByte) && Cuttable(s, c.endByte) && Longest(s, markdown, c.startByte, c.endByte)
    && c.startLine == 1 + Breaks(s, c.startByte) && c.endLine == 1 + Breaks(s, c.endByte - 1)
    && c.path == PathAt(s, markdown, c.startByte)
  }

  predicate Covered(chunks: seq<Chunk>, b: nat) { exists i :: 0 <= i < |chunks| && chunks[i].startByte <= b < chunks[i].endByte }

  /** Good chunks in order, without overlap, that end at or before `to`. */
  predicate InOrder(s: bytes, markdown: bool, chunks: seq<Chunk>, to: nat) {
    && (forall i :: 0 <= i < |chunks| ==> ChunkOk(s, markdown, chunks[i]) && chunks[i].endByte <= to)
    && (forall i, j :: 0 <= i < j < |chunks| ==> chunks[i].endByte <= chunks[j].startByte)
  }

  lemma CoveredMore(chunks: seq<Chunk>, c: Chunk, b: nat)
    ensures Covered(chunks + [c], b) <==> Covered(chunks, b) || c.startByte <= b < c.endByte
  {
    var more := chunks + [c];
    if Covered(chunks, b) {
      var i :| 0 <= i < |chunks| && chunks[i].startByte <= b < chunks[i].endByte;
      assert more[i] == chunks[i];
    }
    if c.startByte <= b < c.endByte {
      assert more[|chunks|] == c;
    }
  }

  lemma NotYetCovered(s: bytes, markdown: bool, chunks: seq<Chunk>, to: nat, b: nat)
    requires InOrder(s, markdown, chunks, to) && b >= to
    ensures !Covered(chunks, b)
  {
    hide ChunkOk;
  }

  // ----- emitting a block

  /** Where `emit` cuts: the last place within reach that cuts no character and no CR LF. There always is one. */
  method FindSplit(s: bytes, cursor: nat, end: nat) returns (split: nat)
    requires Utf8.Valid(s) && cursor < end <= |s| && Utf8.Boundary(s, cursor) && Cuttable(s, end)
    ensures cursor < split <= end && split - cursor <= MAX_CHUNK && Cuttable(s, split)
    ensures forall n :: split < n <= end && n - cursor <= MAX_CHUNK ==> !Cuttable(s, n)
  {
    hide Utf8.Valid;
    split := if cursor + MAX_CHUNK < end then cursor + MAX_CHUNK else end;
    ghost var cut := NextCut(s, cursor);
    while !Utf8.Boundary(s, split) || (split < end && s[split - 1] == CR && s[split] == LF)
      invariant cursor < split <= end && split - cursor <= MAX_CHUNK
      invariant split >= cut || split == end
      invariant forall n :: split < n <= end && n - cursor <= MAX_CHUNK ==> !Cuttable(s, n)
      decreases split
    {
      split := split - 1;
    }
  }

  lemma ChunkGood(s: bytes, markdown: bool, c: Chunk, before: nat)
    requires c.startByte < c.endByte <= |s| && c.endByte - c.startByte <= MAX_CHUNK && c.text == s[c.startByte..c.endByte]
    requires Longest(s, markdown, c.startByte, c.endByte)
    requires Cuttable(s, c.startByte) && Cuttable(s, c.endByte) && c.path == PathAt(s, markdown, c.startByte)
    requires c.startLine == 1 + Breaks(s, c.startByte) && c.endLine == c.startLine + before
    requires before + Breaks(s, c.startByte) == Breaks(s, c.endByte - 1)
    ensures ChunkOk(s, markdown, c)
  {
    hide PathAt, Cuttable, Longest;
  }

  lemma Pushed(s: bytes, markdown: bool, chunks: seq<Chunk>, c: Chunk)
    requires InOrder(s, markdown, chunks, c.startByte) && ChunkOk(s, markdown, c) && c.startByte <= c.endByte
    ensures InOrder(s, markdown, chunks + [c], c.endByte)
    ensures forall b: nat :: Covered(chunks + [c], b) <==> Covered(chunks, b) || c.startByte <= b < c.endByte
  {
    hide ChunkOk, Covered;
    forall b: nat ensures Covered(chunks + [c], b) <==> Covered(chunks, b) || c.startByte <= b < c.endByte {
      CoveredMore(chunks, c, b);
    }
  }

  /** The chunks and those of the block up to `at` are as many as there may be, and the block goes on. */
  ghost predicate Overflows(s: bytes, markdown: bool, chunks: seq<Chunk>, all: seq<Chunk>, start: nat, at: nat, end: nat) {
    && |all| == 100_000 && start <= at < end && InOrder(s, markdown, all, at)
    && forall b: nat :: Covered(all, b) <==> Covered(chunks, b) || start <= b < at
  }

  /** `emit`: the block from `start` to `end` in chunks that follow each other. */
  method Emit(s: bytes, markdown: bool, start: nat, end: nat, startLine: nat, path: seq<bytes>, chunks: seq<Chunk>)
    returns (r: Result<seq<Chunk>>)
    requires Utf8.Valid(s) && start < end <= |s| && Cuttable(s, start) && Cuttable(s, end)
    requires startLine == 1 + Breaks(s, start)
    requires forall b :: start <= b < end ==> PathAt(s, markdown, b) == path && EndOf(s, markdown, b) == end
    requires InOrder(s, markdown, chunks, start) && |chunks| <= MAX_CHUNKS
    ensures r.Ok? ==> InOrder(s, markdown, r.value, end) && |r.value| <= MAX_CHUNKS
    ensures r.Ok? ==> forall b: nat :: Covered(r.value, b) <==> Covered(chunks, b) || start <= b < end
    ensures r.Err? ==> r.error == Limit && exists all, at :: Overflows(s, markdown, chunks, all, start, at, end)
  {
    hide Utf8.Valid, PathAt, EndOf, Covered, InOrder, Utf8.Boundary, Breaks, ChunkOk;
    var cursor, line := start, startLine;
    var all := chunks;
    while cursor < end
      invariant start <= cursor <= end && Cuttable(s, cursor) && line == 1 + Breaks(s, cursor)
      invariant InOrder(s, markdown, all, cursor) && |all| <= MAX_CHUNKS
      invariant forall b: nat :: Covered(all, b) <==> Covered(chunks, b) || start <= b < cursor
    {
      if |all| == MAX_CHUNKS {
        assert Overflows(s, markdown, chunks, all, start, cursor, end);
        return Err(Limit);
      }
      var split := FindSplit(s, cursor, end);
      var segment := s[cursor..split];
      var before := BreaksBefore(segment, |segment| - 1);
      var c := Chunk(segment, line, line + before, cursor, split, path);
      var whole := BreaksBefore(segment, |segment|);
      BreaksOfSlice(s, cursor, split, |segment| - 1);
      BreaksOfSlice(s, cursor, split, |segment|);
      ChunkGood(s, markdown, c, before);
      Pushed(s, markdown, all, c);
      all := all + [c];
      line := line + whole;
      cursor := split;
    }
    return Ok(all);
  }

  // ----- the lines

  /** An open block: where it starts, its first line and the headings over it. */
  datatype Block = Block(start: nat, line: nat, path: seq<bytes>)

  /** Before the line at `cursor`: chunks cover what is done, and a block may be open whose last line is `last`. */
  ghost predicate Progress(s: bytes, markdown: bool, chunks: seq<Chunk>, open: Option<Block>, cursor: nat, last: Role) {
    var done := if open.Some? then open.value.start else cursor;
    && cursor <= |s| && done <= cursor && |chunks| <= MAX_CHUNKS
    && InOrder(s, markdown, chunks, done)
    && (forall b :: 0 <= b < done && b < |s| ==> (Covered(chunks, b) <==> !OnBlank(s, markdown, b)))
    && (open.Some? ==>
          && done < cursor && LineStart(s, done) && open.value.line == 1 + Breaks(s, done)
          && forall b :: done <= b < cursor ==>
               && !OnBlank(s, markdown, b) && PathAt(s, markdown, b) == open.value.path
               && EndOf(s, markdown, b) == Rest(s, markdown, last, cursor))
  }

  /** As many chunks as there may be, of all that is before `at`, where there is more. */
  ghost predicate Full(s: bytes, markdown: bool, chunks: seq<Chunk>, at: nat) {
    && |chunks| == 100_000 && at < |s| && InOrder(s, markdown, chunks, at) && !OnBlank(s, markdown, at)
    && forall b :: 0 <= b < at ==> (Covered(chunks, b) <==> !OnBlank(s, markdown, b))
  }

  /** No 100000 chunks are enough for the document. */
  ghost predicate TooMany(s: bytes, markdown: bool) { exists all, at :: Full(s, markdown, all, at) }

  /** Emitting the open block closes it. */
  method CloseBlock(s: bytes, markdown: bool, chunks: seq<Chunk>, open: Option<Block>, cursor: nat, ghost last: Role)
    returns (r: Result<seq<Chunk>>)
    requires Utf8.Valid(s) && Progress(s, markdown, chunks, open, cursor, last) && (LineStart(s, cursor) || cursor == |s|)
    requires open.Some? ==> Rest(s, markdown, last, cursor) == cursor
    ensures r.Ok? ==> Progress(s, markdown, r.value, None, cursor, last)
    ensures r.Err? ==> r.error == Limit && TooMany(s, markdown)
  {
    hide Utf8.Valid, PathAt, OnBlank, EndOf, Covered, Rest, InOrder, Overflows, TooMany;
    if open.None? {
      return Ok(chunks);
    }
    var b := open.value;
    BreakIsBoundary(s, b.start);
    EndIsCuttable(s, cursor);
    r := Emit(s, markdown, b.start, cursor, b.line, b.path, chunks);
    forall i | b.start <= i < cursor ensures !Covered(chunks, i) {
      NotYetCovered(s, markdown, chunks, b.start, i);
    }
    if r.Err? {
      ghost var all, at :| Overflows(s, markdown, chunks, all, b.start, at, cursor);
      FullAt(s, markdown, chunks, all, open, at, cursor, last);
    }
  }

  lemma FullAt(s: bytes, markdown: bool, chunks: seq<Chunk>, all: seq<Chunk>, open: Option<Block>, at: nat, cursor: nat, last: Role)
    requires open.Some? && Progress(s, markdown, chunks, open, cursor, last)
    requires Overflows(s, markdown, chunks, all, open.value.start, at, cursor)
    ensures Full(s, markdown, all, at) && TooMany(s, markdown)
  {
    hide PathAt, OnBlank, EndOf, Covered, Rest, ChunkOk;
    forall b | 0 <= b < at ensures Covered(all, b) <==> !OnBlank(s, markdown, b) {
      if b >= open.value.start {
        NotYetCovered(s, markdown, chunks, open.value.start, b);
      }
    }
  }

  lemma EndIsCuttable(s: bytes, n: nat)
    requires Utf8.Valid(s) && n <= |s| && (LineStart(s, n) || n == |s|)
    ensures Cuttable(s, n)
  {
    hide Utf8.Valid;
    if n < |s| { BreakIsBoundary(s, n); }
  }

  /** What a line is decides what its bytes are. */
  lemma LineBytes(s: bytes, markdown: bool, i: nat)
    requires i < |s| && LineStart(s, i)
    ensures var role := RoleOf(markdown, StateAt(s, markdown, i), Content(s, i));
            forall b :: i <= b < LineEnd(s, i) ==>
              && OnBlank(s, markdown, b) == role.Empty?
              && PathAt(s, markdown, b) == Texts(NextState(markdown, StateAt(s, markdown, i), Content(s, i)).headings)
              && EndOf(s, markdown, b) == BlockEnd(s, markdown, i)
  {
    hide BlockEnd, LineEnd, RoleOf, NextState, StateAt, Content;
    forall b | i <= b < LineEnd(s, i) ensures LineOf(s, b) == i {
      LineOfInside(s, i, b);
    }
  }

  lemma HeadingsKept(markdown: bool, state: State, content: bytes)
    requires !RoleOf(markdown, state, content).Titles?
    ensures NextState(markdown, state, content).headings == state.headings
  {
    hide FenceOpen, FenceClose, HeadingOf, Blank;
  }

  /** The line at `cursor` joins the open block, or opens one. */
  lemma Extended(s: bytes, markdown: bool, chunks: seq<Chunk>, open: Option<Block>, cursor: nat, state: State, line: nat, last: Role)
    requires cursor < |s| && LineStart(s, cursor) && Progress(s, markdown, chunks, open, cursor, last)
    requires state == StateAt(s, markdown, cursor) && line == 1 + Breaks(s, cursor)
    requires RoleAt(s, markdown, cursor) != Empty && RoleAt(s, markdown, cursor) != Titles
    requires open.Some? ==> open.value.path == Texts(state.headings) && Joins(last, RoleAt(s, markdown, cursor))
    ensures Progress(s, markdown, chunks, if open.Some? then open else Some(Block(cursor, line, Texts(state.headings))), LineEnd(s, cursor),
                     RoleAt(s, markdown, cursor))
  {
    hide LineEnd, RoleOf, NextState, StateAt, Content, OnBlank, PathAt, EndOf, BlockEnd, Covered, InOrder;
    LineBytes(s, markdown, cursor);
    HeadingsKept(markdown, state, Content(s, cursor));
    BlockEndIsRest(s, markdown, cursor);
  }

  /** A blank line between blocks is left out. */
  lemma Skipped(s: bytes, markdown: bool, chunks: seq<Chunk>, cursor: nat, last: Role, next: Role)
    requires cursor < |s| && LineStart(s, cursor) && Progress(s, markdown, chunks, None, cursor, last)
    requires RoleOf(markdown, StateAt(s, markdown, cursor), Content(s, cursor)).Empty?
    ensures Progress(s, markdown, chunks, None, LineEnd(s, cursor), next)
  {
    hide LineEnd, RoleOf, NextState, StateAt, Content, OnBlank, PathAt, EndOf, ChunkOk;
    LineBytes(s, markdown, cursor);
    forall b | cursor <= b < LineEnd(s, cursor) ensures !Covered(chunks, b) {
      NotYetCovered(s, markdown, chunks, cursor, b);
    }
  }

  /** A heading line is a block of its own. */
  lemma Titled(s: bytes, markdown: bool, chunks: seq<Chunk>, cursor: nat, state: State, line: nat, last: Role)
    requires cursor < |s| && LineStart(s, cursor) && Progress(s, markdown, chunks, None, cursor, last)
    requires state == StateAt(s, markdown, cursor) && line == 1 + Breaks(s, cursor)
    requires RoleAt(s, markdown, cursor) == Titles
    ensures Progress(s, markdown, chunks,
                     Some(Block(cursor, line, Texts(NextState(markdown, state, Content(s, cursor)).headings))), LineEnd(s, cursor), Titles)
  {
    hide LineEnd, RoleOf, NextState, StateAt, Content, OnBlank, PathAt, EndOf, BlockEnd, Covered, InOrder;
    LineBytes(s, markdown, cursor);
    BlockEndIsRest(s, markdown, cursor);
  }

  /** Nothing joins a heading, or a fence that was closed. */
  lemma Closed(s: bytes, markdown: bool, last: Role, cursor: nat)
    requires cursor <= |s| && last != Prose && (cursor < |s| ==> StateAt(s, markdown, cursor).fence.None?)
    ensures Rest(s, markdown, last, cursor) == cursor
  {
    hide BlockEnd, StateAt, Content, FenceOpen, HeadingOf, Blank;
  }

  /** A paragraph ends before a fence, a heading and a blank line. */
  lemma Parted(s: bytes, markdown: bool, last: Role, cursor: nat)
    requires cursor < |s| && RoleAt(s, markdown, cursor) != InFence && RoleAt(s, markdown, cursor) != Prose
    ensures Rest(s, markdown, last, cursor) == cursor
  {
    hide BlockEnd, RoleAt;
  }

  method PopHeadings(headings: seq<Heading>, level: nat) returns (r: seq<Heading>)
    ensures r == Enclosing(headings, level)
  {
    r := headings;
    while r != [] && r[|r| - 1].level >= level
      invariant Enclosing(headings, level) == Enclosing(r, level)
    {
      r := r[..|r| - 1];
    }
  }

  datatype Document = Document(format: bytes, chunks: seq<Chunk>, empty: bool)

  /** "text" and "markdown" */
  const TEXT: bytes := ['t' as int, 'e' as int, 'x' as int, 't' as int]
  const MARKDOWN: bytes :=
    ['m' as int, 'a' as int, 'r' as int, 'k' as int, 'd' as int, 'o' as int, 'w' as int, 'n' as int]

  /**
   `extract` on the bytes of a file. The chunks are in order, do not overlap, are exact, and cover
   exactly the bytes that are not on a blank line outside a fence.
   */
  method Extract(s: bytes, format: bytes) returns (r: Result<Document>)
    ensures r.Err? ==>
              || (r.error == InvalidParameters && format != TEXT && format != MARKDOWN)
              || (r.error == Error.Format && (0 in s || !Utf8.Valid(s)))
              || (r.error == Limit && (|s| > 16_777_216 || TooMany(s, format == MARKDOWN)))
    ensures r.Ok? ==> (format == TEXT || format == MARKDOWN) && |s| <= MAX_INPUT && 0 !in s && Utf8.Valid(s)
    ensures r.Ok? ==>
              && InOrder(s, format == MARKDOWN, r.value.chunks, |s|) && |r.value.chunks| <= 100_000
              && r.value.format == format && r.value.empty == (s == [])
    ensures r.Ok? ==> forall b :: 0 <= b < |s| ==> (Covered(r.value.chunks, b) <==> !OnBlank(s, format == MARKDOWN, b))
  {
    hide Utf8.Valid, PathAt, OnBlank, Covered, RoleOf, NextState, StateAt, Content, InOrder, TooMany, TEXT, MARKDOWN;
    if format != TEXT && format != MARKDOWN {
      return Err(InvalidParameters);
    }
    if |s| > MAX_INPUT {
      return Err(Limit);
    }
    if 0 in s || !Utf8.Valid(s) {
      return Err(Error.Format);
    }
    var chunks := ReadLines(s, format == MARKDOWN);
    if chunks.Err? {
      return Err(chunks.error);
    }
    return Ok(Document(format, chunks.value, |s| == 0));
  }

  /** The line loop of `extract`. */
  method ReadLines(s: bytes, markdown: bool) returns (r: Result<seq<Chunk>>)
    requires Utf8.Valid(s)
    ensures r.Err? ==> r.error == Limit && TooMany(s, markdown)
    ensures r.Ok? ==> Progress(s, markdown, r.value, None, |s|, Role.Empty)
  {
    hide Utf8.Valid, PathAt, OnBlank, EndOf, BlockEnd, Rest, Covered, RoleOf, NextState, StateAt, InOrder, Progress, TooMany;
    var chunks: seq<Chunk> := [];
    var headings: seq<Heading> := [];
    var paragraph: Option<Block> := None;
    var fence: Option<(Block, Fence)> := None;
    var cursor, line := 0, 1;
    ghost var last := Role.Empty;
    Started(s, markdown, last);
    while cursor < |s|
      invariant 0 <= cursor <= |s| && (LineStart(s, cursor) || cursor == |s|)
      invariant LineStart(s, cursor) ==> line == 1 + Breaks(s, cursor)
      invariant paragraph.None? || fence.None?
      invariant StateAt(s, markdown, cursor) == State(if fence.Some? then Some(fence.value.1) else None, headings)
      invariant Progress(s, markdown, chunks, if fence.Some? then Some(fence.value.0) else paragraph, cursor, last)
      invariant paragraph.Some? ==> paragraph.value.path == Texts(headings) && last == Prose
      invariant fence.Some? ==> fence.value.0.path == Texts(headings)
    {
      var state := StateAt(s, markdown, cursor);
      var content := Content(s, cursor);
      var end := LineEnd(s, cursor);
      LineBreaks(s, cursor);
      StateNext(s, markdown, 0, State(None, []), cursor);
      StateUnfolds(s, markdown, cursor);
      RoleCases(markdown, state, content);
      ghost var role := RoleAt(s, markdown, cursor);
      if fence.Some? {
        Extended(s, markdown, chunks, Some(fence.value.0), cursor, state, line, last);
        if FenceClose(content, fence.value.1) {
          Closed(s, markdown, role, end);
          var emitted := CloseBlock(s, markdown, chunks, Some(fence.value.0), end, role);
          if emitted.Err? {
            return emitted;
          }
          chunks := emitted.value;
          fence := None;
        }
      } else if markdown && FenceOpen(content).Some? {
        Parted(s, markdown, last, cursor);
        var emitted := CloseBlock(s, markdown, chunks, paragraph, cursor, last);
        if emitted.Err? {
          return emitted;
        }
        chunks := emitted.value;
        Extended(s, markdown, chunks, None, cursor, state, line, last);
        paragraph := None;
        fence := Some((Block(cursor, line, Texts(headings)), FenceOpen(content).value));
      } else {
        var heading := if markdown then HeadingOf(content) else None;
        if Blank(content) || heading.Some? {
          Parted(s, markdown, last, cursor);
          var emitted := CloseBlock(s, markdown, chunks, paragraph, cursor, last);
          if emitted.Err? {
            return emitted;
          }
          chunks := emitted.value;
          paragraph := None;
          if heading.Some? {
            headings := PopHeadings(headings, heading.value.level);
            headings := headings + [heading.value];
            Titled(s, markdown, chunks, cursor, state, line, last);
            Closed(s, markdown, Titles, end);
            emitted := CloseBlock(s, markdown, chunks, Some(Block(cursor, line, Texts(headings))), end, Titles);
            if emitted.Err? {
              return emitted;
            }
            chunks := emitted.value;
          } else {
            Skipped(s, markdown, chunks, cursor, last, role);
          }
        } else {
          Extended(s, markdown, chunks, paragraph, cursor, state, line, last);
          if paragraph.None? {
            paragraph := Some(Block(cursor, line, Texts(headings)));
          }
        }
      }
      last := role;
      cursor := end;
      line := line + 1;
    }
    AtEnd(s, markdown, last);
    r := CloseBlock(s, markdown, chunks, if fence.Some? then Some(fence.value.0) else paragraph, |s|, last);
    if r.Ok? {
      NoneOpen(s, markdown, r.value, |s|, last, Role.Empty);
    }
  }

  lemma NoneOpen(s: bytes, markdown: bool, chunks: seq<Chunk>, cursor: nat, last: Role, any: Role)
    requires Progress(s, markdown, chunks, None, cursor, last)
    ensures Progress(s, markdown, chunks, None, cursor, any)
  {
    hide OnBlank, Covered, InOrder;
  }

  lemma AtEnd(s: bytes, markdown: bool, last: Role)
    ensures Rest(s, markdown, last, |s|) == |s|
  {}

  lemma Started(s: bytes, markdown: bool, last: Role)
    ensures Progress(s, markdown, [], None, 0, last) && StateAt(s, markdown, 0) == State(None, [])
  {}

  lemma StateUnfolds(s: bytes, markdown: bool, i: nat)
    requires i < |s|
    ensures StateAt(s, markdown, i) == StateFrom(s, markdown, 0, State(None, []), i)
    ensures StateAt(s, markdown, LineEnd(s, i)) == StateFrom(s, markdown, 0, State(None, []), LineEnd(s, i))
  {
    hide LineEnd;
  }

  /** What each line does to the state. */
  lemma RoleCases(markdown: bool, state: State, content: bytes)
    ensures var (role, next) := (RoleOf(markdown, state, content), NextState(markdown, state, content));
            if state.fence.Some? then
              role == InFence && next == if FenceClose(content, state.fence.value) then state.(fence := None) else state
            else if markdown && FenceOpen(content).Some? then role == OpensFence && next == state.(fence := FenceOpen(content))
            else if markdown && HeadingOf(content).Some? then
              role == Titles
              && next == state.(headings := Enclosing(state.headings, HeadingOf(content).value.level) + [HeadingOf(content).value])
            else role == (if Blank(content) then Empty else Prose) && next == state
  {
    hide FenceOpen, FenceClose, HeadingOf, Blank, Enclosing;
  }

  // ----- there is one way to divide a document

  /** Good chunks of exactly the bytes before `to` that are to be covered. */
  ghost predicate Division(s: bytes, markdown: bool, chunks: seq<Chunk>, to: nat) {
    && to <= |s| && InOrder(s, markdown, chunks, to)
    && forall b :: 0 <= b < to ==> (Covered(chunks, b) <==> !OnBlank(s, markdown, b))
  }

  /** A covered byte is in a chunk that is not before it. */
  lemma CoveredFrom(s: bytes, markdown: bool, chunks: seq<Chunk>, to: nat, i: nat, b: nat) returns (k: nat)
    requires InOrder(s, markdown, chunks, to) && i <= |chunks| && Covered(chunks, b)
    requires i > 0 ==> chunks[i - 1].endByte <= b
    ensures i <= k < |chunks| && chunks[k].startByte <= b < chunks[k].endByte && chunks[i].startByte <= b
  {
    hide ChunkOk;
    k :| 0 <= k < |chunks| && chunks[k].startByte <= b < chunks[k].endByte;
    assert k < i ==> k == i - 1 || chunks[k].endByte <= chunks[i - 1].startByte;
    ChunkParts(s, markdown, chunks[k]);
    if i > 0 { ChunkParts(s, markdown, chunks[i - 1]); }
    assert i <= k;
    if i < k { ChunkParts(s, markdown, chunks[i]); }
  }

  lemma ChunkParts(s: bytes, markdown: bool, c: Chunk)
    requires ChunkOk(s, markdown, c)
    ensures c.startByte < c.endByte <= |s| && c.endByte - c.startByte <= 4096 && Cuttable(s, c.endByte)
    ensures Longest(s, markdown, c.startByte, c.endByte)
  {
    hide PathAt, Cuttable, Longest, Breaks;
  }

  lemma ChunkIs(s: bytes, markdown: bool, c: Chunk)
    requires ChunkOk(s, markdown, c)
    ensures c == Chunk(s[c.startByte..c.endByte], 1 + Breaks(s, c.startByte), 1 + Breaks(s, c.endByte - 1), c.startByte, c.endByte,
                       PathAt(s, markdown, c.startByte))
  {
    hide PathAt, Cuttable, Longest, Breaks;
  }

  /** Two chunks that start together are one. */
  lemma SameStart(s: bytes, markdown: bool, c: Chunk, d: Chunk)
    requires ChunkOk(s, markdown, c) && ChunkOk(s, markdown, d) && c.startByte == d.startByte
    ensures c == d
  {
    hide PathAt, Cuttable, ChunkOk, EndOf;
    ChunkParts(s, markdown, c);
    ChunkParts(s, markdown, d);
    ChunkIs(s, markdown, c);
    ChunkIs(s, markdown, d);
  }

  /** The chunks of a division up to `x` begin a division up to `y`. */
  lemma {:induction false} Begins(s: bytes, markdown: bool, a: seq<Chunk>, x: nat, b: seq<Chunk>, y: nat, n: nat)
    requires Division(s, markdown, a, x) && Division(s, markdown, b, y) && x <= y && n <= |a|
    ensures n <= |b| && a[..n] == b[..n]
    decreases n
  {
    hide PathAt, OnBlank, Covered, ChunkOk;
    if n > 0 {
      var i := n - 1;
      Begins(s, markdown, a, x, b, y, i);
      assert i > 0 ==> a[i - 1] == a[..i][i - 1] == b[..i][i - 1] == b[i - 1];
      ChunkParts(s, markdown, a[i]);
      StartCovered(a, i);
      var at := a[i].startByte;
      var k := CoveredFrom(s, markdown, b, y, i, at);
      ChunkParts(s, markdown, b[i]);
      StartCovered(b, i);
      var l := CoveredFrom(s, markdown, a, x, i, b[i].startByte);
      SameStart(s, markdown, a[i], b[i]);
      assert a[..n] == a[..i] + [a[i]] && b[..n] == b[..i] + [b[i]];
    }
  }

  lemma StartCovered(chunks: seq<Chunk>, i: nat)
    requires i < |chunks| && chunks[i].startByte < chunks[i].endByte
    ensures Covered(chunks, chunks[i].startByte)
  {}

  /** What `extract` answers is the only division of the document. */
  lemma OneDivision(s: bytes, markdown: bool, a: seq<Chunk>, b: seq<Chunk>)
    requires Division(s, markdown, a, |s|) && Division(s, markdown, b, |s|)
    ensures a == b
  {
    hide Division;
    Begins(s, markdown, a, |s|, b, |s|, |a|);
    Begins(s, markdown, b, |s|, a, |s|, |b|);
    assert a[..|a|] == a && b[..|b|] == b;
  }

  /** When 100000 chunks are not enough, every division has more. */
  lemma FullIsTooMany(s: bytes, markdown: bool, chunks: seq<Chunk>, at: nat, all: seq<Chunk>)
    requires Full(s, markdown, chunks, at) && Division(s, markdown, all, |s|)
    ensures |all| > 100_000
  {
    hide PathAt, OnBlank, Covered, ChunkOk;
    Begins(s, markdown, chunks, at, all, |s|, |chunks|);
    assert all[..100_000] == chunks;
    if |all| == 100_000 {
      assert all == chunks;
      NotYetCovered(s, markdown, chunks, at, at);
    }
  }
}
