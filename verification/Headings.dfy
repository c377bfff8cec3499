/** Which headings stand over a line of a Markdown document, and which lines stand inside a fence. */
module Headings {
  import opened Bytes
  import opened Lines
  import opened Documents

  // ----- lines before a line

  /** The line before the one that starts at `i`. */
  lemma LineBefore(s: bytes, i: nat) returns (p: nat)
    requires 0 < i <= |s| && (LineStart(s, i) || i == |s|)
    ensures p < i && LineStart(s, p) && LineEnd(s, p) == i
    ensures forall j :: p < j < i ==> !LineStart(s, j)
  {
    hide LineEnd;
    p := LineOf(s, i - 1);
    LineBreaks(s, p);
  }

  lemma StateAfter(s: bytes, markdown: bool, p: nat)
    requires p < |s| && LineStart(s, p)
    ensures StateAt(s, markdown, LineEnd(s, p)) == NextState(markdown, StateAt(s, markdown, p), Content(s, p))
  {
    hide NextState, Content, LineEnd;
    StateNext(s, markdown, 0, State(None, []), p);
  }

  // ----- headings

  /** A heading starts at `j`. */
  predicate Titled(s: bytes, markdown: bool, j: nat, h: Heading) {
    j < |s| && LineStart(s, j) && RoleAt(s, markdown, j) == Titles && HeadingOf(Content(s, j)) == Some(h)
  }

  /** No heading of the same or a higher rank comes between `j` and `e`. */
  ghost predicate Stands(s: bytes, markdown: bool, j: nat, h: Heading, e: nat) {
    forall k, other :: j < k < e && Titled(s, markdown, k, other) ==> other.level > h.level
  }

  ghost predicate StandsAt(s: bytes, markdown: bool, j: nat, h: Heading, e: nat) {
    j < e && Titled(s, markdown, j, h) && Stands(s, markdown, j, h, e)
  }

  /** The headings that stand at `e` are these, in the order of their places. */
  ghost predicate Standing(s: bytes, markdown: bool, e: nat, at: seq<nat>, headings: seq<Heading>) {
    && |at| == |headings|
    && (forall m, n :: 0 <= m < n < |at| ==> at[m] < at[n])
    && (forall n :: 0 <= n < |at| ==> StandsAt(s, markdown, at[n], headings[n], e))
    && (forall j: nat, h :: StandsAt(s, markdown, j, h, e) ==> j in at)
  }

  /** So each ranks below the one before it. */
  lemma Ranks(s: bytes, markdown: bool, e: nat, at: seq<nat>, headings: seq<Heading>)
    requires Standing(s, markdown, e, at, headings)
    ensures forall m, n :: 0 <= m < n < |headings| ==> headings[m].level < headings[n].level
  {
    hide Titled;
    forall m, n | 0 <= m < n < |headings| ensures headings[m].level < headings[n].level {
      assert at[m] < at[n] < e && Titled(s, markdown, at[n], headings[n]);
    }
  }

  /** A heading leaves open just those of a higher rank. */
  lemma {:induction false} EnclosingMeans(headings: seq<Heading>, level: nat)
    requires forall m, n :: 0 <= m < n < |headings| ==> headings[m].level < headings[n].level
    ensures var kept := Enclosing(headings, level);
            && |kept| <= |headings| && kept == headings[..|kept|]
            && forall n :: 0 <= n < |headings| ==> (n < |kept| <==> headings[n].level < level)
    decreases |headings|
  {
    if headings != [] && headings[|headings| - 1].level >= level {
      EnclosingMeans(headings[..|headings| - 1], level);
    }
  }

  /** A line that is no heading changes nothing. */
  lemma StandingOn(s: bytes, markdown: bool, p: nat, e: nat, at: seq<nat>, headings: seq<Heading>)
    requires Standing(s, markdown, p, at, headings) && p < e
    requires forall j: nat, h :: p <= j < e ==> !Titled(s, markdown, j, h)
    ensures Standing(s, markdown, e, at, headings)
  {
    hide Titled;
    forall n | 0 <= n < |at| ensures StandsAt(s, markdown, at[n], headings[n], e) {
      assert StandsAt(s, markdown, at[n], headings[n], p);
    }
    forall j: nat, h | StandsAt(s, markdown, j, h, e) ensures j in at {
      assert StandsAt(s, markdown, j, h, p);
    }
  }

  /** A heading at `p` ends those of its own or a lower rank, and stands itself. */
  lemma StandingNew(s: bytes, markdown: bool, p: nat, e: nat, at: seq<nat>, headings: seq<Heading>, heading: Heading) returns (now: seq<nat>)
    requires Standing(s, markdown, p, at, headings) && p < e && Titled(s, markdown, p, heading)
    requires forall j: nat, h :: p < j < e ==> !Titled(s, markdown, j, h)
    ensures Standing(s, markdown, e, now, Enclosing(headings, heading.level) + [heading])
  {
    hide Titled, Enclosing, StandsAt;
    Ranks(s, markdown, p, at, headings);
    EnclosingMeans(headings, heading.level);
    var n := |Enclosing(headings, heading.level)|;
    now := at[..n] + [p];
    LaterPlace(s, markdown, p, at, headings, n);
    StillStand(s, markdown, p, e, at, headings, heading, n, now);
    NoOthers(s, markdown, p, e, at, headings, heading, n, now);
  }

  lemma LaterPlace(s: bytes, markdown: bool, p: nat, at: seq<nat>, headings: seq<Heading>, n: nat)
    requires Standing(s, markdown, p, at, headings) && n <= |at|
    ensures forall m, k :: 0 <= m < k < |at[..n] + [p]| ==> (at[..n] + [p])[m] < (at[..n] + [p])[k]
  {
    hide Titled, Stands;
  }

  /** Those of a higher rank and the new one stand. */
  lemma StillStand(
    s: bytes, markdown: bool, p: nat, e: nat, at: seq<nat>, headings: seq<Heading>, heading: Heading, n: nat, now: seq<nat>)
    requires Standing(s, markdown, p, at, headings) && p < e && Titled(s, markdown, p, heading)
    requires forall j: nat, h :: p < j < e ==> !Titled(s, markdown, j, h)
    requires n <= |headings| && now == at[..n] + [p] && forall m :: 0 <= m < n ==> headings[m].level < heading.level
    ensures forall m :: 0 <= m < |now| ==> StandsAt(s, markdown, now[m], (headings[..n] + [heading])[m], e)
  {
    hide Titled, Stands;
    forall m | 0 <= m < |now| ensures StandsAt(s, markdown, now[m], (headings[..n] + [heading])[m], e) {
      if m < n {
        assert StandsAt(s, markdown, at[m], headings[m], p);
        StandsOver(s, markdown, p, e, at[m], headings[m], heading);
      } else {
        StandsFirst(s, markdown, p, e, heading);
      }
    }
  }

  /** A heading of a higher rank stands over the new one. */
  lemma StandsOver(s: bytes, markdown: bool, p: nat, e: nat, j: nat, h: Heading, heading: Heading)
    requires StandsAt(s, markdown, j, h, p) && p < e && Titled(s, markdown, p, heading) && h.level < heading.level
    requires forall j: nat, h :: p < j < e ==> !Titled(s, markdown, j, h)
    ensures StandsAt(s, markdown, j, h, e)
  {
    OneTitle(s, markdown, p, heading);
    hide Titled;
  }

  lemma StandsFirst(s: bytes, markdown: bool, p: nat, e: nat, heading: Heading)
    requires p < e && Titled(s, markdown, p, heading)
    requires forall j: nat, h :: p < j < e ==> !Titled(s, markdown, j, h)
    ensures StandsAt(s, markdown, p, heading, e)
  {
    hide Titled;
  }

  /** No other heading stands. */
  lemma NoOthers(
    s: bytes, markdown: bool, p: nat, e: nat, at: seq<nat>, headings: seq<Heading>, heading: Heading, n: nat, now: seq<nat>)
    requires Standing(s, markdown, p, at, headings) && p < e && Titled(s, markdown, p, heading)
    requires forall j: nat, h :: p < j < e ==> !Titled(s, markdown, j, h)
    requires n <= |headings| && now == at[..n] + [p] && forall m :: n <= m < |headings| ==> headings[m].level >= heading.level
    ensures forall j: nat, h :: StandsAt(s, markdown, j, h, e) ==> j in now
  {
    hide Titled;
    forall j: nat, h | StandsAt(s, markdown, j, h, e) ensures j in now {
      if j < p {
        assert StandsAt(s, markdown, j, h, p);
        var m :| 0 <= m < |at| && at[m] == j;
        SameTitle(s, markdown, j, h, headings[m]);
        assert m < n;
        assert now[m] == j;
      } else {
        assert now[n] == p;
      }
    }
  }

  lemma SameTitle(s: bytes, markdown: bool, j: nat, h: Heading, other: Heading)
    requires Titled(s, markdown, j, h) && Titled(s, markdown, j, other)
    ensures h == other
  {}

  lemma OneTitle(s: bytes, markdown: bool, j: nat, h: Heading)
    requires Titled(s, markdown, j, h)
    ensures forall other :: Titled(s, markdown, j, other) ==> other == h
  {}

  /** The headings of the state before a line are those that stand there. */
  lemma {:induction false} HeadingsStand(s: bytes, markdown: bool, i: nat) returns (at: seq<nat>)
    requires i <= |s| && (LineStart(s, i) || i == |s|)
    ensures Standing(s, markdown, i, at, StateAt(s, markdown, i).headings)
  {
    hide LineEnd, StateAt, Content, HeadingOf, FenceOpen, FenceClose, Blank, Enclosing, Standing, LineStart;
    if i == 0 {
      at := [];
      NoneStands(s, markdown);
    } else {
      var p := LineBefore(s, i);
      var before := HeadingsStand(s, markdown, p);
      StateAfter(s, markdown, p);
      if RoleAt(s, markdown, p) == Titles {
        at := StandingNew(s, markdown, p, i, before, StateAt(s, markdown, p).headings, HeadingOf(Content(s, p)).value);
      } else {
        at := before;
        StandingOn(s, markdown, p, i, at, StateAt(s, markdown, p).headings);
      }
    }
  }

  lemma NoneStands(s: bytes, markdown: bool)
    ensures Standing(s, markdown, 0, [], StateAt(s, markdown, 0).headings)
  {}

  lemma {:induction false} TextsAre(headings: seq<Heading>)
    ensures |Texts(headings)| == |headings| && forall n :: 0 <= n < |headings| ==> Texts(headings)[n] == headings[n].text
    decreases |headings|
  {
    if headings != [] { TextsAre(headings[..|headings| - 1]); }
  }

  /**
   The path of a byte is the texts of the headings that stand over its line: those at or before it that no heading of
   the same or a higher rank follows, in their order; each ranks below the one before it.
   */
  lemma PathStands(s: bytes, markdown: bool, b: nat) returns (at: seq<nat>, headings: seq<Heading>)
    requires b < |s|
    ensures Standing(s, markdown, LineEnd(s, LineOf(s, b)), at, headings)
    ensures |PathAt(s, markdown, b)| == |headings| && forall n :: 0 <= n < |headings| ==> PathAt(s, markdown, b)[n] == headings[n].text
    ensures forall m, n :: 0 <= m < n < |headings| ==> headings[m].level < headings[n].level
  {
    hide StateAt, Content, NextState, Standing, LineEnd;
    var i := LineOf(s, b);
    var e := LineEnd(s, i);
    StateAfter(s, markdown, i);
    LineBreaks(s, i);
    at := HeadingsStand(s, markdown, e);
    headings := StateAt(s, markdown, e).headings;
    TextsAre(headings);
    Ranks(s, markdown, e, at, headings);
  }

  // ----- fences

  /** A line before `e` opens this fence and none after it closes it. */
  ghost predicate Opened(s: bytes, markdown: bool, j: nat, fence: Fence, e: nat) {
    && j < e && j < |s| && LineStart(s, j) && RoleAt(s, markdown, j) == OpensFence && FenceOpen(Content(s, j)) == Some(fence)
    && forall k :: j < k < e && k < |s| && LineStart(s, k) ==> !FenceClose(Content(s, k), fence)
  }

  /** A fence is open before a line just when one was opened before it and not closed since. */
  lemma {:induction false} FenceStands(s: bytes, markdown: bool, i: nat, fence: Fence)
    requires i <= |s| && (LineStart(s, i) || i == |s|)
    ensures StateAt(s, markdown, i).fence == Some(fence) <==> exists j :: Opened(s, markdown, j, fence, i)
  {
    hide LineEnd, StateAt, Content, HeadingOf, FenceOpen, FenceClose, Blank, Enclosing, LineStart;
    if i == 0 {
      NoFence(s, markdown);
    } else {
      var p := LineBefore(s, i);
      FenceStands(s, markdown, p, fence);
      StateAfter(s, markdown, p);
      if StateAt(s, markdown, i).fence == Some(fence) {
        if RoleAt(s, markdown, p) == OpensFence {
          assert Opened(s, markdown, p, fence, i);
        } else {
          var j :| Opened(s, markdown, j, fence, p);
          assert Opened(s, markdown, j, fence, i);
        }
      }
      if j :| Opened(s, markdown, j, fence, i) {
        if j < p {
          assert Opened(s, markdown, j, fence, p);
        } else {
          assert j == p;
        }
      }
    }
  }

  lemma NoFence(s: bytes, markdown: bool)
    ensures StateAt(s, markdown, 0).fence == None
  {}

  /** So a line is inside of a fence just when a line before it opened one that is not closed in between. */
  lemma InsideFence(s: bytes, markdown: bool, i: nat)
    requires i < |s| && LineStart(s, i)
    ensures RoleAt(s, markdown, i) == InFence <==> exists j, fence :: Opened(s, markdown, j, fence, i)
  {
    hide LineStart, StateAt, Content, HeadingOf, FenceOpen, Blank;
    if RoleAt(s, markdown, i) == InFence {
      FenceStands(s, markdown, i, StateAt(s, markdown, i).fence.value);
    }
    if j, fence :| Opened(s, markdown, j, fence, i) {
      FenceStands(s, markdown, i, fence);
    }
  }
}
