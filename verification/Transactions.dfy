/** What staging and committing do for a caller: all that was staged, in its order, is what the next revision holds. */
module Transactions {
  import opened Bytes
  import opened Payload
  import opened Journal
  import opened ReplayTheorems
  import opened Recovery
  import opened RecoveryRuns
  import opened Snapshots
  import opened Durable

  function Stagings(ms: seq<Mutation>): (ops: seq<Op>)
    ensures |ops| == |ms| && forall i :: 0 <= i < |ms| ==> ops[i] == Stage(ms[i])
  {
    seq(|ms|, i requires 0 <= i < |ms| => Stage(ms[i]))
  }

  /** Mutations are staged behind those that are there; the files are not touched. */
  lemma {:induction false} StagedInOrder(h: Hash, c: Canon, s: System, hist: History, ms: seq<Mutation>)
    requires s.memory.Some? && forall i :: 0 <= i < |ms| ==> ms[i].key != []
    ensures var n := Run(h, c, s, Stagings(ms));
            && n == System(s.disk, Some(s.memory.value.(staged := s.memory.value.staged + ms)))
            && RunHistory(h, c, s, hist, Stagings(ms)) == hist
    decreases |ms|
  {
    hide CommitStep, CompactStep, SnapshotStep, OpenStep;
    var m := s.memory.value;
    if ms == [] {
      assert m.staged + ms == m.staged;
    } else {
      var next := Next(h, c, s, Stage(ms[0])).0;
      assert Stagings(ms)[1..] == Stagings(ms[1..]);
      StagedInOrder(h, c, next, hist, ms[1..]);
      assert (m.staged + [ms[0]]) + ms[1..] == m.staged + ms;
    }
  }

  /** The last mutation of a key, if there is one, is mutation `j`. */
  predicate LastOf(ms: seq<Mutation>, j: nat, key: bytes) {
    j < |ms| && ms[j].key == key && forall k :: j < k < |ms| ==> ms[k].key != key
  }

  /** A key holds what its last mutation says, and a key without one what it held before. */
  lemma {:induction false} AppliedLast(index: Index, ms: seq<Mutation>, key: bytes)
    ensures (forall j :: 0 <= j < |ms| ==> ms[j].key != key) ==>
              (key in Apply(index, ms) <==> key in index) && (key in index ==> Apply(index, ms)[key] == index[key])
    ensures forall j: nat :: LastOf(ms, j, key) ==>
              if ms[j].deleted then key !in Apply(index, ms) else key in Apply(index, ms) && Apply(index, ms)[key] == ms[j].data
    decreases |ms|
  {
    if ms != [] {
      var next, rest := ApplyOne(index, ms[0]), ms[1..];
      AppliedLast(next, rest, key);
      forall j: nat | LastOf(ms, j, key)
        ensures if ms[j].deleted then key !in Apply(index, ms) else key in Apply(index, ms) && Apply(index, ms)[key] == ms[j].data
      {
        if j > 0 {
          assert LastOf(rest, j - 1, key);
        } else {
          assert forall k :: 0 <= k < |rest| ==> rest[k].key == ms[k + 1].key;
        }
      }
      if forall j :: 0 <= j < |ms| ==> ms[j].key != key {
        assert forall k :: 0 <= k < |rest| ==> rest[k].key == ms[k + 1].key;
      }
    }
  }

  /** The contents after a revision: every key as its last mutation says, or as before. */
  ghost predicate Written(before: Index, after: Index, ms: seq<Mutation>) {
    && (forall key :: (forall j :: 0 <= j < |ms| ==> ms[j].key != key) ==>
          (key in after <==> key in before) && (key in before ==> after[key] == before[key]))
    && (forall key, j: nat :: LastOf(ms, j, key) ==>
          if ms[j].deleted then key !in after else key in after && after[key] == ms[j].data)
  }

  /** Mutations that can be one revision of this store: typed, and within 256 MiB and the 64-bit numbers. */
  predicate Committable(h: Hash, c: Canon, s: System, ms: seq<Mutation>)
    requires s.memory.Some?
  {
    && ms != [] && AllStaged(ms) && AllWritten(c, ms) && |EncodeAll(h, ms)| <= 268_435_456
    && s.memory.value.currentRev + 1 < U64
    && s.memory.value.journalOffset + 108 + |EncodeAll(h, ms)| < U64
  }

  /**
   Mutations that are staged on a clean handle and committed without a fault are the next revision of the log, in their
   order: the commit answers its number, nothing is staged any more, and the contents are as the mutations say.
   */
  lemma Transaction(h: Hash, c: Canon, s: System, hist: History, ms: seq<Mutation>)
    requires Inv(h, c, s, hist) && Clean(s) && Committable(h, c, s, ms)
    ensures var staged := Run(h, c, s, Stagings(ms));
            var (n, r) := Next(h, c, staged, Commit(Synced, Replaced));
            var next := NextHistory(h, c, staged, RunHistory(h, c, s, hist, Stagings(ms)), Commit(Synced, Replaced));
            && Inv(h, c, n, next) && Clean(n) && r == Ok(|hist.log| + 1)
            && next.log == hist.log + [ms] && Written(Contents(hist), Contents(next), ms)
  {
    hide Inv, Record, EncodeAll, Apply, AllStaged, AllWritten, CommitStep, NextHistory, Written, Contents, Run, RunHistory;
    assert s.memory.value.staged + ms == ms;
    KeysStaged(ms);
    StagedInOrder(h, c, s, hist, ms);
    var staged := Run(h, c, s, Stagings(ms));
    assert staged == WithStaged(s, ms);
    StagedKeeps(h, c, s, hist, ms);
    CommitPreserves(h, c, staged, hist, Synced, Replaced);
    RecordSize(h, s.memory.value.currentRev, ms);
    CommitResult(h, c, staged, hist);
    CommitClears(h, staged, Synced, Replaced);
    Joined(h, c, staged, hist);
    var next := NextHistory(h, c, staged, hist, Commit(Synced, Replaced));
    ContentsGrow(hist, next, ms);
    AllWrittenBy(Contents(hist), ms);
  }

  lemma KeysStaged(ms: seq<Mutation>)
    requires AllStaged(ms)
    ensures forall i :: 0 <= i < |ms| ==> ms[i].key != []
  {}

  lemma StagedKeeps(h: Hash, c: Canon, s: System, hist: History, ms: seq<Mutation>)
    requires Inv(h, c, s, hist) && s.memory.Some? && AllStaged(ms) && AllWritten(c, ms)
    ensures Inv(h, c, WithStaged(s, ms), hist)
  {
    hide DiskInv, Agree, Fold, JournalOf, RevisionsOf, AllStaged, AllWritten;
  }

  lemma Joined(h: Hash, c: Canon, s: System, hist: History)
    requires s.memory.Some? && Attempts(h, s)
    ensures NextHistory(h, c, s, hist, Commit(Synced, Replaced)).log == hist.log + [s.memory.value.staged]
  {
    hide Record, EncodeAll;
  }

  lemma AllWrittenBy(before: Index, ms: seq<Mutation>)
    ensures Written(before, Apply(before, ms), ms)
  {
    hide Apply;
    forall key ensures
        (forall j :: 0 <= j < |ms| ==> ms[j].key != key) ==>
          (key in Apply(before, ms) <==> key in before) && (key in before ==> Apply(before, ms)[key] == before[key])
    {
      AppliedLast(before, ms, key);
    }
    forall key, j: nat | LastOf(ms, j, key)
      ensures if ms[j].deleted then key !in Apply(before, ms) else key in Apply(before, ms) && Apply(before, ms)[key] == ms[j].data
    {
      AppliedLast(before, ms, key);
    }
  }

  /** What is refused changes nothing: an empty key, an empty or too long commit, and any operation without a handle. */
  lemma Refusals(h: Hash, c: Canon, s: System, hist: History, op: Op)
    requires Inv(h, c, s, hist)
    ensures s.memory.None? && !op.Open? && !op.Close? ==> Next(h, c, s, op) == (s, Err(InvalidState))
    ensures s.memory.Some? && op.Open? ==> Next(h, c, s, op) == (s, Err(Conflict))
    ensures s.memory.Some? && op.Stage? && op.mutation.key == [] ==> Next(h, c, s, op) == (s, Err(Key))
    ensures s.memory.Some? && op.Commit? && s.memory.value.staged == [] ==> Next(h, c, s, op) == (s, Err(UnsupportedOperation))
    ensures s.memory.Some? && op.Commit? && |EncodeAll(h, s.memory.value.staged)| > 268_435_456 ==> Next(h, c, s, op) == (s, Err(Limit))
    ensures s.memory.Some? && op.Discard? ==>
              Next(h, c, s, op) == (System(s.disk, Some(s.memory.value.(staged := []))), Ok(|hist.log|))
  {
    hide DiskInv, Agree, JournalOf, RevisionsOf, AllStaged, AllWritten, OpenStep, SnapshotStep, CompactStep, Record;
    assert EncodeAll(h, []) == [];
  }
}
