/** What the protocols that own keys of a store use of it: one batch, committed or not. */
module Durable {
  import opened Bytes
  import opened Payload
  import opened Journal
  import opened ReplayTheorems
  import opened Recovery
  import opened RecoveryRuns
  import opened Snapshots

  /** The contents of a store after its whole log. */
  function Contents(hist: History): Index { Fold(hist.log, |hist.log|) }

  /** An open handle with nothing staged: what `ensure_clean` asks for. */
  predicate Clean(s: System) { s.memory.Some? && s.memory.value.staged == [] }

  function WithStaged(s: System, ms: seq<Mutation>): System
    requires s.memory.Some?
  {
    System(s.disk, Some(s.memory.value.(staged := ms)))
  }

  /** Stage `ms` and commit; every protocol closes the handle when that fails. */
  function CommitBatch(h: Hash, s: System, ms: seq<Mutation>, a: Append, p: Publication): (next: (System, Result<nat>))
    requires s.memory.Some?
    ensures next.1.Ok? ==> next.0.memory.Some?
  {
    var (n, r) := CommitStep(h, WithStaged(s, ms), a, p);
    if r.Err? then (System(n.disk, None), r) else (n, r)
  }

  function BatchHistory(h: Hash, c: Canon, s: System, hist: History, ms: seq<Mutation>, a: Append, p: Publication): History
    requires s.memory.Some?
  {
    NextHistory(h, c, WithStaged(s, ms), hist, Commit(a, p))
  }

  predicate Writable(c: Canon, ms: seq<Mutation>) { AllStaged(ms) && AllWritten(c, ms) && KeysNulFree(ms) }

  /** The batch joins the log whole or not at all, and surely when the commit succeeds. */
  lemma BatchKeeps(h: Hash, c: Canon, s: System, hist: History, ms: seq<Mutation>, a: Append, p: Publication)
    requires Inv(h, c, s, hist) && s.memory.Some? && Writable(c, ms)
    ensures var (n, r) := CommitBatch(h, s, ms, a, p);
            var next := BatchHistory(h, c, s, hist, ms, a, p);
            && Inv(h, c, n, next)
            && (next.log == hist.log || next.log == hist.log + [ms])
            && (r.Ok? ==> Clean(n) && next.log == hist.log + [ms] && r.value == |next.log|)
            && (r.Err? ==> n.memory.None?)
            && (Openable(h, c, s.disk, hist) ==> Openable(h, c, n.disk, next))
  {
    hide DiskInv, Record, EncodeAll, Agree, Fold, JournalOf, RevisionsOf, Apply, RevisionOf, Survives, AllStaged, AllWritten, KeysNulFree,
         Openable;
    var t := WithStaged(s, ms);
    assert Inv(h, c, t, hist);
    CommitPreserves(h, c, t, hist, a, p);
    if Openable(h, c, s.disk, hist) {
      CommitOpens(h, c, t, hist, a, p);
    }
    CommitClears(h, t, a, p);
    LogChoice(h, c, t, hist, a, p);
    var (n, r) := CommitStep(h, t, a, p);
    assert r.Err? ==> Inv(h, c, System(n.disk, None), NextHistory(h, c, t, hist, Commit(a, p)));
  }

  lemma CommitClears(h: Hash, s: System, a: Append, p: Publication)
    requires s.memory.Some?
    ensures var (n, r) := CommitStep(h, s, a, p); r.Ok? ==> Clean(n)
  {
    hide Record, EncodeAll, Apply, RevisionOf, AppendRecord;
  }

  lemma LogChoice(h: Hash, c: Canon, s: System, hist: History, a: Append, p: Publication)
    requires s.memory.Some?
    ensures var next := NextHistory(h, c, s, hist, Commit(a, p));
            next.log == hist.log || next.log == hist.log + [s.memory.value.staged]
  {
    hide Record, EncodeAll, Survives;
  }

  /** What a caller reads of an open store is its contents. */
  lemma IndexIsContents(h: Hash, c: Canon, s: System, hist: History)
    requires Inv(h, c, s, hist) && s.memory.Some? && Faithful(c)
    ensures s.memory.value.index.Keys == Contents(hist).Keys
    ensures forall k :: k in Contents(hist) ==> c.form(s.memory.value.index[k]) == c.form(Contents(hist)[k])
    ensures s.memory.value.currentRev == |hist.log|
  {
    hide JournalOf, RevisionsOf, Fold, AllStaged, AllWritten, Sound, LogWritten, ReadRecord, SnapshotText, ManifestInv;
    FoldWritten(h, c, hist.log, |hist.log|);
    forall k | k in Contents(hist) ensures c.form(s.memory.value.index[k]) == c.form(Contents(hist)[k]) {
      assert Reads(c, s.memory.value.index[k], Contents(hist)[k]);
    }
  }

  lemma ContentsGrow(hist: History, next: History, ms: seq<Mutation>)
    requires next.log == hist.log + [ms]
    ensures Contents(next) == Apply(Contents(hist), ms)
  {
    hide Apply;
    FoldPrefix(hist.log, [ms], |hist.log|);
  }

  // ----- operations of other users of the same store

  /** None of these mutations is of a key with the prefix `owned`. */
  predicate Foreign(ms: seq<Mutation>, owned: bytes) { forall i :: 0 <= i < |ms| ==> !(owned <= ms[i].key) }

  predicate ForeignOp(op: Op, owned: bytes) { op.Stage? ==> !(owned <= op.mutation.key) }

  ghost predicate SameOwned(a: Index, b: Index, owned: bytes) {
    forall k :: owned <= k ==> (k in a <==> k in b) && (k in a && k in b ==> a[k] == b[k])
  }

  lemma {:induction false} ForeignApply(index: Index, ms: seq<Mutation>, owned: bytes)
    requires Foreign(ms, owned)
    ensures SameOwned(index, Apply(index, ms), owned)
    decreases |ms|
  {
    if ms != [] {
      var next := ApplyOne(index, ms[0]);
      assert SameOwned(index, next, owned);
      assert forall i :: 0 <= i < |ms[1..]| ==> ms[1..][i] == ms[i + 1];
      ForeignApply(next, ms[1..], owned);
    }
  }

  predicate StagedForeign(s: System, owned: bytes) {
    s.memory.Some? ==> Foreign(s.memory.value.staged, owned)
  }

  /** Other users' operations keep the store, what they staged, and the owned keys of its contents. */
  lemma ForeignStep(h: Hash, c: Canon, s: System, hist: History, op: Op, owned: bytes)
    requires Inv(h, c, s, hist) && Typed(c, op) && Faithful(c)
    requires StagedForeign(s, owned) && ForeignOp(op, owned)
    ensures var next := NextHistory(h, c, s, hist, op);
            && Inv(h, c, Next(h, c, s, op).0, next)
            && StagedForeign(Next(h, c, s, op).0, owned)
            && hist.log <= next.log
            && SameOwned(Contents(hist), Contents(next), owned)
  {
    hide Inv, Next, NextHistory, Contents, Foreign, Typed, SameOwned, Faithful;
    StepKeeps(h, c, s, hist, op);
    StagedAfter(h, c, s, op, owned);
    var next := NextHistory(h, c, s, hist, op);
    LogAfter(h, c, s, hist, op);
    if next.log != hist.log {
      ContentsGrow(hist, next, s.memory.value.staged);
      ForeignApply(Contents(hist), s.memory.value.staged, owned);
    } else {
      SameContents(hist, next, owned);
    }
  }

  lemma SameContents(hist: History, next: History, owned: bytes)
    requires next.log == hist.log
    ensures SameOwned(Contents(hist), Contents(next), owned)
  {
    hide Fold;
  }

  lemma LogAfter(h: Hash, c: Canon, s: System, hist: History, op: Op)
    ensures var next := NextHistory(h, c, s, hist, op);
            next.log == hist.log || (s.memory.Some? && next.log == hist.log + [s.memory.value.staged])
  {
    hide Record, EncodeAll, Survives;
  }

  lemma StagedAfter(h: Hash, c: Canon, s: System, op: Op, owned: bytes)
    requires StagedForeign(s, owned) && ForeignOp(op, owned)
    ensures StagedForeign(Next(h, c, s, op).0, owned)
  {
    hide Replay, Record, EncodeAll, Apply, RevisionOf, SnapshotText, SnapshotFile, LoadSnapshot, Dump, AppendRecord, Publish;
  }
}
