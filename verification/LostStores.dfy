/** Concrete runs in which the store does not do what its callers are promised. */
module LostStores {
  import opened Bytes
  import opened Payload
  import opened Journal
  import opened ReplayTheorems
  import opened Recovery
  import opened RecoveryRuns
  import opened HistoryReads
  import opened JsonText
  import opened Snapshots
  import Scan
  import Utf8

  function Put(key: bytes, data: bytes): Mutation { Mutation(key, false, data) }

  const A: bytes := ['a' as int]
  const B: bytes := ['b' as int]
  const NUL: bytes := [0]

  /** A value that is written as this text, and read back and written the same. */
  predicate Steady(c: Canon, data: bytes) { NulFree(data) && c.written(data) && c.form(data) == Ok(data) }

  /** The keys of two entries fit their heap. */
  predicate Shelved(c: Canon) { c.shelf({A}) && c.shelf({A, B}) }

  /** An open, clean store over files that reopen to `log`. */
  ghost predicate At(h: Hash, c: Canon, s: System, hist: History) {
    Inv(h, c, s, hist) && s.memory.Some? && s.memory.value.staged == []
  }

  function PutCommit(h: Hash, c: Canon, s: System, key: bytes, data: bytes): System {
    Next(h, c, Next(h, c, s, Stage(Put(key, data))).0, Commit(Synced, Replaced)).0
  }

  lemma OneByteKey(h: Hash, key: byte, data: bytes)
    requires key < 0x80 && NulFree(data)
    ensures Staged(Put([key], data)) && |EncodeAll(h, [Put([key], data)])| == 46 + |data|
  {
    var m := Put([key], data);
    EncodeAllOne(h, m);
    EncodeSize(h, m);
    assert Utf8Ok(m.key);
  }

  predicate Utf8Ok(s: bytes) { |s| == 1 && s[0] < 0x80 && Utf8.CharLength(s) == 1 && s[1..] == [] }

  lemma Opened(h: Hash, c: Canon)
    ensures At(h, c, Next(h, c, EMPTY, Open(Replaced)).0, NOTHING)
    ensures Openable(h, c, Next(h, c, EMPTY, Open(Replaced)).0.disk, NOTHING)
  {
    hide DiskInv, Openable;
    EmptyInv(h, c);
    DiskOf(h, c, EMPTY, NOTHING);
    OpenRecovers(h, c, EMPTY.disk, NOTHING, Replaced);
  }

  /** Little enough is in the journal for one more put. */
  predicate Early(h: Hash, hist: History)
  {
    hist.base <= |hist.log| < 10 && |JournalOf(h, hist.log, hist.base)| < 1_000_000_000
  }

  /** Staging one mutation on a clean open store lets a commit through. */
  lemma Staging(h: Hash, c: Canon, s: System, hist: History, key: byte, data: bytes)
    requires At(h, c, s, hist) && Early(h, hist) && key < 0x80
    requires NulFree(data) && c.written(data) && |data| < STORE_LIMIT - 46
    ensures var t := Next(h, c, s, Stage(Put([key], data))).0;
            && Inv(h, c, t, hist) && t.memory.Some? && t.memory.value.staged == [Put([key], data)]
            && t.disk == s.disk && t.memory.value.currentRev == |hist.log| && Attempts(h, t)
            && t.memory.value.revisions == s.memory.value.revisions && t.memory.value.index == s.memory.value.index
  {
    hide DiskInv, Agree, Fold, JournalOf, RevisionsOf, Record, EncodeAll, Staged;
    OneByteKey(h, key, data);
    RecordSize(h, |hist.log|, [Put([key], data)]);
  }

  lemma Committing(h: Hash, c: Canon, s: System, hist: History, key: byte, data: bytes)
    requires At(h, c, s, hist) && Early(h, hist) && 0 < key < 0x80
    requires NulFree(data) && c.written(data) && |data| < STORE_LIMIT - 46
    ensures var next := History(hist.log + [[Put([key], data)]], hist.base, []);
            && At(h, c, PutCommit(h, c, s, [key], data), next) && PutCommit(h, c, s, [key], data).memory.Some?
            && PutCommit(h, c, s, [key], data).memory.value.index == s.memory.value.index[[key] := data]
            && |JournalOf(h, next.log, next.base)| == |JournalOf(h, hist.log, hist.base)| + 154 + |data|
  {
    hide Inv, JournalOf, Record, EncodeAll, Next;
    var t := Next(h, c, s, Stage(Put([key], data))).0;
    Staging(h, c, s, hist, key, data);
    CommitPreserves(h, c, t, hist, Synced, Replaced);
    CommitResult(h, c, t, hist);
    CommitOpen(h, c, t);
    SyncedSurvives(Record(h, |hist.log|, [Put([key], data)]));
    JournalAppend(h, hist.log, [Put([key], data)], hist.base);
    OneByteKey(h, key, data);
    RecordSize(h, |hist.log|, [Put([key], data)]);
    ApplyPut(s.memory.value.index, Put([key], data));
  }

  lemma ApplyPut(index: Index, m: Mutation)
    requires !m.deleted
    ensures Apply(index, [m]) == index[m.key := m.data]
  {
    assert Apply(index, [m]) == Apply(ApplyOne(index, m), [m][1..]);
  }

  lemma CommitOpen(h: Hash, c: Canon, s: System)
    requires s.memory.Some? && CommitStep(h, s, Synced, Replaced).1.Ok?
    ensures Next(h, c, s, Commit(Synced, Replaced)) == CommitStep(h, s, Synced, Replaced)
    ensures var n := CommitStep(h, s, Synced, Replaced).0;
            n.memory.Some? && n.memory.value.staged == []
            && n.memory.value.index == Apply(s.memory.value.index, s.memory.value.staged)
  {
    hide Record, EncodeAll, Apply, RevisionOf;
  }

  /** A committed key with a NUL in it makes the whole store unreadable. */
  lemma NulKeyLosesStore(h: Hash, c: Canon, data: bytes)
    requires NulFree(data) && c.written(data) && |data| < STORE_LIMIT - 46
    ensures var s1 := Next(h, c, EMPTY, Open(Replaced)).0;
            var s2 := PutCommit(h, c, s1, NUL, data);
            OpenStep(h, c, s2.disk, Replaced).1.Err?
  {
    hide Inv, Next, OpenStep, CommitStep;
    var s1 := Next(h, c, EMPTY, Open(Replaced)).0;
    Opened(h, c);
    assert JournalOf(h, [], 0) == [];
    Staging(h, c, s1, NOTHING, 0, data);
    var t := Next(h, c, s1, Stage(Put(NUL, data))).0;
    CommitResult(h, c, t, NOTHING);
    CommitOpen(h, c, t);
    assert !KeysNulFree(t.memory.value.staged) by { assert 0 in t.memory.value.staged[0].key; }
    CommitReopens(h, c, t, NOTHING);
  }

  function CompactAll(h: Hash, c: Canon, s: System): System {
    Next(h, c, s, Compact(0, Replaced, Replaced, Replaced, Truncated)).0
  }

  lemma Compacting(h: Hash, c: Canon, s: System, hist: History)
    requires At(h, c, s, hist) && Faithful(c) && Dump(c, s.memory.value.index).Ok?
    ensures At(h, c, CompactAll(h, c, s), History(hist.log, |hist.log|, []))
    ensures CompactAll(h, c, s).memory.Some? && CompactAll(h, c, s).memory.value.retention == |hist.log|
    ensures CompactAll(h, c, s).memory.value.index == s.memory.value.index
    ensures JournalOf(h, hist.log, |hist.log|) == []
  {
    hide DiskInv, Agree, Fold, JournalOf, RevisionsOf, Faithful, Dump, SnapshotText, SnapshotFile;
    RetentionIn(h, c, s, hist);
    CompactPreserves(h, c, s, hist, 0, Replaced, Replaced, Replaced, Truncated);
    EmptyJournal(h, hist.log);
  }

  lemma RetentionIn(h: Hash, c: Canon, s: System, hist: History)
    requires Inv(h, c, s, hist) && s.memory.Some?
    ensures s.memory.value.retention <= s.memory.value.currentRev
  {
    hide JournalOf, Agree, Sound, LogWritten, RevisionsOf, SnapshotTrue;
  }

  /** An index of steady values under `a` and `b` is dumped as it is. */
  lemma SteadyDump(c: Canon, index: Index, data: bytes)
    requires Steady(c, data) && (index == map[A := data] || index == map[A := data, B := data]) && Shelved(c)
    ensures Dump(c, index) == Ok(index)
  {
    FormedAll(c, index, Scan.Order(index.Keys));
    assert index.Keys == {A} || index.Keys == {A, B};
    var decoded := Formed(c, index, Scan.Order(index.Keys)).value;
    assert decoded == index;
  }

  /** Commit, full compaction, commit: the state the next two runs start from. */
  lemma CompactedThenCommitted(h: Hash, c: Canon, data: bytes) returns (s: System, hist: History)
    requires Faithful(c) && Shelved(c) && Steady(c, data) && |data| < 1000
    ensures s == PutCommit(h, c, CompactAll(h, c, PutCommit(h, c, Next(h, c, EMPTY, Open(Replaced)).0, A, data)), B, data)
    ensures At(h, c, s, hist) && hist == History([[Put(A, data)], [Put(B, data)]], 1, [])
    ensures s.memory.Some? && s.memory.value.retention == 1 && s.memory.value.index == map[A := data, B := data]
  {
    hide Inv, Next, PutCommit, CompactAll, Faithful;
    var s1 := Next(h, c, EMPTY, Open(Replaced)).0;
    Opened(h, c);
    EmptyIndex(h, c);
    assert JournalOf(h, [], 0) == [];
    Committing(h, c, s1, NOTHING, 'a' as int, data);
    var s2 := PutCommit(h, c, s1, A, data);
    assert [] + [[Put(A, data)]] == [[Put(A, data)]];
    var hist2 := History([[Put(A, data)]], 0, []);
    SteadyDump(c, s2.memory.value.index, data);
    Compacting(h, c, s2, hist2);
    var s3 := CompactAll(h, c, s2);
    Committing(h, c, s3, History([[Put(A, data)]], 1, []), 'b' as int, data);
    s := PutCommit(h, c, s3, B, data);
    CommitRetention(h, c, s3, B, data);
    hist := History([[Put(A, data)], [Put(B, data)]], 1, []);
    assert [[Put(A, data)]] + [[Put(B, data)]] == hist.log;
    assert s.memory.value.index == map[A := data, B := data];
  }

  lemma EmptyIndex(h: Hash, c: Canon)
    ensures var s := Next(h, c, EMPTY, Open(Replaced)).0; s.memory.Some? ==> s.memory.value.index == map[]
  {}

  /** A snapshot taken one commit after a full compaction makes the whole store unreadable. */
  lemma SnapshotAfterCompactionLosesStore(h: Hash, c: Canon, data: bytes)
    requires Faithful(c) && Shelved(c) && Steady(c, data) && |data| < 1000
    ensures var s1 := PutCommit(h, c, Next(h, c, EMPTY, Open(Replaced)).0, A, data);
            var s2 := PutCommit(h, c, CompactAll(h, c, s1), B, data);
            var (s3, r) := Next(h, c, s2, Snapshot(Replaced, Replaced));
            r == Ok(2) && OpenStep(h, c, s3.disk, Replaced).1.Err?
  {
    hide Inv, PutCommit, CompactAll, OpenStep, Faithful, Dump;
    var s, hist := CompactedThenCommitted(h, c, data);
    Revisions(h, c, s, hist);
    assert !ChainHolds(s.memory.value) by { Unchained(h, c, s, hist); }
    SteadyDump(c, s.memory.value.index, data);
    SnapshotReopens(h, c, s, hist);
  }

  lemma Unchained(h: Hash, c: Canon, s: System, hist: History)
    requires Inv(h, c, s, hist) && s.memory.Some? && 0 < hist.base < |hist.log|
    ensures !ChainHolds(s.memory.value)
  {
    hide DiskInv, Agree, Fold, JournalOf, RevisionsOf, AllStaged, AllWritten;
    ChainBase(h, c, s.disk, s.memory.value, hist);
  }

  /**
   Two values of 150 MiB are committed, each within the limit of a revision. A snapshot of them reports success, its
   text is over the limit of `load_snapshot`, and the store never opens again, not even when it is compacted first.
   */
  lemma LargeSnapshotLosesStore(h: Hash, c: Canon, data: bytes)
    requires Faithful(c) && Shelved(c) && Steady(c, data) && |data| == 150 * 1024 * 1024
    ensures var s1 := PutCommit(h, c, Next(h, c, EMPTY, Open(Replaced)).0, A, data);
            var s2 := PutCommit(h, c, s1, B, data);
            && OpenStep(h, c, s2.disk, Replaced).1 == Ok(2)
            && (var (s3, r) := Next(h, c, s2, Snapshot(Replaced, Replaced));
                r == Ok(2) && OpenStep(h, c, s3.disk, Replaced).1.Err?)
            && (var (s4, r) := Next(h, c, s2, Compact(0, Replaced, Replaced, Replaced, Truncated));
                r == Ok(2) && OpenStep(h, c, s4.disk, Replaced).1.Err?)
  {
    hide Inv, PutCommit, OpenStep, Faithful, Dump, SnapshotText, Openable;
    var s, hist := BothCommitted(h, c, data);
    Revisions(h, c, s, hist);
    SteadyDump(c, s.memory.value.index, data);
    LongText(s.memory.value.index, data);
    DiskOf(h, c, s, hist);
    OpenRecovers(h, c, s.disk, hist, Replaced);
    SnapshotReopens(h, c, s, hist);
    CompactionReopens(h, c, s, hist);
  }

  lemma BothCommitted(h: Hash, c: Canon, data: bytes) returns (s: System, hist: History)
    requires Faithful(c) && Shelved(c) && Steady(c, data) && |data| < STORE_LIMIT - 46
    ensures s == PutCommit(h, c, PutCommit(h, c, Next(h, c, EMPTY, Open(Replaced)).0, A, data), B, data)
    ensures At(h, c, s, hist) && hist == History([[Put(A, data)], [Put(B, data)]], 0, []) && Openable(h, c, s.disk, hist)
    ensures s.memory.Some? && s.memory.value.index == map[A := data, B := data]
  {
    hide Inv, Next, PutCommit, Faithful, Openable;
    var s1 := Next(h, c, EMPTY, Open(Replaced)).0;
    Opened(h, c);
    EmptyIndex(h, c);
    assert JournalOf(h, [], 0) == [];
    Committing(h, c, s1, NOTHING, 'a' as int, data);
    PutOpens(h, c, s1, NOTHING, 'a' as int, data);
    var s2 := PutCommit(h, c, s1, A, data);
    assert [] + [[Put(A, data)]] == [[Put(A, data)]];
    var hist2 := History([[Put(A, data)]], 0, []);
    Committing(h, c, s2, hist2, 'b' as int, data);
    PutOpens(h, c, s2, hist2, 'b' as int, data);
    s := PutCommit(h, c, s2, B, data);
    hist := History([[Put(A, data)], [Put(B, data)]], 0, []);
    assert [[Put(A, data)]] + [[Put(B, data)]] == hist.log;
    assert s.memory.value.index == map[A := data, B := data];
  }

  lemma PutOpens(h: Hash, c: Canon, s: System, hist: History, key: byte, data: bytes)
    requires At(h, c, s, hist) && Early(h, hist) && 0 < key < 0x80 && Openable(h, c, s.disk, hist) && Faithful(c)
    requires NulFree(data) && c.written(data) && |data| < STORE_LIMIT - 46
    ensures Openable(h, c, PutCommit(h, c, s, [key], data).disk, History(hist.log + [[Put([key], data)]], hist.base, []))
  {
    hide Inv, JournalOf, Record, EncodeAll, Next, Openable, Faithful;
    var t := Next(h, c, s, Stage(Put([key], data))).0;
    Staging(h, c, s, hist, key, data);
    CommitOpens(h, c, t, hist, Synced, Replaced);
    CommitResult(h, c, t, hist);
    CommitOpen(h, c, t);
    SyncedSurvives(Record(h, |hist.log|, [Put([key], data)]));
  }

  /** The text of a snapshot holds every value. */
  lemma LongText(index: Index, data: bytes)
    requires index == map[A := data, B := data]
    ensures |SnapshotText(index)| > 2 * |data|
  {
    hide JsonText.Quoted;
    var keys := Scan.Order(index.Keys);
    assert index.Keys == {A, B};
    Scan.OrderLength(index.Keys);
    var rest := keys[1..];
    assert |rest| == 1 && |EntriesText(index, rest)| >= |data|;
    assert |EntriesText(index, keys)| >= |data| + 1 + |EntriesText(index, rest)|;
  }

  /** One commit later, the revision a full compaction kept no longer shows the key it held. */
  lemma CompactedRevisionLosesKey(h: Hash, c: Canon, data: bytes)
    requires Faithful(c) && Shelved(c) && Steady(c, data) && |data| < 1000
    ensures var s1 := CompactAll(h, c, PutCommit(h, c, Next(h, c, EMPTY, Open(Replaced)).0, A, data));
            var s2 := PutCommit(h, c, s1, B, data);
            && s2.memory.Some? && s2.memory.value.retention == 1
            && GetAt(s2.memory.value, 1, A) == Err(NotFound)
            && Lookup(Fold([[Put(A, data)], [Put(B, data)]], 1), A) == Ok(data)
  {
    hide Inv, PutCommit, CompactAll, Faithful, GetAt;
    var s, hist := CompactedThenCommitted(h, c, data);
    Revisions(h, c, s, hist);
    var log := hist.log;
    assert Fold(log, 1) == Apply(Fold(log, 0), [Put(A, data)]) == map[A := data] by { ApplyPut(map[], Put(A, data)); }
    assert !Touched(log, 1, 1, A);
    GetAtExact(h, c, s, hist, 1, A);
  }

  lemma CommitRetention(h: Hash, c: Canon, s: System, key: bytes, data: bytes)
    requires s.memory.Some?
    ensures var n := PutCommit(h, c, s, key, data);
            n.memory.Some? ==> n.memory.value.retention == s.memory.value.retention
  {
    hide Record, EncodeAll, Apply, RevisionOf;
  }
}
