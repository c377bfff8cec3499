/** Every run leaves files that open to exactly the log or not at all, and which step takes them from one to the other. */
module RecoveryRuns {
  import opened Bytes
  import opened JsonText
  import opened Seqs
  import opened Payload
  import opened Journal
  import opened ReplayTheorems
  import opened Recovery
  import opened Snapshots
  import Utf8

  // ----- commit

  lemma SoundGrows(h: Hash, log: Log, ms: seq<Mutation>)
    requires Sound(h, log) && Batch(h, ms) && |log| + 1 < U64
    ensures Sound(h, log + [ms])
  {
    hide Batch;
  }

  lemma WrittenGrows(c: Canon, log: Log, ms: seq<Mutation>)
    requires LogWritten(c, log) && AllWritten(c, ms)
    ensures LogWritten(c, log + [ms])
  {
    hide AllWritten;
  }

  lemma ManifestGrows(h: Hash, c: Canon, d: Disk, m: Manifest, hist: History, ms: seq<Mutation>, torn: bytes)
    requires ManifestInv(h, c, d, m, hist)
    ensures ManifestInv(h, c, d, m, History(hist.log + [ms], hist.base, torn))
  {
    hide Agree, LoadSnapshot;
    FoldPrefix(hist.log, [ms], m.snapshot);
  }

  /** What survives of a record is the whole of it or something replay reads as torn. */
  lemma SurvivorTorn(h: Hash, previous: nat, ms: seq<Mutation>, a: Append)
    requires Batch(h, ms) && previous + 1 < U64
    ensures var record := Record(h, previous, ms);
            Survives(record, a) == record || ReadRecord(Survives(record, a)) == Torn
    ensures Survives(Record(h, previous, ms), a) == Record(h, previous, ms) ==> !(a.Cut? && a.rolledBack)
  {
    hide Record, Batch;
    var record := Record(h, previous, ms);
    RecordSize(h, previous, ms);
    assert record + [] == record;
    ReadWritten(h, previous, ms, []);
    if a.Cut? && !a.rolledBack && a.at < |record| {
      CutIsTorn(record, a.at);
    }
    if a.Unsynced? && a.kept < |record| {
      CutIsTorn(record, a.kept);
    }
  }

  /** The journal a commit leaves: the old log with a torn tail, or the longer log. */
  lemma JournalAfterCommit(h: Hash, hist: History, ms: seq<Mutation>, journal: bytes, a: Append)
    requires hist.base <= |hist.log| && journal == JournalOf(h, hist.log, hist.base) + hist.torn
    requires !a.NotTruncated?
    ensures var record := Record(h, |hist.log|, ms);
            var kept := Survives(record, a);
            var after := AppendRecord(journal, |JournalOf(h, hist.log, hist.base)|, record, a);
            && after == JournalOf(h, hist.log, hist.base) + kept
            && (kept == record ==> after == JournalOf(h, hist.log + [ms], hist.base) + [])
  {
    hide Record, Survives, JournalOf;
    Peel(JournalOf(h, hist.log, hist.base), hist.torn);
    JournalAppend(h, hist.log, ms, hist.base);
  }

  lemma IndexAfterCommit(h: Hash, c: Canon, m: Memory, log: Log, ms: seq<Mutation>)
    requires Agree(c, m.index, Fold(log, |log|))
    ensures Agree(c, Apply(m.index, ms), Fold(log + [ms], |log| + 1))
  {
    hide Agree, Apply;
    FoldPrefix(log, [ms], |log|);
    AgreeApply(c, m.index, Fold(log, |log|), ms);
  }

  /** Growing the log on disk keeps the disk invariant, whichever manifest is there. */
  lemma DiskGrows(h: Hash, c: Canon, d: Disk, journal: bytes, hist: History, ms: seq<Mutation>)
    requires DiskInv(h, c, d, hist) && d.manifest.Some?
    requires Batch(h, ms) && AllWritten(c, ms) && |hist.log| + 1 < U64
    requires journal == JournalOf(h, hist.log + [ms], hist.base) + []
    ensures DiskInv(h, c, d.(journal := journal), History(hist.log + [ms], hist.base, []))
  {
    hide Sound, JournalOf, Batch, AllWritten, LogWritten, ManifestInv;
    SoundGrows(h, hist.log, ms);
    WrittenGrows(c, hist.log, ms);
    var next := History(hist.log + [ms], hist.base, []);
    ManifestGrows(h, c, d, d.manifest.value, hist, ms, []);
    ManifestOnly(h, c, d, d.(journal := journal), d.manifest.value, next);
  }

  lemma ManifestOnly(h: Hash, c: Canon, d: Disk, e: Disk, m: Manifest, hist: History)
    requires ManifestInv(h, c, d, m, hist) && e.snapshots == d.snapshots
    ensures ManifestInv(h, c, e, m, hist)
  {
    hide SnapshotTrue;
  }

  /** Publishing the manifest of a handle that agrees with the log keeps the disk invariant. */
  lemma PublishInv(h: Hash, c: Canon, d: Disk, m: Manifest, hist: History, p: Publication)
    requires DiskInv(h, c, d, hist) && ManifestInv(h, c, d, m, hist)
    ensures DiskInv(h, c, Publish(d, m, p), hist)
  {
    hide Sound, LogWritten, JournalOf, ReadRecord, SnapshotTrue;
  }

  lemma CommitPreserves(h: Hash, c: Canon, s: System, hist: History, a: Append, p: Publication)
    requires Inv(h, c, s, hist) && s.memory.Some?
    ensures var (n, r) := CommitStep(h, s, a, p);
            var next := NextHistory(h, c, s, hist, Commit(a, p));
            && Inv(h, c, n, next)
            && (r.Ok? ==> next.log == hist.log + [s.memory.value.staged] && r.value == |next.log|)
  {
    hide Record, JournalOf, Sound, LogWritten, Agree, Batch, ReadRecord, ManifestInv, RevisionsOf, RevisionOf, Apply,
         Survives, AllStaged, AllWritten, EncodeAll;
    var m := s.memory.value;
    if Attempts(h, s) && !a.NotTruncated? {
      var ms := m.staged;
      assert Batch(h, ms) by { StagedBatch(h, ms); }
      var record := Record(h, m.currentRev, ms);
      SurvivorTorn(h, m.currentRev, ms, a);
      JournalAfterCommit(h, hist, ms, s.disk.journal, a);
      var journal := AppendRecord(s.disk.journal, m.journalOffset, record, a);
      var disk := s.disk.(journal := journal);
      if Survives(record, a) == record {
        DiskGrows(h, c, s.disk, journal, hist, ms);
        if a.Synced? {
          CommittedMemory(h, c, s, hist, p);
        }
      } else {
        assert !a.Synced? by { SyncedSurvives(record); }
        ManifestOnly(h, c, s.disk, disk, ManifestOf(m), hist);
        TornManifest(h, c, disk, ManifestOf(m), hist, Survives(record, a));
      }
    }
  }

  lemma StagedBatch(h: Hash, ms: seq<Mutation>)
    requires AllStaged(ms) && ms != [] && |EncodeAll(h, ms)| <= STORE_LIMIT
    ensures Batch(h, ms)
  {}

  lemma SyncedSurvives(record: bytes)
    ensures Survives(record, Synced) == record
  {}

  lemma TornManifest(h: Hash, c: Canon, d: Disk, m: Manifest, hist: History, torn: bytes)
    requires ManifestInv(h, c, d, m, hist)
    ensures ManifestInv(h, c, d, m, History(hist.log, hist.base, torn))
  {
    hide SnapshotTrue;
  }

  /** The handle after a synced record, and the manifest it publishes. */
  lemma CommittedMemory(h: Hash, c: Canon, s: System, hist: History, p: Publication)
    requires Inv(h, c, s, hist) && s.memory.Some? && Attempts(h, s)
    requires var m := s.memory.value;
             var journal := AppendRecord(s.disk.journal, m.journalOffset, Record(h, m.currentRev, m.staged), Synced);
             DiskInv(h, c, s.disk.(journal := journal), History(hist.log + [m.staged], hist.base, []))
    ensures var (n, r) := CommitStep(h, s, Synced, p);
            && Inv(h, c, n, History(hist.log + [s.memory.value.staged], hist.base, []))
            && (r.Ok? ==> r.value == |hist.log| + 1)
  {
    hide Record, JournalOf, Sound, LogWritten, Agree, ReadRecord, RevisionsOf, RevisionOf, Apply, AllStaged, AllWritten, EncodeAll,
         AppendRecord, SnapshotTrue;
    var m := s.memory.value;
    var next := History(hist.log + [m.staged], hist.base, []);
    var journal := AppendRecord(s.disk.journal, m.journalOffset, Record(h, m.currentRev, m.staged), Synced);
    var disk := s.disk.(journal := journal);
    var memory := m.(
      index := Apply(m.index, m.staged), staged := [],
      revisions := m.revisions + [RevisionOf(h, m.currentRev, m.staged)],
      currentRev := m.currentRev + 1,
      journalOffset := m.journalOffset + |Record(h, m.currentRev, m.staged)|);
    IndexAfterCommit(h, c, m, hist.log, m.staged);
    RevisionsAppend(h, hist.log, m.staged, hist.base);
    JournalAppend(h, hist.log, m.staged, hist.base);
    NothingStaged();
    NothingWritten(c);
    if m.snapshotRev != 0 {
      TrueLater(h, c, s.disk, m.snapshotRev, hist.log, m.staged);
    }
    PublishInv(h, c, disk, ManifestOf(memory), next, p);
  }

  lemma TrueLater(h: Hash, c: Canon, d: Disk, revision: nat, log: Log, ms: seq<Mutation>)
    requires revision <= |log| && (revision in d.snapshots ==> SnapshotTrue(h, c, d.snapshots[revision], revision, log))
    ensures revision in d.snapshots ==> SnapshotTrue(h, c, d.snapshots[revision], revision, log + [ms])
  {
    hide Agree, LoadSnapshot;
    FoldPrefix(log, [ms], revision);
  }

  // ----- snapshot and compaction

  /** Every key is text, every value is what `encode_value` can give. */
  ghost predicate IndexWritten(c: Canon, index: Index) { forall k :: k in index ==> Utf8.Valid(k) && c.written(index[k]) }

  lemma {:induction false} FoldWritten(h: Hash, c: Canon, log: Log, n: nat)
    requires Sound(h, log) && LogWritten(c, log) && n <= |log|
    ensures IndexWritten(c, Fold(log, n))
  {
    hide Apply, IndexWritten, AllStaged, AllWritten, EncodeAll;
    if n == 0 {
      NothingIndexed(c);
    } else {
      FoldWritten(h, c, log, n - 1);
      assert Batch(h, log[n - 1]) && AllWritten(c, log[n - 1]);
      ApplyWritten(c, Fold(log, n - 1), log[n - 1]);
    }
  }

  lemma NothingIndexed(c: Canon)
    ensures IndexWritten(c, map[])
  {}

  lemma {:induction false} ApplyWritten(c: Canon, index: Index, ms: seq<Mutation>)
    requires AllStaged(ms) && AllWritten(c, ms) && IndexWritten(c, index)
    ensures IndexWritten(c, Apply(index, ms))
    decreases |ms|
  {
    hide Utf8.Valid;
    if ms != [] {
      assert Staged(ms[0]);
      var next := ApplyOne(index, ms[0]);
      assert forall i :: 0 <= i < |ms[1..]| ==> ms[1..][i] == ms[i + 1];
      ApplyWritten(c, next, ms[1..]);
    }
  }

  /** What a snapshot publishes is canonical, and agrees with the contents it was taken of. */
  lemma DumpAgrees(c: Canon, index: Index, fold: Index)
    requires Faithful(c) && Agree(c, index, fold) && Dump(c, index).Ok?
    requires IndexWritten(c, fold)
    ensures Canonical(c, Dump(c, index).value) && Agree(c, Dump(c, index).value, fold)
  {
    hide Utf8.Valid, Dump, SnapshotText;
    DumpAll(c, index);
    var dumped := Dump(c, index).value;
    forall k | k in dumped
      ensures TextOk(k) && c.written(dumped[k]) && c.form(dumped[k]) == Ok(dumped[k]) && Reads(c, dumped[k], fold[k])
    {
      assert c.form(index[k]) == Ok(dumped[k]);
      assert Reads(c, index[k], fold[k]);
      assert c.form(fold[k]).Ok? ==> c.written(c.form(fold[k]).value) && c.form(c.form(fold[k]).value) == c.form(fold[k]);
      assert c.form(index[k]) == c.form(fold[k]);
    }
  }

  /** The file that a snapshot publishes says the truth, and loads if and only if it fits. */
  lemma SnapshotFileTrue(h: Hash, c: Canon, index: Index, log: Log)
    requires Faithful(c) && Sound(h, log) && LogWritten(c, log) && Agree(c, index, Fold(log, |log|)) && Dump(c, index).Ok?
    ensures var file := SnapshotFile(h, |log|, SnapshotText(Dump(c, index).value));
            && SnapshotTrue(h, c, file, |log|, log)
            && (LoadSnapshot(h, c, |log|, file).Ok? <==> Fits(c, Dump(c, index).value))
            && (log == [] ==> Fits(c, Dump(c, index).value))
  {
    hide Agree, Fold, SnapshotText, SnapshotFile, LoadSnapshot, Dump, Canonical, LogWritten, IndexWritten;
    if log == [] {
      NoKeys(c, index, log);
      NothingFits(c, index);
    }
    FoldWritten(h, c, log, |log|);
    DumpAgrees(c, index, Fold(log, |log|));
    LoadWritten(h, c, |log|, SnapshotText(Dump(c, index).value));
    assert c.room(Dump(c, index).value) || !c.room(Dump(c, index).value);
  }

  lemma NoKeys(c: Canon, index: Index, log: Log)
    requires log == [] && Agree(c, index, Fold(log, |log|))
    ensures index.Keys == {}
  {}

  /** A snapshot file of the current revision can be added to any store. */
  lemma SnapshotFileInv(h: Hash, c: Canon, d: Disk, file: bytes, hist: History)
    requires DiskInv(h, c, d, hist) && SnapshotTrue(h, c, file, |hist.log|, hist.log)
    ensures DiskInv(h, c, d.(snapshots := d.snapshots[|hist.log| := file]), hist)
  {
    hide Sound, LogWritten, JournalOf, ReadRecord, SnapshotTrue;
  }

  lemma ChainBase(h: Hash, c: Canon, d: Disk, m: Memory, hist: History)
    requires hist.base <= |hist.log| && MemoryInv(h, c, d, m, hist)
    ensures ChainHolds(m) <==> hist.base == 0 || hist.base == |hist.log|
  {
    hide Agree, JournalOf, Fold, AllStaged, AllWritten;
    assert |m.revisions| == |hist.log| - hist.base;
    if hist.base < |hist.log| {
      assert m.revisions[0] == RevisionOf(h, hist.base, hist.log[hist.base]);
    }
  }

  /** A snapshot, wherever it stops, keeps the invariant. */
  lemma SnapshotPreserves(h: Hash, c: Canon, s: System, hist: History, file: Publication, p: Publication)
    requires Inv(h, c, s, hist) && s.memory.Some? && Faithful(c)
    ensures Inv(h, c, SnapshotStep(h, c, s, file, p).0, hist)
    ensures SnapshotStep(h, c, s, file, p).1.Ok? ==>
              var n := SnapshotStep(h, c, s, file, p).0;
              n.memory.Some? && n.memory.value.snapshotRev == n.memory.value.currentRev
  {
    hide Sound, LogWritten, JournalOf, ReadRecord, Agree, Fold, Dump, Faithful, RevisionsOf, AllStaged, AllWritten, SnapshotTrue,
         SnapshotText, SnapshotFile;
    var m := s.memory.value;
    if Dump(c, m.index).Ok? {
      var content := SnapshotFile(h, |hist.log|, SnapshotText(Dump(c, m.index).value));
      SnapshotFileTrue(h, c, m.index, hist.log);
      SnapshotFileInv(h, c, s.disk, content, hist);
      var disk := s.disk.(snapshots := s.disk.snapshots[m.currentRev := content]);
      PublishInv(h, c, disk, ManifestOf(m.(snapshotRev := m.currentRev)), hist, p);
    }
  }

  lemma RetainPreserves(h: Hash, c: Canon, s: System, hist: History, retained: nat, p: Publication, t: Truncation)
    requires Inv(h, c, s, hist) && s.memory.Some?
    requires retained == 0 ==> s.memory.value.snapshotRev == s.memory.value.currentRev
    ensures var next := if retained == 0 && p.Replaced? && t != Failed(false)
                        then History(hist.log, |hist.log|, []) else hist;
            Inv(h, c, RetainStep(s, retained, p, t).0, next)
  {
    hide Sound, LogWritten, JournalOf, ReadRecord, Agree, Fold, RevisionsOf, AllStaged, AllWritten, SnapshotTrue;
    var m := s.memory.value;
    var boundary := if m.currentRev < retained then 0 else m.currentRev - retained;
    var memory := m.(retention := Max(m.retention, boundary));
    PublishInv(h, c, s.disk, ManifestOf(memory), hist, p);
    if retained == 0 && p.Replaced? && t != Failed(false) {
      EmptyJournal(h, hist.log);
    }
  }

  lemma EmptyJournal(h: Hash, log: Log)
    ensures JournalOf(h, log, |log|) == [] && RevisionsOf(h, log, |log|) == [] && ReadRecord([]) == Torn
  {}

  /** So does a compaction. */
  lemma CompactPreserves(
    h: Hash, c: Canon, s: System, hist: History, retained: nat, file: Publication, first: Publication,
    p: Publication, t: Truncation)
    requires Inv(h, c, s, hist) && s.memory.Some? && Faithful(c)
    ensures Inv(h, c, CompactStep(h, c, s, retained, file, first, p, t).0,
                NextHistory(h, c, s, hist, Compact(retained, file, first, p, t)))
  {
    hide Inv, Faithful, Dump, SnapshotText, SnapshotFile;
    if retained == 0 {
      SnapshotPreserves(h, c, s, hist, file, first);
      var (snapped, r) := SnapshotStep(h, c, s, file, first);
      if r.Ok? && snapped.memory.Some? {
        RetainPreserves(h, c, snapped, hist, retained, p, t);
      }
    } else {
      RetainPreserves(h, c, s, hist, retained, p, t);
    }
  }

  // ----- runs

  function Run(h: Hash, c: Canon, s: System, ops: seq<Op>): System
    decreases |ops|
  {
    if ops == [] then s else Run(h, c, Next(h, c, s, ops[0]).0, ops[1..])
  }

  function RunHistory(h: Hash, c: Canon, s: System, hist: History, ops: seq<Op>): History
    decreases |ops|
  {
    if ops == [] then hist
    else RunHistory(h, c, Next(h, c, s, ops[0]).0, NextHistory(h, c, s, hist, ops[0]), ops[1..])
  }

  predicate AllTyped(c: Canon, ops: seq<Op>) { forall i :: 0 <= i < |ops| ==> Typed(c, ops[i]) }

  predicate AllPrudent(h: Hash, c: Canon, s: System, ops: seq<Op>)
    decreases |ops|
  {
    ops == [] || (Prudent(c, s, ops[0]) && AllPrudent(h, c, Next(h, c, s, ops[0]).0, ops[1..]))
  }

  /** Every operation, however its file operations end, keeps the invariant and all committed batches. */
  lemma StepKeeps(h: Hash, c: Canon, s: System, hist: History, op: Op)
    requires Inv(h, c, s, hist) && Typed(c, op) && Faithful(c)
    ensures Inv(h, c, Next(h, c, s, op).0, NextHistory(h, c, s, hist, op))
    ensures hist.log <= NextHistory(h, c, s, hist, op).log
  {
    hide OpenStep, CommitStep, SnapshotStep, CompactStep, Sound, LogWritten, Agree, Fold, JournalOf, RevisionsOf, ReadRecord, Staged,
         Faithful, ManifestInv, Record, Survives, Attempts, Openable, Dump;
    match op
    case Open(p) =>
      if s.memory.None? { OpenRecovers(h, c, s.disk, hist, p); }
    case Commit(a, p) =>
      if s.memory.Some? { CommitPreserves(h, c, s, hist, a, p); }
    case Snapshot(file, p) =>
      if s.memory.Some? { SnapshotPreserves(h, c, s, hist, file, p); }
    case Compact(retained, file, first, p, t) =>
      if s.memory.Some? { CompactPreserves(h, c, s, hist, retained, file, first, p, t); }
    case Stage(mutation) =>
    case Discard =>
    case Close =>
  }

  lemma {:induction false} RunKeeps(h: Hash, c: Canon, s: System, hist: History, ops: seq<Op>)
    requires Inv(h, c, s, hist) && AllTyped(c, ops) && Faithful(c)
    ensures Inv(h, c, Run(h, c, s, ops), RunHistory(h, c, s, hist, ops))
    ensures hist.log <= RunHistory(h, c, s, hist, ops).log
    decreases |ops|
  {
    hide Inv, Typed, Next, NextHistory, Faithful;
    if ops != [] {
      StepKeeps(h, c, s, hist, ops[0]);
      assert forall i :: 0 <= i < |ops[1..]| ==> ops[1..][i] == ops[i + 1];
      RunKeeps(h, c, Next(h, c, s, ops[0]).0, NextHistory(h, c, s, hist, ops[0]), ops[1..]);
    }
  }

  lemma EmptyInv(h: Hash, c: Canon)
    ensures Inv(h, c, EMPTY, NOTHING) && Openable(h, c, EMPTY.disk, NOTHING)
  {
    assert JournalOf(h, [], 0) == [];
  }

  // ----- prudent operations keep files that open

  lemma CommitOpens(h: Hash, c: Canon, s: System, hist: History, a: Append, p: Publication)
    requires Inv(h, c, s, hist) && s.memory.Some? && Openable(h, c, s.disk, hist) && KeysNulFree(s.memory.value.staged)
    ensures Openable(h, c, CommitStep(h, s, a, p).0.disk, NextHistory(h, c, s, hist, Commit(a, p)))
  {
    hide Record, JournalOf, RevisionsOf, RevisionOf, Sound, LogWritten, Agree, KeysNulFree, ReadRecord, ManifestInv, Apply, Survives,
         AllStaged, AllWritten, EncodeAll, LoadSnapshot, AppendRecord;
    NulFreeGrows(hist.log, hist.base, s.memory.value.staged);
  }

  lemma NulFreeGrows(log: Log, base: nat, ms: seq<Mutation>)
    requires base <= |log|
    ensures NulFreeAfter(log + [ms], base) <==> NulFreeAfter(log, base) && KeysNulFree(ms)
  {
    hide KeysNulFree;
    var longer := log + [ms];
    assert longer[|log|] == ms;
    forall i | base <= i < |log| ensures longer[i] == log[i] {}
  }

  /** Files with the snapshot of the current revision, under either manifest. */
  lemma SnapshotOpens(h: Hash, c: Canon, s: System, hist: History, file: Publication, p: Publication)
    requires Inv(h, c, s, hist) && s.memory.Some? && Faithful(c) && Openable(h, c, s.disk, hist)
    requires Prudent(c, s, Snapshot(file, p))
    ensures Openable(h, c, SnapshotStep(h, c, s, file, p).0.disk, hist)
  {
    hide Sound, LogWritten, JournalOf, ReadRecord, Agree, Fold, Dump, Faithful, RevisionsOf, AllStaged, AllWritten, SnapshotTrue,
         SnapshotText, SnapshotFile, LoadSnapshot, NulFreeAfter, ChainHolds, Fits;
    var m := s.memory.value;
    if Dump(c, m.index).Ok? {
      ChainBase(h, c, s.disk, m, hist);
      SnapshotFileTrue(h, c, m.index, hist.log);
    }
  }

  lemma RetainOpens(h: Hash, c: Canon, s: System, hist: History, retained: nat, p: Publication, t: Truncation)
    requires Inv(h, c, s, hist) && s.memory.Some? && Openable(h, c, s.disk, hist)
    requires retained == 0 ==> s.memory.value.snapshotRev == s.memory.value.currentRev
    ensures var next := if retained == 0 && p.Replaced? && t != Failed(false)
                        then History(hist.log, |hist.log|, []) else hist;
            Openable(h, c, RetainStep(s, retained, p, t).0.disk, next)
  {
    hide Sound, LogWritten, JournalOf, ReadRecord, Agree, Fold, RevisionsOf, AllStaged, AllWritten, SnapshotTrue, LoadSnapshot;
  }

  lemma CompactOpens(
    h: Hash, c: Canon, s: System, hist: History, retained: nat, file: Publication, first: Publication,
    p: Publication, t: Truncation)
    requires Inv(h, c, s, hist) && s.memory.Some? && Faithful(c) && Openable(h, c, s.disk, hist)
    requires Prudent(c, s, Compact(retained, file, first, p, t))
    ensures Openable(h, c, CompactStep(h, c, s, retained, file, first, p, t).0.disk,
                     NextHistory(h, c, s, hist, Compact(retained, file, first, p, t)))
  {
    hide Inv, Faithful, Dump, SnapshotText, SnapshotFile, Openable, ChainHolds, Fits;
    if retained == 0 {
      SnapshotPreserves(h, c, s, hist, file, first);
      SnapshotOpens(h, c, s, hist, file, first);
      var (snapped, r) := SnapshotStep(h, c, s, file, first);
      if r.Ok? && snapped.memory.Some? {
        RetainOpens(h, c, snapped, hist, retained, p, t);
      }
    } else {
      RetainOpens(h, c, s, hist, retained, p, t);
    }
  }

  /** A prudent operation keeps files that open, wherever it stops. */
  lemma StepOpens(h: Hash, c: Canon, s: System, hist: History, op: Op)
    requires Inv(h, c, s, hist) && Prudent(c, s, op) && Faithful(c) && Openable(h, c, s.disk, hist)
    ensures Openable(h, c, Next(h, c, s, op).0.disk, NextHistory(h, c, s, hist, op))
  {
    hide OpenStep, CommitStep, SnapshotStep, CompactStep, DiskInv, MemoryInv, Openable, Faithful, Record, Survives, Attempts, Dump,
         ChainHolds, Fits, KeysNulFree;
    match op
    case Open(p) =>
      if s.memory.None? { OpenRecovers(h, c, s.disk, hist, p); }
    case Commit(a, p) =>
      if s.memory.Some? { CommitOpens(h, c, s, hist, a, p); }
    case Snapshot(file, p) =>
      if s.memory.Some? { SnapshotOpens(h, c, s, hist, file, p); }
    case Compact(retained, file, first, p, t) =>
      if s.memory.Some? { CompactOpens(h, c, s, hist, retained, file, first, p, t); }
    case Stage(mutation) =>
    case Discard =>
    case Close =>
  }

  lemma {:induction false} RunOpens(h: Hash, c: Canon, s: System, hist: History, ops: seq<Op>)
    requires Inv(h, c, s, hist) && AllTyped(c, ops) && AllPrudent(h, c, s, ops) && Faithful(c) && Openable(h, c, s.disk, hist)
    ensures Openable(h, c, Run(h, c, s, ops).disk, RunHistory(h, c, s, hist, ops))
    decreases |ops|
  {
    hide Inv, Typed, Prudent, Next, NextHistory, Faithful, Openable;
    if ops != [] {
      StepKeeps(h, c, s, hist, ops[0]);
      StepOpens(h, c, s, hist, ops[0]);
      assert forall i :: 0 <= i < |ops[1..]| ==> ops[1..][i] == ops[i + 1];
      RunOpens(h, c, Next(h, c, s, ops[0]).0, NextHistory(h, c, s, hist, ops[0]), ops[1..]);
    }
  }

  // ----- crash recovery

  /** The handle holds exactly the log, and its next record goes after the last complete one of the journal. */
  ghost predicate Recovers(h: Hash, c: Canon, s: System, files: Disk, hist: History) {
    && s.memory.Some? && s.memory.value.currentRev == |hist.log|
    && Agree(c, s.memory.value.index, Fold(hist.log, |hist.log|))
    && hist.base <= |hist.log|
    && files.journal == JournalOf(h, hist.log, hist.base) + hist.torn
    && s.memory.value.journalOffset == |JournalOf(h, hist.log, hist.base)|
    && (files.manifest.Some? ==> files.manifest.value.current <= |hist.log|)
  }

  lemma OpenedRecovers(h: Hash, c: Canon, d: Disk, hist: History)
    requires DiskInv(h, c, d, hist) && OpenStep(h, c, d, Replaced).1.Ok?
    ensures OpenStep(h, c, d, Replaced).1 == Ok(|hist.log|) && Recovers(h, c, OpenStep(h, c, d, Replaced).0, d, hist)
  {
    hide OpenStep, Agree, Fold, JournalOf, Sound, LogWritten, ReadRecord, RevisionsOf, Openable, SnapshotTrue, AllStaged, AllWritten;
    OpenRecovers(h, c, d, hist, Replaced);
  }

  /**
   After any run at all, with every file operation ending in any way, the files open to exactly the batches whose
   records are complete (none of them partial, none acknowledged by the manifest missing) or they do not open.
   */
  lemma CrashSafety(h: Hash, c: Canon, ops: seq<Op>)
    requires AllTyped(c, ops) && Faithful(c)
    ensures var files := Run(h, c, EMPTY, ops).disk;
            var hist := RunHistory(h, c, EMPTY, NOTHING, ops);
            var (s, r) := OpenStep(h, c, files, Replaced);
            && (r.Ok? <==> Openable(h, c, files, hist))
            && (r.Ok? ==> r == Ok(|hist.log|) && Recovers(h, c, s, files, hist))
            && (r.Err? ==> s == System(files, None))
  {
    hide Next, NextHistory, OpenStep, DiskInv, MemoryInv, Openable, Faithful, Recovers, Run, RunHistory;
    EmptyInv(h, c);
    RunKeeps(h, c, EMPTY, NOTHING, ops);
    var files, hist := Run(h, c, EMPTY, ops).disk, RunHistory(h, c, EMPTY, NOTHING, ops);
    OpenRecovers(h, c, files, hist, Replaced);
    if OpenStep(h, c, files, Replaced).1.Ok? {
      OpenedRecovers(h, c, files, hist);
    }
  }

  /** After any prudent run they open. */
  lemma CrashRecovery(h: Hash, c: Canon, ops: seq<Op>)
    requires AllTyped(c, ops) && AllPrudent(h, c, EMPTY, ops) && Faithful(c)
    ensures var files := Run(h, c, EMPTY, ops).disk;
            var hist := RunHistory(h, c, EMPTY, NOTHING, ops);
            var (s, r) := OpenStep(h, c, files, Replaced);
            r == Ok(|hist.log|) && Recovers(h, c, s, files, hist)
  {
    hide OpenStep, Openable, Faithful, Recovers, Run, RunHistory, Inv, AllPrudent, AllTyped;
    EmptyInv(h, c);
    RunOpens(h, c, EMPTY, NOTHING, ops);
    CrashSafety(h, c, ops);
  }

  /** A commit that returned its revision is in the log, at that revision, after every later run. */
  lemma AcknowledgedSurvives(h: Hash, c: Canon, s: System, hist: History, a: Append, p: Publication, later: seq<Op>)
    requires Inv(h, c, s, hist) && Faithful(c) && s.memory.Some? && AllTyped(c, later)
    requires Next(h, c, s, Commit(a, p)).1.Ok?
    ensures var log := RunHistory(h, c, s, hist, [Commit(a, p)] + later).log;
            var r := Next(h, c, s, Commit(a, p)).1.value;
            0 < r <= |log| && log[..r - 1] == hist.log && log[r - 1] == s.memory.value.staged
  {
    hide Inv, CommitStep, NextHistory, Faithful, AllTyped;
    var ops := [Commit(a, p)] + later;
    assert ops[1..] == later;
    CommitPreserves(h, c, s, hist, a, p);
    var next := NextHistory(h, c, s, hist, ops[0]);
    RunKeeps(h, c, Next(h, c, s, ops[0]).0, next, later);
  }

  // ----- exactly when a step loses the store

  /** No key of the retained revisions holds a NUL. */
  predicate RevisionsNulFree(m: Memory) { forall i :: 0 <= i < |m.revisions| ==> KeysNulFree(m.revisions[i].mutations) }

  lemma RevisionsAreLog(h: Hash, c: Canon, d: Disk, m: Memory, hist: History)
    requires hist.base <= |hist.log| && MemoryInv(h, c, d, m, hist)
    ensures RevisionsNulFree(m) <==> NulFreeAfter(hist.log, hist.base)
  {
    hide Agree, JournalOf, Fold, AllStaged, AllWritten, KeysNulFree;
    forall i | 0 <= i < |m.revisions| ensures m.revisions[i].mutations == hist.log[hist.base + i] {
      RevisionOfLog(h, hist.base + i, hist.log[hist.base + i]);
    }
    if RevisionsNulFree(m) {
      forall i | hist.base <= i < |hist.log| ensures KeysNulFree(hist.log[i]) {
        assert KeysNulFree(m.revisions[i - hist.base].mutations);
      }
    }
  }

  lemma RevisionOfLog(h: Hash, previous: nat, ms: seq<Mutation>)
    ensures RevisionOf(h, previous, ms).mutations == ms
  {}

  /**
   `store_snapshot` succeeds if and only if every value decodes, no key holds a NUL and the map fits its heap. It then
   leaves a store that opens if and only if the journal starts at revision 1 or is empty, none of its keys holds a NUL,
   and the snapshot fits: its text is within the limit and its values fit one heap.
   */
  lemma SnapshotReopens(h: Hash, c: Canon, s: System, hist: History)
    requires Inv(h, c, s, hist) && s.memory.Some? && Faithful(c)
    ensures var m := s.memory.value;
            var (n, r) := SnapshotStep(h, c, s, Replaced, Replaced);
            && (r.Ok? <==> Dump(c, m.index).Ok?)
            && (r.Ok? ==> (OpenStep(h, c, n.disk, Replaced).1.Ok? <==>
                             ChainHolds(m) && RevisionsNulFree(m) && Fits(c, Dump(c, m.index).value)))
  {
    hide Sound, LogWritten, ReadRecord, Agree, Fold, Dump, Faithful, RevisionsOf, AllStaged, AllWritten, ChainHolds, JournalOf, OpenStep,
         SnapshotTrue, SnapshotText, SnapshotFile, LoadSnapshot, NulFreeAfter, RevisionsNulFree, Fits;
    var m := s.memory.value;
    if Dump(c, m.index).Ok? {
      var n := SnapshotStep(h, c, s, Replaced, Replaced).0;
      ChainBase(h, c, s.disk, m, hist);
      RevisionsAreLog(h, c, s.disk, m, hist);
      SnapshotFileTrue(h, c, m.index, hist.log);
      SnapshotPreserves(h, c, s, hist, Replaced, Replaced);
      OpenRecovers(h, c, n.disk, hist, Replaced);
    }
  }

  /** The same condition decides it for a full compaction that stops before it truncates the journal. */
  lemma InterruptedCompactionReopens(h: Hash, c: Canon, s: System, hist: History)
    requires Inv(h, c, s, hist) && s.memory.Some? && Faithful(c) && Dump(c, s.memory.value.index).Ok?
    ensures var m := s.memory.value;
            var n := CompactStep(h, c, s, 0, Replaced, Replaced, Replaced, Failed(false)).0;
            OpenStep(h, c, n.disk, Replaced).1.Ok? <==>
            ChainHolds(m) && RevisionsNulFree(m) && Fits(c, Dump(c, m.index).value)
  {
    hide Sound, LogWritten, ReadRecord, Agree, Fold, Dump, Faithful, RevisionsOf, AllStaged, AllWritten, ChainHolds, JournalOf, OpenStep,
         SnapshotTrue, SnapshotText, SnapshotFile, LoadSnapshot, NulFreeAfter, RevisionsNulFree, Fits;
    var m := s.memory.value;
    var n := CompactStep(h, c, s, 0, Replaced, Replaced, Replaced, Failed(false)).0;
    ChainBase(h, c, s.disk, m, hist);
    RevisionsAreLog(h, c, s.disk, m, hist);
    SnapshotFileTrue(h, c, m.index, hist.log);
    CompactPreserves(h, c, s, hist, 0, Replaced, Replaced, Replaced, Failed(false));
    OpenRecovers(h, c, n.disk, hist, Replaced);
  }

  /** A full compaction that is not stopped leaves a store that opens if and only if the snapshot fits. */
  lemma CompactionReopens(h: Hash, c: Canon, s: System, hist: History)
    requires Inv(h, c, s, hist) && s.memory.Some? && Faithful(c) && Dump(c, s.memory.value.index).Ok?
    ensures var (n, r) := CompactStep(h, c, s, 0, Replaced, Replaced, Replaced, Truncated);
            r.Ok? && (OpenStep(h, c, n.disk, Replaced).1.Ok? <==> Fits(c, Dump(c, s.memory.value.index).value))
  {
    hide Sound, LogWritten, ReadRecord, Agree, Fold, Dump, Faithful, RevisionsOf, AllStaged, AllWritten, JournalOf, OpenStep,
         SnapshotTrue, SnapshotText, SnapshotFile, LoadSnapshot, Fits;
    var m := s.memory.value;
    var n := CompactStep(h, c, s, 0, Replaced, Replaced, Replaced, Truncated).0;
    var next := History(hist.log, |hist.log|, []);
    SnapshotFileTrue(h, c, m.index, hist.log);
    CompactPreserves(h, c, s, hist, 0, Replaced, Replaced, Replaced, Truncated);
    OpenRecovers(h, c, n.disk, next, Replaced);
  }

  /** A successful commit leaves a store that opens if and only if it did before and no staged key holds a NUL. */
  lemma CommitReopens(h: Hash, c: Canon, s: System, hist: History)
    requires Inv(h, c, s, hist) && s.memory.Some? && CommitStep(h, s, Synced, Replaced).1.Ok?
    ensures var n := CommitStep(h, s, Synced, Replaced).0;
            OpenStep(h, c, n.disk, Replaced).1.Ok? <==>
            OpenStep(h, c, s.disk, Replaced).1.Ok? && KeysNulFree(s.memory.value.staged)
  {
    hide Sound, LogWritten, ReadRecord, Agree, Fold, RevisionsOf, RevisionOf, AllStaged, AllWritten, KeysNulFree, OpenStep, JournalOf, Record,
         EncodeAll, LoadSnapshot, SnapshotTrue, NulFreeAfter, Apply, AppendRecord;
    var n := CommitStep(h, s, Synced, Replaced).0;
    var next := NextHistory(h, c, s, hist, Commit(Synced, Replaced));
    SyncedSurvives(Record(h, s.memory.value.currentRev, s.memory.value.staged));
    CommitPreserves(h, c, s, hist, Synced, Replaced);
    NulFreeGrows(hist.log, hist.base, s.memory.value.staged);
    OpenRecovers(h, c, s.disk, hist, Replaced);
    OpenRecovers(h, c, n.disk, next, Replaced);
  }

  /** After a crash and a reopen the store goes on: a further commit succeeds and survives a reopen. */
  lemma FurtherCommit(h: Hash, c: Canon, s: System, hist: History)
    requires Inv(h, c, s, hist) && s.memory.Some? && Openable(h, c, s.disk, hist)
    requires Attempts(h, s) && KeysNulFree(s.memory.value.staged)
    ensures var (n, r) := CommitStep(h, s, Synced, Replaced);
            && r == Ok(|hist.log| + 1)
            && OpenStep(h, c, n.disk, Replaced).1 == r
  {
    hide Inv, KeysNulFree, OpenStep, Openable;
    CommitPreserves(h, c, s, hist, Synced, Replaced);
    CommitOpens(h, c, s, hist, Synced, Replaced);
    var (n, r) := CommitStep(h, s, Synced, Replaced);
    var next := NextHistory(h, c, s, hist, Commit(Synced, Replaced));
    DiskOf(h, c, n, next);
    OpenRecovers(h, c, n.disk, next, Replaced);
    CommitResult(h, c, s, hist);
  }

  lemma DiskOf(h: Hash, c: Canon, s: System, hist: History)
    requires Inv(h, c, s, hist)
    ensures DiskInv(h, c, s.disk, hist)
  {
    hide DiskInv, MemoryInv;
  }

  lemma CommitResult(h: Hash, c: Canon, s: System, hist: History)
    requires Inv(h, c, s, hist) && s.memory.Some? && Attempts(h, s)
    ensures CommitStep(h, s, Synced, Replaced).1 == Ok(|hist.log| + 1)
  {
    hide DiskInv, Agree, Fold, JournalOf, RevisionsOf, Record, EncodeAll, AllStaged, AllWritten;
  }
}
