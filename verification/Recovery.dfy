/**
 The store as a state machine over its files. Every file operation has an outcome, so a
 commit, snapshot or compaction can stop anywhere; a crash is such a stop followed by `Close`.
 */
module Recovery {
  import opened Bytes
  import opened Seqs
  import opened Payload
  import opened Journal
  import opened ReplayTheorems
  import opened Snapshots

  datatype Manifest = Manifest(current: nat, snapshot: nat, retention: nat)

  /** The directory of a store, with the snapshot files by their revisions. */
  datatype Disk = Disk(journal: bytes, manifest: Option<Manifest>, snapshots: map<nat, bytes>)

  datatype Memory = Memory(
    index: Index, staged: seq<Mutation>, revisions: seq<Revision>, currentRev: nat,
    snapshotRev: nat, retention: nat, journalOffset: nat)

  /** `memory` is `None` when no handle is open: closed, crashed, or never opened. */
  datatype System = System(disk: Disk, memory: Option<Memory>)

  /**
   How `atomic_file::write` can end: replaced; refused with the old file intact; or replaced
   with the directory not synced, when a crash may show either file.
   */
  datatype Publication = Replaced | Refused | Uncertain(visible: bool)

  /**
   How writing a record can end: synced; with the old tail not even truncated; after `at` of its
   bytes, the tail then removed or not; or written whole but not synced, so that `kept` bytes survive.
   */
  datatype Append =
    | Synced
    | NotTruncated
    | Cut(at: nat, rolledBack: bool)
    | Unsynced(kept: nat)

  datatype Truncation = Truncated | Failed(done: bool)

  datatype Op =
    | Open(manifest: Publication)
    | Stage(mutation: Mutation)
    | Discard
    | Commit(record: Append, manifest: Publication)
    | Snapshot(file: Publication, manifest: Publication)
    | Compact(retained: nat, file: Publication, first: Publication, manifest: Publication, journal: Truncation)
    | Close

  const EMPTY := System(Disk([], None, map[]), None)

  // ----- the operations

  function ManifestOf(m: Memory): Manifest { Manifest(m.currentRev, m.snapshotRev, m.retention) }

  function Publish(disk: Disk, manifest: Manifest, p: Publication): Disk {
    if p.Replaced? || (p.Uncertain? && p.visible) then disk.(manifest := Some(manifest)) else disk
  }

  /** `open_with_outcome`: read the manifest, load its snapshot, replay, publish the manifest. */
  function OpenStep(h: Hash, c: Canon, disk: Disk, p: Publication): (System, Result<nat>) {
    var m := if disk.manifest.Some? then disk.manifest.value else Manifest(0, 0, 0);
    var closed := System(disk, None);
    if m.snapshot > m.current || m.retention > m.current
       || (m.snapshot != 0 && m.snapshot !in disk.snapshots) then (closed, Err(Corruption)) else
    var loaded: Result<Index> := if m.snapshot == 0 then Ok(map[]) else LoadSnapshot(h, c, m.snapshot, disk.snapshots[m.snapshot]);
    if loaded.Err? then (closed, Err(loaded.error)) else
    var replayed := Replay(h, m.snapshot, disk.journal, Recovered(0, false, loaded.value, [], m.snapshot, 0));
    if replayed.Err? then (closed, Err(Corruption)) else
    var r := replayed.value;
    if r.currentRev < m.current then (closed, Err(Corruption)) else
    var memory := Memory(r.index, [], r.revisions, r.currentRev, m.snapshot, m.retention, r.journalOffset);
    var published := Publish(disk, ManifestOf(memory), p);
    if p.Replaced? then (System(published, Some(memory)), Ok(r.currentRev))
    else (System(published, None), Err(Io))
  }

  function Take(s: bytes, n: nat): bytes { if n < |s| then s[..n] else s }

  /** What of `record` is in the journal when appending it ends as `a`. */
  function Survives(record: bytes, a: Append): bytes {
    match a
    case Synced => record
    case NotTruncated => []
    case Cut(at, rolledBack) => if rolledBack then [] else Take(record, at)
    case Unsynced(kept) => Take(record, kept)
  }

  function AppendRecord(journal: bytes, boundary: nat, record: bytes, a: Append): bytes {
    if a.NotTruncated? then journal else Take(journal, boundary) + Survives(record, a)
  }

  function CommitStep(h: Hash, s: System, a: Append, p: Publication): (next: (System, Result<nat>))
    requires s.memory.Some?
    ensures next.1.Ok? ==> next.0.memory.Some?
  {
    var m := s.memory.value;
    if m.staged == [] then (s, Err(UnsupportedOperation)) else
    if |EncodeAll(h, m.staged)| > STORE_LIMIT then (s, Err(Limit)) else
    var record := Record(h, m.currentRev, m.staged);
    if m.currentRev + 1 >= U64 || m.journalOffset + |record| >= U64 then (s, Err(Limit)) else
    var disk := s.disk.(journal := AppendRecord(s.disk.journal, m.journalOffset, record, a));
    if a.Cut? && a.rolledBack then (System(disk, s.memory), Err(Io)) else
    if !a.Synced? then (System(disk, None), Err(Io)) else
    var memory := m.(
      index := Apply(m.index, m.staged),
      staged := [],
      revisions := m.revisions + [RevisionOf(h, m.currentRev, m.staged)],
      currentRev := m.currentRev + 1,
      journalOffset := m.journalOffset + |record|);
    var published := Publish(disk, ManifestOf(memory), p);
    if p.Replaced? then (System(published, Some(memory)), Ok(memory.currentRev))
    else (System(published, None), Err(Io))
  }

  /** `store_snapshot`: decode every value, encode the map of them, publish the file and then the manifest. */
  function SnapshotStep(h: Hash, c: Canon, s: System, file: Publication, p: Publication): (System, Result<nat>)
    requires s.memory.Some?
  {
    var m := s.memory.value;
    var dumped := Dump(c, m.index);
    if dumped.Err? then (s, Err(dumped.error)) else
    var content := SnapshotFile(h, m.currentRev, SnapshotText(dumped.value));
    var disk := if file.Replaced? || (file.Uncertain? && file.visible)
                then s.disk.(snapshots := s.disk.snapshots[m.currentRev := content])
                else s.disk;
    if file.Refused? then (s, Err(Io)) else
    if file.Uncertain? then (System(disk, None), Err(Io)) else
    var memory := m.(snapshotRev := m.currentRev);
    var published := Publish(disk, ManifestOf(memory), p);
    if p.Replaced? then (System(published, Some(memory)), Ok(m.currentRev))
    else (System(published, None), Err(Io))
  }

  /** The second half of `store_compact`: publish the boundary, then drop the journal. */
  function RetainStep(s: System, retained: nat, p: Publication, t: Truncation): (System, Result<nat>)
    requires s.memory.Some?
  {
    var m := s.memory.value;
    var boundary := if m.currentRev < retained then 0 else m.currentRev - retained;
    var memory := m.(retention := Max(m.retention, boundary));
    var disk := Publish(s.disk, ManifestOf(memory), p);
    if p.Refused? then (System(disk, s.memory), Err(Io)) else
    if p.Uncertain? then (System(disk, None), Err(Io)) else
    if retained != 0 then (System(disk, Some(memory)), Ok(m.currentRev)) else
    match t
    case Truncated =>
      (System(disk.(journal := []), Some(memory.(journalOffset := 0, revisions := []))), Ok(m.currentRev))
    case Failed(done) =>
      (System(if done then disk.(journal := []) else disk, None), Err(Io))
  }

  function CompactStep(
    h: Hash, c: Canon, s: System, retained: nat, file: Publication, first: Publication,
    p: Publication, t: Truncation): (System, Result<nat>)
    requires s.memory.Some?
  {
    if retained != 0 then RetainStep(s, retained, p, t) else
    var (snapped, r) := SnapshotStep(h, c, s, file, first);
    if r.Err? || snapped.memory.None? then (snapped, r) else RetainStep(snapped, retained, p, t)
  }

  /** One operation. All but `Open` and `Close` are refused when no handle is open. */
  function Next(h: Hash, c: Canon, s: System, op: Op): (System, Result<nat>) {
    if op.Close? then (System(s.disk, None), Ok(0)) else
    if op.Open? then
      if s.memory.Some? then (s, Err(Conflict)) else OpenStep(h, c, s.disk, op.manifest)
    else if s.memory.None? then (s, Err(InvalidState)) else
    var m := s.memory.value;
    match op
    case Stage(mutation) =>
      if mutation.key == [] then (s, Err(Key))
      else (System(s.disk, Some(m.(staged := m.staged + [mutation]))), Ok(m.currentRev))
    case Discard => (System(s.disk, Some(m.(staged := []))), Ok(m.currentRev))
    case Commit(a, p) => CommitStep(h, s, a, p)
    case Snapshot(file, p) => SnapshotStep(h, c, s, file, p)
    case Compact(retained, file, first, p, t) => CompactStep(h, c, s, retained, file, first, p, t)
  }

  // ----- the history a run leaves behind

  /**
   The batches committed so far, the revision the journal starts after, and the torn bytes
   that follow its last complete record.
   */
  datatype History = History(log: Log, base: nat, torn: bytes)

  const NOTHING := History([], 0, [])

  predicate Attempts(h: Hash, s: System)
    requires s.memory.Some?
  {
    var m := s.memory.value;
    && m.staged != [] && |EncodeAll(h, m.staged)| <= STORE_LIMIT && m.currentRev + 1 < U64
    && m.journalOffset + |Record(h, m.currentRev, m.staged)| < U64
  }

  /** A batch joins the log when all the bytes of its record reach the journal. */
  function NextHistory(h: Hash, c: Canon, s: System, hist: History, op: Op): History {
    if s.memory.None? then hist else
    var m := s.memory.value;
    if op.Commit? && Attempts(h, s) && !op.record.NotTruncated? then
      var record := Record(h, m.currentRev, m.staged);
      var kept := Survives(record, op.record);
      if kept == record then History(hist.log + [m.staged], hist.base, [])
      else History(hist.log, hist.base, kept)
    else if op.Compact? && op.retained == 0 && Dump(c, m.index).Ok? && op.file.Replaced? && op.first.Replaced?
            && op.manifest.Replaced? && op.journal != Failed(false) then
      History(hist.log, |hist.log|, [])
    else hist
  }

  // ----- what every run keeps

  /** What was put is what `encode_value` can give. */
  predicate AllWritten(c: Canon, ms: seq<Mutation>) { forall i :: 0 <= i < |ms| && !ms[i].deleted ==> c.written(ms[i].data) }

  predicate LogWritten(c: Canon, log: Log) { forall i :: 0 <= i < |log| ==> AllWritten(c, log[i]) }

  /**
   The journal is that of the log after `base`, with torn bytes at its end; nothing is said of whether the
   files open.
   */
  ghost predicate DiskInv(h: Hash, c: Canon, d: Disk, hist: History) {
    && Sound(h, hist.log) && LogWritten(c, hist.log) && hist.base <= |hist.log|
    && d.journal == JournalOf(h, hist.log, hist.base) + hist.torn
    && ReadRecord(hist.torn) == Torn
    && match d.manifest {
         case None => hist.base == 0
         case Some(m) => ManifestInv(h, c, d, m, hist)
       }
  }

  ghost predicate ManifestInv(h: Hash, c: Canon, d: Disk, m: Manifest, hist: History) {
    && m.snapshot <= m.current && m.retention <= m.current <= |hist.log|
    && hist.base <= m.snapshot && hist.base <= m.retention
    && (m.snapshot != 0 ==> m.snapshot in d.snapshots && SnapshotTrue(h, c, d.snapshots[m.snapshot], m.snapshot, hist.log))
  }

  /** The file of a snapshot does not load, or loads the contents at its revision. */
  ghost predicate SnapshotTrue(h: Hash, c: Canon, file: bytes, revision: nat, log: Log)
    requires revision <= |log|
  {
    var loaded := LoadSnapshot(h, c, revision, file);
    loaded.Ok? ==> Agree(c, loaded.value, Fold(log, revision))
  }

  ghost predicate MemoryInv(h: Hash, c: Canon, d: Disk, m: Memory, hist: History)
    requires hist.base <= |hist.log|
  {
    && d.manifest == Some(ManifestOf(m))
    && m.currentRev == |hist.log|
    && Agree(c, m.index, Fold(hist.log, |hist.log|))
    && m.revisions == RevisionsOf(h, hist.log, hist.base)
    && m.journalOffset == |JournalOf(h, hist.log, hist.base)|
    && AllStaged(m.staged) && AllWritten(c, m.staged)
  }

  ghost predicate Inv(h: Hash, c: Canon, s: System, hist: History) {
    && DiskInv(h, c, s.disk, hist)
    && (s.memory.Some? ==> MemoryInv(h, c, s.disk, s.memory.value, hist))
  }

  /** What a caller stages is a string key, and for a put what `encode_value` gave. */
  predicate Typed(c: Canon, op: Op) {
    op.Stage? && op.mutation.key != [] ==> Staged(op.mutation) && (op.mutation.deleted || c.written(op.mutation.data))
  }

  // ----- when files open

  /** The manifest's snapshot loads, and the journal goes on from it or from nothing. */
  ghost predicate ManifestOpens(h: Hash, c: Canon, d: Disk, m: Manifest, hist: History) {
    && (hist.base == 0 || hist.base == m.snapshot)
    && (m.snapshot != 0 ==> m.snapshot in d.snapshots && LoadSnapshot(h, c, m.snapshot, d.snapshots[m.snapshot]).Ok?)
  }

  ghost predicate Openable(h: Hash, c: Canon, d: Disk, hist: History) {
    NulFreeAfter(hist.log, hist.base) && (d.manifest.Some? ==> ManifestOpens(h, c, d, d.manifest.value, hist))
  }

  /** The journal of an open handle starts at revision 1, or is empty. */
  predicate ChainHolds(m: Memory) { m.revisions == [] || m.revisions[0].id == 1 }

  /** What a caller must check for the store to stay readable; the code checks none of it. */
  predicate Prudent(c: Canon, s: System, op: Op) {
    s.memory.Some? ==>
      && (op.Commit? ==> KeysNulFree(s.memory.value.staged))
      && ((op.Snapshot? || (op.Compact? && op.retained == 0)) && Dump(c, s.memory.value.index).Ok? ==>
            ChainHolds(s.memory.value) && Fits(c, Dump(c, s.memory.value.index).value))
  }

  /**
   Files that satisfy the invariant open if and only if they are openable. Then exactly the log is recovered;
   otherwise nothing changes.
   */
  lemma OpenRecovers(h: Hash, c: Canon, d: Disk, hist: History, p: Publication)
    requires DiskInv(h, c, d, hist)
    ensures var (s, r) := OpenStep(h, c, d, p);
            && Inv(h, c, s, hist)
            && (Openable(h, c, d, hist) ==>
                  (s.memory.Some? <==> p.Replaced?) && r == (if p.Replaced? then Ok(|hist.log|) else Err(Io))
                  && Openable(h, c, s.disk, hist))
            && (!Openable(h, c, d, hist) ==> s == System(d, None) && r.Err?)
  {
    hide Replay, JournalOf, Fold, RevisionsOf, Sound, LogWritten, ReadRecord, Reached, LoadSnapshot, Agree, NulFreeAfter;
    var m := if d.manifest.Some? then d.manifest.value else Manifest(0, 0, 0);
    var loaded: Result<Index> := if m.snapshot == 0 then Ok(map[]) else LoadSnapshot(h, c, m.snapshot, d.snapshots[m.snapshot]);
    if loaded.Ok? {
      var st := Recovered(0, false, loaded.value, [], m.snapshot, 0);
      if hist.base == 0 || hist.base == m.snapshot {
        StartReached(c, m.snapshot, hist, st);
        if NulFreeAfter(hist.log, hist.base) {
          var r := ReplayLog(h, c, m.snapshot, hist.log, hist.base, hist.torn, st);
          EndReached(c, m.snapshot, hist, r);
          Opened(h, c, d, hist, p, m, loaded, r);
        } else {
          ReplayNul(h, c, m.snapshot, hist.log, hist.base, hist.torn, st);
        }
      } else {
        ReplayGap(h, m.snapshot, hist.log, hist.base, hist.torn, st);
      }
    }
  }

  /** What opening leaves once replay has accepted the journal. */
  lemma Opened(
    h: Hash, c: Canon, d: Disk, hist: History, p: Publication, m: Manifest, loaded: Result<Index>, r: Recovered)
    requires DiskInv(h, c, d, hist) && m == (if d.manifest.Some? then d.manifest.value else Manifest(0, 0, 0))
    requires loaded.Ok? && (hist.base == 0 || hist.base == m.snapshot) && NulFreeAfter(hist.log, hist.base)
    requires loaded == if m.snapshot == 0 then Ok(map[]) else LoadSnapshot(h, c, m.snapshot, d.snapshots[m.snapshot])
    requires Replay(h, m.snapshot, d.journal, Recovered(0, false, loaded.value, [], m.snapshot, 0)) == Ok(r)
    requires r.currentRev == |hist.log| && Agree(c, r.index, Fold(hist.log, |hist.log|))
    requires r.revisions == [] + RevisionsOf(h, hist.log, hist.base) && r.journalOffset == |JournalOf(h, hist.log, hist.base)|
    ensures var (s, result) := OpenStep(h, c, d, p);
            && Inv(h, c, s, hist) && (s.memory.Some? <==> p.Replaced?)
            && result == (if p.Replaced? then Ok(|hist.log|) else Err(Io))
            && Openable(h, c, d, hist) && Openable(h, c, s.disk, hist)
  {
    hide Replay, JournalOf, Fold, RevisionsOf, Sound, LogWritten, ReadRecord, LoadSnapshot, Agree, NulFreeAfter;
    assert [] + RevisionsOf(h, hist.log, hist.base) == RevisionsOf(h, hist.log, hist.base);
    NothingStaged();
    NothingWritten(c);
  }

  lemma NothingWritten(c: Canon)
    ensures AllWritten(c, [])
  {}

  lemma StartReached(c: Canon, snapshot: nat, hist: History, st: Recovered)
    requires hist.base <= |hist.log| && snapshot <= |hist.log| && (hist.base == 0 || hist.base == snapshot)
    requires st.journalRevision == 0 && !st.sawRecord && st.currentRev == snapshot
    requires if snapshot == 0 then st.index == map[] else Agree(c, st.index, Fold(hist.log, snapshot))
    ensures Reached(c, snapshot, hist.log, hist.base, st)
  {}

  lemma EndReached(c: Canon, snapshot: nat, hist: History, st: Recovered)
    requires snapshot <= |hist.log| && Reached(c, snapshot, hist.log, |hist.log|, st)
    ensures st.currentRev == |hist.log| && Agree(c, st.index, Fold(hist.log, |hist.log|))
  {}
}
