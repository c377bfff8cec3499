/** Multi-version reads: what `store_get_at` answers, against the history of the commits. */
module HistoryReads {
  import opened Bytes
  import opened Payload
  import opened Journal
  import opened ReplayTheorems
  import opened Recovery
  import opened RecoveryRuns
  import opened Snapshots

  /** The last mutation of `key` in `ms`, or `latest` if there is none. */
  function LatestIn(ms: seq<Mutation>, key: bytes, latest: Option<Mutation>): Option<Mutation>
    decreases |ms|
  {
    if ms == [] then latest
    else LatestIn(ms[1..], key, if ms[0].key == key then Some(ms[0]) else latest)
  }

  /** The last mutation of `key` in the retained revisions up to `revision`. */
  function Latest(revisions: seq<Revision>, revision: nat, key: bytes, latest: Option<Mutation>): Option<Mutation>
    decreases |revisions|
  {
    if revisions == [] || revisions[0].id > revision then latest
    else Latest(revisions[1..], revision, key, LatestIn(revisions[0].mutations, key, latest))
  }

  function Lookup(index: Index, key: bytes): Result<bytes> {
    if key in index then Ok(index[key]) else Err(NotFound)
  }

  function Found(latest: Option<Mutation>): Result<bytes> {
    if latest.Some? && !latest.value.deleted then Ok(latest.value.data) else Err(NotFound)
  }

  /** `store_get_at`, before the value is decoded. */
  function GetAt(m: Memory, revision: nat, key: bytes): Result<bytes> {
    if revision > m.currentRev then Err(NotFound) else
    if revision < m.retention then Err(CompactedHistory) else
    if revision == m.currentRev then Lookup(m.index, key) else
    Found(Latest(m.revisions, revision, key, None))
  }

  /** Some mutation of revisions `from + 1` to `to` is of `key`. */
  ghost predicate Touched(log: Log, from: nat, to: nat, key: bytes)
    requires to <= |log|
  {
    exists i, j :: from <= i < to && 0 <= j < |log[i]| && log[i][j].key == key
  }

  /** The answers a caller can tell apart: present with a decoded value, or which error. */
  predicate SameAnswer(c: Canon, a: Result<bytes>, b: Result<bytes>) {
    if a.Ok? then b.Ok? && c.form(a.value) == c.form(b.value) else a == b
  }

  // ----- one revision

  predicate Mentions(ms: seq<Mutation>, key: bytes) { exists j :: 0 <= j < |ms| && ms[j].key == key }

  /** Inside a revision the last mutation of a key wins, and other keys keep their value. */
  lemma {:induction false} ApplyLatest(index: Index, ms: seq<Mutation>, key: bytes, latest: Option<Mutation>)
    requires Lookup(index, key) == Found(latest)
    ensures Lookup(Apply(index, ms), key) == Found(LatestIn(ms, key, latest))
    decreases |ms|
  {
    if ms != [] {
      ApplyLatest(ApplyOne(index, ms[0]), ms[1..], key, if ms[0].key == key then Some(ms[0]) else latest);
    }
  }

  lemma {:induction false} ApplyMentioned(index: Index, ms: seq<Mutation>, key: bytes, latest: Option<Mutation>)
    ensures !Mentions(ms, key) ==> LatestIn(ms, key, latest) == latest && Lookup(Apply(index, ms), key) == Lookup(index, key)
    ensures Mentions(ms, key) ==> Lookup(Apply(index, ms), key) == Found(LatestIn(ms, key, latest))
    decreases |ms|
  {
    if ms != [] {
      var next := ApplyOne(index, ms[0]);
      var last := if ms[0].key == key then Some(ms[0]) else latest;
      ApplyMentioned(next, ms[1..], key, last);
      assert ms[0].key == key ==> Mentions(ms, key);
      assert Mentions(ms[1..], key) ==> Mentions(ms, key) by {
        if Mentions(ms[1..], key) {
          var j :| 0 <= j < |ms[1..]| && ms[1..][j].key == key;
          assert ms[j + 1].key == key;
        }
      }
      assert Mentions(ms, key) && ms[0].key != key ==> Mentions(ms[1..], key) by {
        if Mentions(ms, key) && ms[0].key != key {
          var j :| 0 <= j < |ms| && ms[j].key == key;
          assert ms[1..][j - 1].key == key;
        }
      }
      if ms[0].key == key && !Mentions(ms[1..], key) {
        assert Lookup(next, key) == Found(last);
      }
    }
  }

  // ----- the retained revisions

  /** `Latest` over the revisions of a log, by revision number instead of by scan. */
  function LatestOf(log: Log, from: nat, to: nat, key: bytes, latest: Option<Mutation>): Option<Mutation>
    requires from <= to <= |log|
    decreases |log| - from
  {
    if from == to then latest else LatestOf(log, from + 1, to, key, LatestIn(log[from], key, latest))
  }

  lemma {:induction false} LatestScan(h: Hash, log: Log, base: nat, revision: nat, key: bytes, latest: Option<Mutation>)
    requires base <= revision <= |log|
    ensures Latest(RevisionsOf(h, log, base), revision, key, latest) == LatestOf(log, base, revision, key, latest)
    decreases |log| - base
  {
    hide RevisionOf;
    var rs := RevisionsOf(h, log, base);
    if base < |log| {
      assert rs[0] == RevisionOf(h, base, log[base]);
      assert rs[1..] == RevisionsOf(h, log, base + 1);
      RevisionFields(h, base, log[base]);
      if base < revision {
        LatestScan(h, log, base + 1, revision, key, LatestIn(log[base], key, latest));
      }
    }
  }

  lemma RevisionFields(h: Hash, previous: nat, ms: seq<Mutation>)
    ensures RevisionOf(h, previous, ms).id == previous + 1 && RevisionOf(h, previous, ms).mutations == ms
  {}

  /** Where the fold and the scan agree at `from`, or the key is mutated after it, they agree at `to`. */
  lemma {:induction false} FoldLatest(log: Log, from: nat, to: nat, key: bytes, latest: Option<Mutation>)
    requires from <= to <= |log|
    ensures Touched(log, from, to, key) || Lookup(Fold(log, from), key) == Found(latest)
         ==> Lookup(Fold(log, to), key) == Found(LatestOf(log, from, to, key, latest))
    ensures !Touched(log, from, to, key)
         ==> Lookup(Fold(log, to), key) == Lookup(Fold(log, from), key)
             && LatestOf(log, from, to, key, latest) == latest
    decreases |log| - from
  {
    hide Apply, LatestIn, Found, Lookup;
    if from < to {
      var ms := log[from];
      var next := LatestIn(ms, key, latest);
      FoldLatest(log, from + 1, to, key, next);
      ApplyMentioned(Fold(log, from), ms, key, latest);
      if Lookup(Fold(log, from), key) == Found(latest) {
        ApplyLatest(Fold(log, from), ms, key, latest);
      }
      TouchedStep(log, from, to, key);
    }
  }

  lemma TouchedStep(log: Log, from: nat, to: nat, key: bytes)
    requires from < to <= |log|
    ensures Touched(log, from, to, key) <==> Mentions(log[from], key) || Touched(log, from + 1, to, key)
  {
    if Mentions(log[from], key) {
      var j :| 0 <= j < |log[from]| && log[from][j].key == key;
      assert from <= from < to && log[from][j].key == key;
    }
  }

  // ----- the results

  /**
   For every revision still answered, `store_get_at` gives the value of the key in the fold
   of all mutations up to that revision if and only if the revision is the current one, the key
   was mutated between the last full compaction and the revision, or it had no value then.
   Otherwise the compacted value is missed: the answer is `NotFound`.
   */
  lemma GetAtExact(h: Hash, c: Canon, s: System, hist: History, revision: nat, key: bytes)
    requires Inv(h, c, s, hist) && s.memory.Some? && Faithful(c)
    requires s.memory.value.retention <= revision <= s.memory.value.currentRev
    ensures revision <= |hist.log| && hist.base <= revision
    ensures var answer := GetAt(s.memory.value, revision, key);
            var value := Lookup(Fold(hist.log, revision), key);
            && (SameAnswer(c, answer, value)
                <==> revision == |hist.log| || Touched(hist.log, hist.base, revision, key)
                     || key !in Fold(hist.log, hist.base))
            && (!SameAnswer(c, answer, value) ==> answer == Err(NotFound))
  {
    hide Latest, LatestOf, Touched, Fold, JournalOf, RevisionsOf, Sound, LogWritten, AllStaged, AllWritten, ReadRecord, Faithful,
         IndexWritten, SnapshotTrue;
    var m := s.memory.value;
    FoldWritten(h, c, hist.log, |hist.log|);
    if key in m.index {
      ReadsForm(c, m.index[key], Fold(hist.log, |hist.log|), key);
    }
    LatestScan(h, hist.log, hist.base, revision, key, None);
    FoldLatest(hist.log, hist.base, revision, key, None);
  }

  /** Data that stands for what was stored decodes alike. */
  lemma ReadsForm(c: Canon, data: bytes, contents: Index, key: bytes)
    requires Faithful(c) && IndexWritten(c, contents) && key in contents && Reads(c, data, contents[key])
    ensures c.form(data) == c.form(contents[key])
  {
    hide SnapshotText;
  }

  /** In a log that starts at revision 1, every revision still answered is answered exactly. */
  lemma GetAtWhole(h: Hash, c: Canon, s: System, hist: History, revision: nat, key: bytes)
    requires Inv(h, c, s, hist) && s.memory.Some? && hist.base == 0 && Faithful(c)
    requires s.memory.value.retention <= revision <= s.memory.value.currentRev
    ensures revision <= |hist.log|
    ensures SameAnswer(c, GetAt(s.memory.value, revision, key), Lookup(Fold(hist.log, revision), key))
  {
    hide Inv, GetAt, Touched, SameAnswer, Faithful;
    GetAtExact(h, c, s, hist, revision, key);
    assert Fold(hist.log, 0) == map[];
  }

  /** While the log still starts at revision 1, no later operation changes an answer already given. */
  lemma AnswersStand(h: Hash, c: Canon, s: System, hist: History, later: seq<Op>, revision: nat, key: bytes)
    requires Inv(h, c, s, hist) && s.memory.Some? && AllTyped(c, later) && Faithful(c)
    requires s.memory.value.retention <= revision <= s.memory.value.currentRev
    requires hist.base == 0 && RunHistory(h, c, s, hist, later).base == 0
    requires var end := Run(h, c, s, later); end.memory.Some? && end.memory.value.retention <= revision
    ensures SameAnswer(c, GetAt(Run(h, c, s, later).memory.value, revision, key), GetAt(s.memory.value, revision, key))
  {
    hide GetAt, Inv, Fold, Run, RunHistory, AllTyped, Faithful;
    var end := Run(h, c, s, later);
    var next := RunHistory(h, c, s, hist, later);
    RunKeeps(h, c, s, hist, later);
    Revisions(h, c, s, hist);
    Revisions(h, c, end, next);
    GetAtWhole(h, c, s, hist, revision, key);
    GetAtWhole(h, c, end, next, revision, key);
    var more := next.log[|hist.log|..];
    assert next.log == hist.log + more;
    FoldPrefix(hist.log, more, revision);
  }

  /**
   After a compaction that keeps `n` revisions and reports success, each revision further back than that answers
   `CompactedHistory`, whether it was answered before or not, and every other revision answers what it did.
   */
  lemma CompactAnswers(
    h: Hash, c: Canon, s: System, hist: History, n: nat, file: Publication, first: Publication, p: Publication, t: Truncation,
    revision: nat, key: bytes)
    requires Inv(h, c, s, hist) && s.memory.Some? && Next(h, c, s, Compact(n, file, first, p, t)).1.Ok?
    ensures var after := Next(h, c, s, Compact(n, file, first, p, t)).0;
            && after.memory.Some? && after.memory.value.currentRev == |hist.log|
            && GetAt(after.memory.value, revision, key)
               == if revision + n < |hist.log| then Err(CompactedHistory) else GetAt(s.memory.value, revision, key)
  {
    hide Latest, DiskInv, Agree, Fold, JournalOf, RevisionsOf, AllStaged, AllWritten, Dump, SnapshotText, SnapshotFile, Found, Lookup;
    RetentionBelow(h, c, s, hist);
  }

  lemma RetentionBelow(h: Hash, c: Canon, s: System, hist: History)
    requires Inv(h, c, s, hist) && s.memory.Some?
    ensures s.memory.value.retention <= s.memory.value.currentRev == |hist.log|
  {
    hide Sound, LogWritten, Agree, Fold, JournalOf, RevisionsOf, AllStaged, AllWritten, SnapshotTrue, ReadRecord;
  }

  /** So the revisions that a caller can tell to be answered are the last ones, and no compaction adds to them. */
  lemma CompactionOnlyDrops(
    h: Hash, c: Canon, s: System, hist: History, n: nat, file: Publication, first: Publication, p: Publication, t: Truncation,
    revision: nat, key: bytes)
    requires Inv(h, c, s, hist) && s.memory.Some? && Next(h, c, s, Compact(n, file, first, p, t)).1.Ok?
    requires revision <= |hist.log|
    ensures var after := Next(h, c, s, Compact(n, file, first, p, t)).0;
            && after.memory.Some?
            && (GetAt(after.memory.value, revision, key) != Err(CompactedHistory)
                <==> GetAt(s.memory.value, revision, key) != Err(CompactedHistory) && revision + n >= |hist.log|)
  {
    hide GetAt, Inv, Next;
    CompactAnswers(h, c, s, hist, n, file, first, p, t, revision, key);
  }

  /** Closing and opening again changes no answer. */
  lemma AnswersReopen(h: Hash, c: Canon, s: System, hist: History, revision: nat, key: bytes)
    requires Inv(h, c, s, hist) && s.memory.Some? && Faithful(c) && OpenStep(h, c, s.disk, Replaced).1.Ok?
    ensures var again := OpenStep(h, c, s.disk, Replaced).0;
            again.memory.Some? && SameAnswer(c, GetAt(again.memory.value, revision, key), GetAt(s.memory.value, revision, key))
  {
    hide Latest, RevisionsOf, Agree, Fold, Faithful, OpenStep, DiskInv, AllStaged, AllWritten, JournalOf, Openable, SameAnswer, Lookup;
    var (again, r) := OpenStep(h, c, s.disk, Replaced);
    OpenRecovers(h, c, s.disk, hist, Replaced);
    SameBoundary(h, c, s.disk);
    SameIndex(h, c, s, again, hist, key);
    SameItself(c, Found(Latest(s.memory.value.revisions, revision, key, None)));
  }

  /** A handle is opened with the boundary of the manifest. */
  lemma SameBoundary(h: Hash, c: Canon, disk: Disk)
    requires OpenStep(h, c, disk, Replaced).1.Ok?
    ensures var again := OpenStep(h, c, disk, Replaced).0;
            again.memory.Some? && (disk.manifest.Some? ==> again.memory.value.retention == disk.manifest.value.retention)
  {
    hide Replay, LoadSnapshot;
  }

  lemma SameItself(c: Canon, a: Result<bytes>)
    ensures SameAnswer(c, a, a) && SameAnswer(c, Err(NotFound), Err(NotFound)) && SameAnswer(c, Err(CompactedHistory), Err(CompactedHistory))
  {}

  lemma SameIndex(h: Hash, c: Canon, s: System, again: System, hist: History, key: bytes)
    requires Inv(h, c, s, hist) && s.memory.Some? && Inv(h, c, again, hist) && again.memory.Some? && Faithful(c)
    ensures SameAnswer(c, Lookup(again.memory.value.index, key), Lookup(s.memory.value.index, key))
  {
    hide Fold, Faithful, JournalOf, RevisionsOf, AllStaged, AllWritten, Sound, LogWritten, ReadRecord, ManifestInv, IndexWritten;
    FoldWritten(h, c, hist.log, |hist.log|);
    var contents := Fold(hist.log, |hist.log|);
    if key in contents {
      ReadsForm(c, s.memory.value.index[key], contents, key);
      ReadsForm(c, again.memory.value.index[key], contents, key);
    }
  }

  lemma Revisions(h: Hash, c: Canon, s: System, hist: History)
    requires Inv(h, c, s, hist) && s.memory.Some?
    ensures s.memory.value.currentRev == |hist.log|
  {
    hide DiskInv, Agree, Fold, JournalOf, RevisionsOf, AllStaged, AllWritten;
  }
}
