/**
 The store as the runtime holds it: a handle whose fields are updated in place, over the
 files of one directory. Each method is proved to take exactly the step of `Recovery`.
 */
module Store {
  import opened Bytes
  import opened Seqs
  import opened Payload
  import opened Journal
  import opened ReplayTheorems
  import opened Recovery
  import opened HistoryReads
  import opened Snapshots
  import JsonText
  import Scan
  import Utf8

  /** The directory of a store. */
  class Files {
    var journal: bytes
    var manifest: Option<Manifest>
    var snapshots: map<nat, bytes>

    constructor ()
      ensures Image() == EMPTY.disk
    {
      journal, manifest, snapshots := [], None, map[];
    }

    ghost function Image(): Disk
      reads this
    {
      Disk(journal, manifest, snapshots)
    }
  }

  class Handle {
    const h: Hash
    const c: Canon
    const files: Files
    var index: Index
    var staged: seq<Mutation>
    var revisions: seq<Revision>
    var currentRev: nat
    var snapshotRev: nat
    var retention: nat
    var journalOffset: nat
    var open: bool

    ghost function State(): Memory
      reads this
    {
      Memory(index, staged, revisions, currentRev, snapshotRev, retention, journalOffset)
    }

    ghost function System(): System
      reads this, files
    {
      Recovery.System(files.Image(), if open then Some(State()) else None)
    }

    constructor (h: Hash, c: Canon, files: Files)
      ensures this.h == h && this.c == c && this.files == files
      ensures open && State() == Memory(map[], [], [], 0, 0, 0, 0)
    {
      this.h, this.c, this.files := h, c, files;
      index, staged, revisions := map[], [], [];
      currentRev, snapshotRev, retention, journalOffset := 0, 0, 0, 0;
      open := true;
    }

    /** `open_with_outcome`. A handle whose open failed is closed. */
    static method Open(h: Hash, c: Canon, files: Files, p: Publication) returns (store: Handle, r: Result<nat>)
      modifies files
      ensures fresh(store) && store.files == files && store.h == h && store.c == c
      ensures (store.System(), r) == OpenStep(h, c, old(files.Image()), p)
    {
      hide Replay, Publish, LoadSnapshot;
      store := new Handle(h, c, files);
      var acknowledged := store.ReadManifest();
      if acknowledged.Err? {
        store.open := false;
        return store, Err(acknowledged.error);
      }
      if store.snapshotRev != 0 {
        if store.snapshotRev !in files.snapshots {
          store.open := false;
          return store, Err(Corruption);
        }
        var loaded := ReadSnapshot(h, c, store.snapshotRev, files.snapshots[store.snapshotRev]);
        if loaded.Err? {
          store.open := false;
          return store, Err(loaded.error);
        }
        store.index := loaded.value;
        store.currentRev := store.snapshotRev;
      }
      var replayed := store.ReplayJournal();
      if replayed.Err? {
        store.open := false;
        return store, Err(replayed.error);
      }
      if store.currentRev < acknowledged.value {
        store.open := false;
        return store, Err(Corruption);
      }
      var written := store.WriteManifest(p);
      if !written {
        store.open := false;
        return store, Err(Io);
      }
      return store, Ok(store.currentRev);
    }

    /** The revision the manifest acknowledges; its snapshot and retention go to the handle. */
    method ReadManifest() returns (r: Result<nat>)
      modifies this
      ensures open == old(open) && index == old(index) && staged == old(staged) && revisions == old(revisions)
              && currentRev == old(currentRev) && journalOffset == old(journalOffset)
      ensures var m := if files.manifest.Some? then files.manifest.value else Manifest(0, 0, 0);
              if m.snapshot > m.current || m.retention > m.current then r == Err(Corruption)
              else r == Ok(m.current)
                   && (files.manifest.Some? ==> snapshotRev == m.snapshot && retention == m.retention)
                   && (files.manifest.None? ==> snapshotRev == old(snapshotRev) && retention == old(retention))
    {
      match files.manifest
      case None => return Ok(0);
      case Some(m) =>
        if m.snapshot > m.current || m.retention > m.current {
          return Err(Corruption);
        }
        snapshotRev := m.snapshot;
        retention := m.retention;
        return Ok(m.current);
    }

    /** Returns whether the handle survives the write; the file is old or new as `p` says. */
    method WriteManifest(p: Publication) returns (written: bool)
      modifies files`manifest
      ensures written <==> p.Replaced?
      ensures files.Image() == Publish(old(files.Image()), ManifestOf(State()), p)
    {
      if p.Replaced? || (p.Uncertain? && p.visible) {
        files.manifest := Some(Manifest(currentRev, snapshotRev, retention));
      }
      written := p.Replaced?;
    }

    ghost function Progress(journalRevision: nat, sawRecord: bool): Recovered
      reads this
    {
      Recovered(journalRevision, sawRecord, index, revisions, currentRev, journalOffset)
    }

    /** The cursor loop of `replay`, which updates the handle record by record. */
    method ReplayJournal() returns (r: Result<nat>)
      requires journalOffset == 0
      modifies this`index, this`revisions, this`currentRev, this`journalOffset
      ensures var replayed := Replay(h, snapshotRev, files.journal, old(Progress(0, false)));
              if replayed.Err? then r == Err(replayed.error)
              else r.Ok? && index == replayed.value.index && revisions == replayed.value.revisions
                   && currentRev == replayed.value.currentRev && journalOffset == replayed.value.journalOffset
    {
      hide Replay, ReadRecord, Checked, Accept;
      ghost var whole := Replay(h, snapshotRev, files.journal, Progress(0, false));
      var journalRevision: nat, sawRecord, offset: nat := 0, false, 0;
      assert files.journal[0..] == files.journal;
      while true
        invariant offset == journalOffset <= |files.journal|
        invariant whole == Replay(h, snapshotRev, files.journal[offset..], Progress(journalRevision, sawRecord))
        decreases |files.journal| - offset
      {
        ReplayStep(h, snapshotRev, files.journal[offset..], Progress(journalRevision, sawRecord));
        var read, next := ReadAt(files.journal, offset);
        if read.Malformed? {
          return Err(Corruption);
        }
        if read.Torn? {
          if |files.journal| - offset < 4 && !((!sawRecord && snapshotRev != 0) || journalRevision >= snapshotRev) {
            return Err(Corruption);
          }
          return Ok(currentRev);
        }
        var raw := read.raw;
        var mutations := CheckRecord(raw, journalRevision);
        if mutations.Err? {
          return Err(Corruption);
        }
        AcceptRecord(raw, mutations.value, journalRevision, sawRecord);
        journalRevision, sawRecord, offset := raw.revision, true, next;
      }
    }

    /** The checks of one record, and its mutations. */
    method CheckRecord(raw: Raw, journalRevision: nat) returns (r: Result<seq<Mutation>>)
      ensures r == Checked(h, raw, snapshotRev, journalRevision)
    {
      hide ParseAll, Digest;
      var expected := journalRevision;
      if journalRevision == 0 && snapshotRev != 0
         && raw.revision == snapshotRev + 1 && raw.previous == snapshotRev {
        expected := snapshotRev;
      }
      if raw.magic != LCMT || raw.committed != raw.revision || raw.previous != expected
         || raw.revision != raw.previous + 1 || raw.digest != raw.commitDigest {
        return Err(Corruption);
      }
      if Digest(h, raw.revision, raw.previous, raw.count, raw.payload) != raw.digest {
        return Err(Corruption);
      }
      r := ParsePayload(h, raw.payload, raw.count);
    }

    method AcceptRecord(raw: Raw, mutations: seq<Mutation>, ghost journalRevision: nat, ghost sawRecord: bool)
      modifies this`index, this`revisions, this`currentRev, this`journalOffset
      ensures Progress(raw.revision, true)
           == Accept(old(Progress(journalRevision, sawRecord)), raw, mutations, snapshotRev)
      ensures journalOffset == old(journalOffset) + 108 + |raw.payload|
    {
      hide Apply;
      revisions := revisions + [Revision(raw.revision, mutations, raw.digest)];
      if raw.revision > snapshotRev {
        ApplyAll(mutations);
        currentRev := raw.revision;
      }
      journalOffset := journalOffset + 108 + |raw.payload|;
    }

    /** Mutate the index in the order the mutations were staged. */
    method ApplyAll(mutations: seq<Mutation>)
      modifies this`index
      ensures index == Apply(old(index), mutations)
    {
      assert mutations[0..] == mutations;
      for i := 0 to |mutations|
        invariant Apply(old(index), mutations) == Apply(index, mutations[i..])
      {
        assert mutations[i..][1..] == mutations[i + 1..];
        var mutation := mutations[i];
        if mutation.deleted {
          index := index - {mutation.key};
        } else {
          index := index[mutation.key := mutation.data];
        }
      }
    }

    /** `stage`: a put of encoded data, or a delete. */
    method Stage(key: bytes, value: Option<bytes>) returns (r: Result<nat>)
      requires Utf8.Valid(key) && (value.Some? ==> NulFree(value.value) && c.written(value.value))
      requires AllStaged(staged)
      modifies this`staged
      ensures AllStaged(staged)
      ensures var mutation := Mutation(key, value.None?, if value.Some? then value.value else []);
              (System(), r) == Next(h, c, old(System()), Recovery.Stage(mutation))
    {
      hide Utf8.Valid;
      if !open {
        return Err(InvalidState);
      }
      if key == [] {
        return Err(Key);
      }
      staged := staged + [Mutation(key, value.None?, if value.Some? then value.value else [])];
      return Ok(currentRev);
    }

    method DiscardStaged() returns (r: Result<nat>)
      modifies this`staged
      ensures (System(), r) == Next(h, c, old(System()), Discard)
    {
      if !open {
        return Err(InvalidState);
      }
      staged := [];
      return Ok(currentRev);
    }

    method Close() returns (r: Result<nat>)
      modifies this`staged, this`open
      ensures (System(), r) == Next(h, c, old(System()), Recovery.Close)
    {
      open := false;
      staged := [];
      return Ok(0);
    }

    /** `store_commit`, whose record is written as `a` says and whose manifest as `p` says. */
    method Commit(a: Append, p: Publication) returns (r: Result<nat>)
      requires AllStaged(staged)
      modifies this, files`journal, files`manifest
      ensures (System(), r) == Next(h, c, old(System()), Recovery.Commit(a, p))
    {
      if !open {
        return Err(InvalidState);
      }
      r := CommitOpen(a, p);
    }

    method CommitOpen(a: Append, p: Publication) returns (r: Result<nat>)
      requires AllStaged(staged) && open
      modifies this, files`journal, files`manifest
      ensures (System(), r) == CommitStep(h, old(System()), a, p)
    {
      hide Apply, EncodeAll, Digest, Record, AllStaged, Survives, Publish, RevisionOf, Take;
      if staged == [] {
        return Err(UnsupportedOperation);
      }
      var payload := BuildPayload(h, staged);
      if payload.Err? {
        return Err(Limit);
      }
      if currentRev + 1 >= U64 {
        return Err(Limit);
      }
      var digest, record := BuildRecord(payload.value);
      if journalOffset + |record| >= U64 {
        return Err(Limit);
      }
      if !a.NotTruncated? {
        files.journal := Take(files.journal, journalOffset);
        files.journal := files.journal + Survives(record, a);
      }
      if !a.Synced? {
        open := a.Cut? && a.rolledBack;
        return Err(Io);
      }
      Install(digest, |record|);
      var written := WriteManifest(p);
      open := written;
      return if written then Ok(currentRev) else Err(Io);
    }

    /** The handle's share of a commit whose record is in the journal. */
    method Install(digest: bytes, size: nat)
      modifies this`index, this`staged, this`revisions, this`currentRev, this`journalOffset
      ensures State() == old(State()).(
                           index := Apply(old(index), old(staged)),
                           staged := [],
                           revisions := old(revisions) + [Revision(old(currentRev) + 1, old(staged), digest)],
                           currentRev := old(currentRev) + 1,
                           journalOffset := old(journalOffset) + size)
    {
      hide Apply;
      revisions := revisions + [Revision(currentRev + 1, staged, digest)];
      ApplyAll(staged);
      currentRev := currentRev + 1;
      journalOffset := journalOffset + size;
      staged := [];
    }

    method BuildRecord(payload: bytes) returns (digest: bytes, record: bytes)
      requires payload == EncodeAll(h, staged)
      ensures record == Record(h, currentRev, staged)
      ensures Revision(currentRev + 1, staged, digest) == RevisionOf(h, currentRev, staged)
    {
      hide EncodeAll, Digest, Fields, Trailer;
      digest := Digest(h, currentRev + 1, currentRev, |staged|, payload);
      var header := LREV + Fields(currentRev + 1, currentRev, |staged|, |payload|) + digest;
      var trailer := Trailer(currentRev + 1, digest);
      record := header + payload + trailer;
      Append4(LREV, Fields(currentRev + 1, currentRev, |staged|, |payload|), digest, payload, trailer);
    }

    /** `store_snapshot`. */
    method Snapshot(file: Publication, p: Publication) returns (r: Result<nat>)
      modifies this`snapshotRev, this`open, files`snapshots, files`manifest
      ensures (System(), r) == Next(h, c, old(System()), Recovery.Snapshot(file, p))
    {
      hide SnapshotStep;
      if !open {
        return Err(InvalidState);
      }
      r := SnapshotOpen(file, p);
    }

    method SnapshotOpen(file: Publication, p: Publication) returns (r: Result<nat>)
      requires open
      modifies this`snapshotRev, this`open, files`snapshots, files`manifest
      ensures (System(), r) == SnapshotStep(h, c, old(System()), file, p) && (r.Ok? ==> open)
    {
      hide Publish, SnapshotText, SnapshotFile, Dump;
      var dumped := DumpIndex(c, index);
      if dumped.Err? {
        return Err(dumped.error);
      }
      var text := WriteText(dumped.value);
      var content := WriteFile(h, currentRev, text);
      if file.Replaced? || (file.Uncertain? && file.visible) {
        files.snapshots := files.snapshots[currentRev := content];
      }
      if !file.Replaced? {
        open := file.Refused?;
        return Err(Io);
      }
      snapshotRev := currentRev;
      var written := WriteManifest(p);
      if !written {
        open := false;
        return Err(Io);
      }
      return Ok(currentRev);
    }

    /** `store_compact`. */
    method Compact(retained: nat, file: Publication, first: Publication, p: Publication, t: Truncation)
      returns (r: Result<nat>)
      modifies this, files
      ensures (System(), r) == Next(h, c, old(System()), Recovery.Compact(retained, file, first, p, t))
    {
      hide CompactStep;
      if !open {
        return Err(InvalidState);
      }
      r := CompactOpen(retained, file, first, p, t);
    }

    method CompactOpen(retained: nat, file: Publication, first: Publication, p: Publication, t: Truncation)
      returns (r: Result<nat>)
      requires open
      modifies this, files
      ensures (System(), r) == CompactStep(h, c, old(System()), retained, file, first, p, t)
    {
      hide SnapshotStep, RetainStep;
      if retained == 0 {
        r := SnapshotOpen(file, first);
        if r.Err? {
          return;
        }
      }
      r := Retain(retained, p, t);
    }

    method Retain(retained: nat, p: Publication, t: Truncation) returns (r: Result<nat>)
      requires open
      modifies this, files`journal, files`manifest
      ensures (System(), r) == RetainStep(old(System()), retained, p, t)
    {
      hide Publish;
      var boundary := if currentRev < retained then 0 else currentRev - retained;
      var previous := retention;
      retention := Max(previous, boundary);
      var written := WriteManifest(p);
      if !written {
        if p.Refused? {
          retention := previous;
        } else {
          open := false;
        }
        return Err(Io);
      }
      if retained == 0 {
        if t.Truncated? || t.done {
          files.journal := [];
        }
        if t.Failed? {
          open := false;
          return Err(Io);
        }
        journalOffset := 0;
        revisions := [];
      }
      return Ok(currentRev);
    }

    /** `store_get_at`, before the value is decoded. */
    method GetAt(revision: nat, key: bytes) returns (r: Result<bytes>)
      ensures r == if open then HistoryReads.GetAt(State(), revision, key) else Err(InvalidState)
    {
      hide Latest, LatestIn;
      if !open {
        return Err(InvalidState);
      }
      if revision > currentRev {
        return Err(NotFound);
      }
      if revision < retention {
        return Err(CompactedHistory);
      }
      if revision == currentRev {
        return if key in index then Ok(index[key]) else Err(NotFound);
      }
      var latest: Option<Mutation> := None;
      var i := 0;
      assert revisions[0..] == revisions;
      while i < |revisions| && revisions[i].id <= revision
        invariant 0 <= i <= |revisions|
        invariant Latest(revisions, revision, key, None) == Latest(revisions[i..], revision, key, latest)
      {
        LatestStep(revisions[i..], revision, key, latest);
        assert revisions[i..][1..] == revisions[i + 1..];
        latest := LastMutation(revisions[i].mutations, key, latest);
        i := i + 1;
      }
      LatestStep(revisions[i..], revision, key, latest);
      return if latest.Some? && !latest.value.deleted then Ok(latest.value.data) else Err(NotFound);
    }

    /** One page of `store_scan_page`: its keys. */
    method ScanPage(prefix: bytes, after: bytes, limit: nat) returns (r: Result<seq<bytes>>)
      ensures r == if open then Ok(Scan.Page(Scan.Order(index.Keys), prefix, after, limit)) else Err(InvalidState)
    {
      if !open {
        return Err(InvalidState);
      }
      var keys := Scan.ScanPage(Scan.Order(index.Keys), prefix, after, limit);
      return Ok(keys);
    }
  }

  // ----- snapshot files

  /** The loop of `store_snapshot` that decodes every value, in the order of the keys. */
  method DumpIndex(c: Canon, index: Index) returns (r: Result<Index>)
    ensures r == Dump(c, index)
  {
    if !c.shelf(index.Keys) {
      return Err(Oom);
    }
    var keys := Scan.Order(index.Keys);
    var values: Index := map[];
    assert keys[..0] == [];
    for i := 0 to |keys|
      invariant Formed(c, index, keys[..i]) == Ok(values)
    {
      assert keys[..i + 1][..i] == keys[..i];
      var value := c.form(index[keys[i]]);
      if value.Err? {
        FormedPrefix(c, index, keys, i + 1);
        return Err(value.error);
      }
      values := values[keys[i] := value.value];
    }
    assert keys[..|keys|] == keys;
    if exists k :: k in index && 0 in k {
      return Err(Schema);
    }
    return Ok(values);
  }

  /** The first value that does not decode decides. */
  lemma {:induction false} FormedPrefix(c: Canon, index: Index, keys: seq<bytes>, n: nat)
    requires (forall i :: 0 <= i < |keys| ==> keys[i] in index) && n <= |keys| && Formed(c, index, keys[..n]).Err?
    ensures Formed(c, index, keys) == Formed(c, index, keys[..n])
    decreases |keys|
  {
    if n == |keys| {
      assert keys[..n] == keys;
    } else {
      assert keys[..|keys| - 1][..n] == keys[..n];
      FormedPrefix(c, index, keys[..|keys| - 1], n);
    }
  }

  /** The text of the map of a snapshot, entry by entry. */
  method WriteText(index: Index) returns (text: bytes)
    ensures text == SnapshotText(index)
  {
    hide JsonText.Quoted, Scan.Order;
    var keys := Scan.Order(index.Keys);
    text := [OPEN];
    assert keys[0..] == keys && text + [] == text;
    for i := 0 to |keys|
      invariant i == 0 ==> text == [OPEN]
      invariant 0 < i < |keys| ==> text + ([COMMA] + EntriesText(index, keys[i..])) == [OPEN] + EntriesText(index, keys)
      invariant 0 < i == |keys| ==> text == [OPEN] + EntriesText(index, keys)
    {
      ghost var rest := keys[i..];
      assert rest[1..] == keys[i + 1..] && rest[0] == keys[i];
      if i != 0 {
        Assoc(text, [COMMA], EntriesText(index, rest));
        text := text + [COMMA];
      }
      ghost var before := text;
      assert before + EntriesText(index, rest) == [OPEN] + EntriesText(index, keys);
      text := text + JsonText.Quoted(keys[i]) + [COLON] + index[keys[i]];
      Append3(before, JsonText.Quoted(keys[i]), [COLON], index[keys[i]]);
      if i + 1 < |keys| {
        Assoc(before, EntryText(keys[i], index[keys[i]]), [COMMA] + EntriesText(index, rest[1..]));
      }
    }
    Assoc([OPEN], EntriesText(index, keys), [CLOSE]);
    text := text + [CLOSE];
  }

  method WriteFile(h: Hash, revision: nat, text: bytes) returns (file: bytes)
    ensures file == SnapshotFile(h, revision, text)
  {
    hide ToBE;
    var header := LSNP + ToBE(revision, 8) + ToBE(|text|, 8) + h(text);
    file := header + text;
    Append4(LSNP, ToBE(revision, 8), ToBE(|text|, 8), h(text), text);
  }

  /** `load_snapshot` */
  method ReadSnapshot(h: Hash, c: Canon, revision: nat, file: bytes) returns (r: Result<Index>)
    ensures r == LoadSnapshot(h, c, revision, file)
  {
    hide FromBE;
    if |file| < 4 || file[..4] != LSNP {
      return Err(Corruption);
    }
    if |file| < 4 + 48 {
      return Err(Corruption);
    }
    var length := FromBE(file[12..20]);
    if FromBE(file[4..12]) != revision || length > STORE_LIMIT {
      return Err(Corruption);
    }
    if |file| != 4 + 48 + length {
      return Err(Corruption);
    }
    var payload := file[52..52 + length];
    assert payload == file[52..];
    if h(payload) != file[20..52] {
      return Err(Corruption);
    }
    return c.load(payload);
  }

  method LastMutation(mutations: seq<Mutation>, key: bytes, latest: Option<Mutation>) returns (r: Option<Mutation>)
    ensures r == LatestIn(mutations, key, latest)
  {
    r := latest;
    assert mutations[0..] == mutations;
    for i := 0 to |mutations|
      invariant LatestIn(mutations, key, latest) == LatestIn(mutations[i..], key, r)
    {
      assert mutations[i..][1..] == mutations[i + 1..];
      if mutations[i].key == key {
        r := Some(mutations[i]);
      }
    }
  }

  lemma LatestStep(revisions: seq<Revision>, revision: nat, key: bytes, latest: Option<Mutation>)
    ensures Latest(revisions, revision, key, latest)
         == if revisions == [] || revisions[0].id > revision then latest
            else Latest(revisions[1..], revision, key, LatestIn(revisions[0].mutations, key, latest))
  {}

  lemma ReplayStep(h: Hash, snapshotRev: nat, s: bytes, st: Recovered)
    ensures Replay(h, snapshotRev, s, st)
         == (var read := ReadRecord(s);
             if read.Malformed? then Err(Corruption) else
             if read.Torn? then
               if |s| < 4 && !((!st.sawRecord && snapshotRev != 0) || st.journalRevision >= snapshotRev)
               then Err(Corruption) else Ok(st)
             else
               var mutations := Checked(h, read.raw, snapshotRev, st.journalRevision);
               if mutations.Err? then Err(Corruption)
               else Replay(h, snapshotRev, read.rest, Accept(st, read.raw, mutations.value, snapshotRev)))
  {
    hide ReadRecord, Chained, Accept, ParseAll;
  }

  ghost function Checked(h: Hash, raw: Raw, snapshotRev: nat, journalRevision: nat): Result<seq<Mutation>> {
    if Chained(h, raw, Follows(raw, snapshotRev, journalRevision))
    then ParseAll(h, raw.payload, raw.count) else Err(Corruption)
  }

  /** The reads of one record at `start`, each of which may meet the end of the file. */
  method ReadAt(journal: bytes, start: nat) returns (r: Read, next: nat)
    requires start <= |journal|
    ensures r == ReadRecord(journal[start..])
    ensures r.Complete? ==> start < next <= |journal| && next == start + 108 + |r.raw.payload| && r.rest == journal[next..]
  {
    hide FromBE;
    var offset := start;
    next := start;
    if |journal| - offset < 4 {
      return Torn, next;
    }
    Shift(journal, offset, 4);
    if journal[offset..offset + 4] != LREV {
      return Malformed, next;
    }
    offset := offset + 4;
    if |journal| - offset < 28 || |journal| - offset - 28 < 32 {
      return Torn, next;
    }
    Shift(journal, offset, 28);
    var header := journal[offset..offset + 28];
    offset := offset + 28;
    Shift(journal, offset, 32);
    var digest := journal[offset..offset + 32];
    offset := offset + 32;
    var length := FromBE(header[20..28]);
    if length > STORE_LIMIT {
      return Malformed, next;
    }
    if |journal| - offset < length {
      return Torn, next;
    }
    Shift(journal, offset, length);
    var payload := journal[offset..offset + length];
    offset := offset + length;
    if |journal| - offset < 4 || |journal| - offset - 4 < 40 {
      return Torn, next;
    }
    Shift(journal, offset, 44);
    var trailer := journal[offset..offset + 44];
    offset := offset + 44;
    next := offset;
    r := Complete(
      Raw(FromBE(header[..8]), FromBE(header[8..16]), FromBE(header[16..20]), digest, payload,
          trailer[..4], FromBE(trailer[4..12]), trailer[12..]),
      journal[offset..]);
  }
}
