/**
 The append-only journal: one `LREV ... LCMT` record a revision, and the replay that
 rebuilds the index from it. Everything here is a function of the journal's bytes.
 */
module Journal {
  import opened Bytes
  import opened Seqs
  import opened Payload

  type Index = map<bytes, bytes>

  datatype Revision = Revision(id: nat, mutations: seq<Mutation>, digest: bytes)

  const LREV: bytes := ['L' as int, 'R' as int, 'E' as int, 'V' as int]
  const LCMT: bytes := ['L' as int, 'C' as int, 'M' as int, 'T' as int]

  // ----- one record

  function Digest(h: Hash, revision: nat, previous: nat, count: nat, payload: bytes): (d: bytes)
    ensures |d| == 32
  {
    h(ToBE(revision, 8) + (ToBE(previous, 8) + (ToBE(count, 4) + payload)))
  }

  function Fields(revision: nat, previous: nat, count: nat, length: nat): (s: bytes)
    ensures |s| == 28
  {
    ToBE(revision, 8) + (ToBE(previous, 8) + (ToBE(count, 4) + ToBE(length, 8)))
  }

  function Trailer(revision: nat, digest: bytes): (s: bytes)
    ensures |s| == 12 + |digest|
  {
    LCMT + (ToBE(revision, 8) + digest)
  }

  /** What `store_commit` appends for revision `previous + 1`. */
  function Record(h: Hash, previous: nat, ms: seq<Mutation>): bytes {
    var payload := EncodeAll(h, ms);
    var digest := Digest(h, previous + 1, previous, |ms|, payload);
    LREV + (Fields(previous + 1, previous, |ms|, |payload|)
            + (digest + (payload + Trailer(previous + 1, digest))))
  }

  /** A record as it stands in the journal, before any of its checks. */
  datatype Raw = Raw(
    revision: nat, previous: nat, count: nat, digest: bytes, payload: bytes,
    magic: bytes, committed: nat, commitDigest: bytes)

  datatype Read = Torn | Malformed | Complete(raw: Raw, rest: bytes)

  /** The record at the head of `s`; `Torn` when the journal ends inside it. */
  function ReadRecord(s: bytes): (r: Read)
    ensures r.Complete? ==> |s| == 108 + |r.raw.payload| + |r.rest|
  {
    if |s| < 4 then Torn else
    if s[..4] != LREV then Malformed else
    var s1 := s[4..];
    if |s1| < 28 then Torn else
    var fields, s2 := s1[..28], s1[28..];
    if |s2| < 32 then Torn else
    var digest, s3 := s2[..32], s2[32..];
    var length := FromBE(fields[20..28]);
    if length > STORE_LIMIT then Malformed else
    if |s3| < length then Torn else
    var payload, s4 := s3[..length], s3[length..];
    if |s4| < 44 then Torn else
    var trailer := s4[..44];
    Complete(
      Raw(FromBE(fields[..8]), FromBE(fields[8..16]), FromBE(fields[16..20]), digest, payload,
          trailer[..4], FromBE(trailer[4..12]), trailer[12..]),
      s4[44..])
  }

  /** The checks `replay` makes of a complete record that should follow revision `journalRevision`. */
  predicate Chained(h: Hash, raw: Raw, journalRevision: nat) {
    && raw.magic == LCMT
    && raw.committed == raw.revision
    && raw.previous == journalRevision
    && raw.revision == raw.previous + 1
    && raw.digest == raw.commitDigest
    && Digest(h, raw.revision, raw.previous, raw.count, raw.payload) == raw.digest
  }

  function RawOf(h: Hash, previous: nat, ms: seq<Mutation>): Raw {
    var payload := EncodeAll(h, ms);
    var digest := Digest(h, previous + 1, previous, |ms|, payload);
    Raw(previous + 1, previous, |ms|, digest, payload, LCMT, previous + 1, digest)
  }

  /** Batches that `store_commit` can write: staged, and within the payload limit. */
  predicate Batch(h: Hash, ms: seq<Mutation>) {
    ms != [] && AllStaged(ms) && |EncodeAll(h, ms)| <= STORE_LIMIT
  }

  lemma BatchCount(h: Hash, ms: seq<Mutation>)
    requires Batch(h, ms)
    ensures |ms| < 0x1_0000_0000
  {
    hide EncodeAll;
    EncodeAllSize(h, ms);
  }

  lemma FieldsRead(revision: nat, previous: nat, count: nat, length: nat)
    requires revision < U64 && previous < U64 && count < 0x1_0000_0000 && length < U64
    ensures var f := Fields(revision, previous, count, length);
            FromBE(f[..8]) == revision && FromBE(f[8..16]) == previous
            && FromBE(f[16..20]) == count && FromBE(f[20..28]) == length
  {
    hide ToBE, FromBE;
    Widths();
    var (a, b, c, d) := (ToBE(revision, 8), ToBE(previous, 8), ToBE(count, 4), ToBE(length, 8));
    Slices4(a, b, c, d);
    var f := Fields(revision, previous, count, length);
    assert f[20..28] == f[20..];
    FromToBE(revision, 8);
    FromToBE(previous, 8);
    FromToBE(count, 4);
    FromToBE(length, 8);
  }

  lemma TrailerRead(revision: nat, digest: bytes)
    requires revision < U64
    ensures var t := Trailer(revision, digest);
            t[..4] == LCMT && FromBE(t[4..12]) == revision && t[12..] == digest
  {
    hide ToBE, FromBE;
    Widths();
    Slices3(LCMT, ToBE(revision, 8), digest);
    FromToBE(revision, 8);
  }

  /** The parts of a record are read back, whatever follows it. */
  lemma ReadParts(fields: bytes, digest: bytes, payload: bytes, trailer: bytes, rest: bytes)
    requires |fields| == 28 && |digest| == 32 && |trailer| == 44
    requires FromBE(fields[20..28]) == |payload| <= STORE_LIMIT
    ensures ReadRecord((LREV + (fields + (digest + (payload + trailer)))) + rest)
         == Complete(
              Raw(FromBE(fields[..8]), FromBE(fields[8..16]), FromBE(fields[16..20]), digest, payload,
                  trailer[..4], FromBE(trailer[4..12]), trailer[12..]),
              rest)
  {
    hide FromBE;
    Nest5(LREV, fields, digest, payload, trailer, rest);
    Peel(LREV, fields + (digest + (payload + (trailer + rest))));
    Peel(fields, digest + (payload + (trailer + rest)));
    Peel(digest, payload + (trailer + rest));
    Peel(payload, trailer + rest);
    Peel(trailer, rest);
  }

  lemma ReadWritten(h: Hash, previous: nat, ms: seq<Mutation>, rest: bytes)
    requires Batch(h, ms) && previous + 1 < U64
    ensures ReadRecord(Record(h, previous, ms) + rest) == Complete(RawOf(h, previous, ms), rest)
  {
    hide Fields, EncodeAll, Digest, Trailer, Batch, FromBE, ReadRecord, Pow256;
    var raw := RawOf(h, previous, ms);
    var fields := Fields(previous + 1, previous, |ms|, |raw.payload|);
    Widths();
    BatchCount(h, ms);
    BatchSize(h, ms);
    FieldsRead(previous + 1, previous, |ms|, |raw.payload|);
    TrailerRead(previous + 1, raw.digest);
    ReadParts(fields, raw.digest, raw.payload, Trailer(previous + 1, raw.digest), rest);
  }

  lemma BatchSize(h: Hash, ms: seq<Mutation>)
    requires Batch(h, ms)
    ensures |EncodeAll(h, ms)| <= STORE_LIMIT
  {}

  /**
   Where the parts of a record stand: "LREV", revision, previous revision, number of mutations, length of the payload, digest,
   payload, then "LCMT", revision and digest once more. The digest is of the first three numbers and the payload.
   */
  lemma RecordLayout(h: Hash, previous: nat, ms: seq<Mutation>)
    ensures var (r, payload) := (Record(h, previous, ms), EncodeAll(h, ms));
            var end := 64 + |payload|;
            && |r| == end + 44
            && r[..4] == [0x4C, 0x52, 0x45, 0x56] && r[4..12] == ToBE(previous + 1, 8) && r[12..20] == ToBE(previous, 8)
            && r[20..24] == ToBE(|ms|, 4) && r[24..32] == ToBE(|payload|, 8)
            && r[32..64] == h(r[4..24] + payload) && r[64..end] == payload
            && r[end..end + 4] == [0x4C, 0x43, 0x4D, 0x54] && r[end + 4..end + 12] == r[4..12] && r[end + 12..] == r[32..64]
  {
    hide ToBE, EncodeAll;
    var payload := EncodeAll(h, ms);
    var digest := Digest(h, previous + 1, previous, |ms|, payload);
    var (a, b, c) := (ToBE(previous + 1, 8), ToBE(previous, 8), ToBE(|ms|, 4));
    var fields := a + (b + (c + ToBE(|payload|, 8)));
    var trailer := LCMT + (a + digest);
    var r := Record(h, previous, ms);
    assert r == LREV + (fields + (digest + (payload + trailer)));
    assert r[4..32] == fields && r[32..64] == digest && r[64..64 + |payload|] == payload && r[64 + |payload|..] == trailer;
    FieldsStand(a, b, c, ToBE(|payload|, 8));
    assert r[4..12] == r[4..32][..8] && r[12..20] == r[4..32][8..16] && r[20..24] == r[4..32][16..20] && r[24..32] == r[4..32][20..];
    assert r[4..24] == r[4..32][..20];
    assert r[4..24] + payload == a + (b + (c + payload));
    var end := 64 + |payload|;
    assert r[end..end + 4] == r[end..][..4] && r[end + 4..end + 12] == r[end..][4..12] && r[end + 12..] == r[end..][12..];
  }

  lemma FieldsStand(a: bytes, b: bytes, c: bytes, d: bytes)
    requires |a| == 8 && |b| == 8 && |c| == 4 && |d| == 8
    ensures var f := a + (b + (c + d));
            f[..8] == a && f[8..16] == b && f[16..20] == c && f[20..] == d && f[..20] == a + (b + c)
  {}

  /** A crash that cuts a record anywhere before its end leaves something replay reads as torn. */
  lemma CutIsTorn(s: bytes, n: nat)
    requires ReadRecord(s).Complete? && n + |ReadRecord(s).rest| < |s|
    ensures ReadRecord(s[..n]) == Torn
  {
    hide FromBE;
    var t := s[..n];
    if n >= 4 {
      assert t[..4] == s[..4];
      var (s1, t1) := (s[4..], t[4..]);
      assert t1 == s1[..n - 4];
      if n >= 64 {
        assert t1[..28] == s1[..28];
        var (s2, t2) := (s1[28..], t1[28..]);
        assert t2[..32] == s2[..32];
      }
    }
  }

  // ----- replay

  datatype Recovered = Recovered(
    journalRevision: nat, sawRecord: bool, index: Index,
    revisions: seq<Revision>, currentRev: nat, journalOffset: nat)

  function ApplyOne(index: Index, m: Mutation): Index {
    if m.deleted then index - {m.key} else index[m.key := m.data]
  }

  function Apply(index: Index, ms: seq<Mutation>): Index
    decreases |ms|
  {
    if ms == [] then index else Apply(ApplyOne(index, ms[0]), ms[1..])
  }

  /** The revision the record `raw` has to follow: a journal may start right after the snapshot. */
  function Follows(raw: Raw, snapshotRev: nat, journalRevision: nat): nat {
    if journalRevision == 0 && snapshotRev != 0
       && raw.revision == snapshotRev + 1 && raw.previous == snapshotRev
    then snapshotRev else journalRevision
  }

  function Accept(st: Recovered, raw: Raw, ms: seq<Mutation>, snapshotRev: nat): Recovered {
    var revision := raw.revision;
    Recovered(
      revision, true,
      if revision > snapshotRev then Apply(st.index, ms) else st.index,
      st.revisions + [Revision(revision, ms, raw.digest)],
      if revision > snapshotRev then revision else st.currentRev,
      st.journalOffset + 108 + |raw.payload|)
  }

  /** The state `replay` reaches from `st` by reading what is left of the journal, `s`. */
  function Replay(h: Hash, snapshotRev: nat, s: bytes, st: Recovered): (r: Result<Recovered>)
    ensures r.Err? ==> r.error == Corruption
    decreases |s|
  {
    match ReadRecord(s)
    case Malformed => Err(Corruption)
    case Torn =>
      if |s| < 4 && !((!st.sawRecord && snapshotRev != 0) || st.journalRevision >= snapshotRev)
      then Err(Corruption) else Ok(st)
    case Complete(raw, rest) =>
      if !Chained(h, raw, Follows(raw, snapshotRev, st.journalRevision)) then Err(Corruption) else
      var ms := ParseAll(h, raw.payload, raw.count);
      if ms.Err? then Err(Corruption) else
      Replay(h, snapshotRev, rest, Accept(st, raw, ms.value, snapshotRev))
  }
}
