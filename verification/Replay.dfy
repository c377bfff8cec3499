/** Replay over the journal of a whole history of commits, whole or cut short. */
module ReplayTheorems {
  import opened Bytes
  import opened Seqs
  import opened Payload
  import opened Journal
  import opened Snapshots

  /** The batches of mutations of revisions 1, 2, ...: revision `i + 1` is `log[i]`. */
  type Log = seq<seq<Mutation>>

  predicate Sound(h: Hash, log: Log) { |log| < U64 && forall i :: 0 <= i < |log| ==> Batch(h, log[i]) }

  /** No key of a revision after `base` holds a NUL. */
  predicate NulFreeAfter(log: Log, base: nat) { forall i :: base <= i < |log| ==> KeysNulFree(log[i]) }

  /** The index after revision `n`: every mutation of revisions 1..n, in order, from nothing. */
  function Fold(log: Log, n: nat): Index
    requires n <= |log|
  {
    if n == 0 then map[] else Apply(Fold(log, n - 1), log[n - 1])
  }

  /** The journal that holds revisions `base + 1` to the last, and nothing else. */
  function JournalOf(h: Hash, log: Log, base: nat): bytes
    requires base <= |log|
    decreases |log| - base
  {
    if base == |log| then [] else Record(h, base, log[base]) + JournalOf(h, log, base + 1)
  }

  function RevisionOf(h: Hash, previous: nat, ms: seq<Mutation>): Revision {
    Revision(previous + 1, ms, Digest(h, previous + 1, previous, |ms|, EncodeAll(h, ms)))
  }

  function RevisionsOf(h: Hash, log: Log, base: nat): seq<Revision>
    requires base <= |log|
  {
    seq(|log| - base, i requires 0 <= i < |log| - base => RevisionOf(h, base + i, log[base + i]))
  }

  /** The same data, or what decoding and encoding `stored` gives. */
  predicate Reads(c: Canon, data: bytes, stored: bytes) { data == stored || c.form(stored) == Ok(data) }

  /** `a` has the keys of `b`, with the same values or those that decoding and encoding them gives. */
  ghost predicate Agree(c: Canon, a: Index, b: Index) {
    a.Keys == b.Keys && forall k :: k in a ==> Reads(c, a[k], b[k])
  }

  lemma {:induction false} AgreeApply(c: Canon, a: Index, b: Index, ms: seq<Mutation>)
    requires Agree(c, a, b)
    ensures Agree(c, Apply(a, ms), Apply(b, ms))
    decreases |ms|
  {
    if ms != [] {
      AgreeApply(c, ApplyOne(a, ms[0]), ApplyOne(b, ms[0]), ms[1..]);
    }
  }

  function Max(a: nat, b: nat): nat { if a < b then b else a }

  // ----- appending to the log

  lemma {:induction false} FoldPrefix(log: Log, more: Log, n: nat)
    requires n <= |log|
    ensures Fold(log + more, n) == Fold(log, n)
  {
    if n > 0 {
      FoldPrefix(log, more, n - 1);
    }
  }

  lemma {:induction false} JournalAppend(h: Hash, log: Log, ms: seq<Mutation>, base: nat)
    requires base <= |log|
    ensures JournalOf(h, log + [ms], base) == JournalOf(h, log, base) + Record(h, |log|, ms)
    decreases |log| - base
  {
    hide Record;
    var longer := log + [ms];
    if base == |log| {
      assert JournalOf(h, longer, base) == Record(h, base, ms) + JournalOf(h, longer, base + 1);
      assert [] + Record(h, |log|, ms) == Record(h, |log|, ms) + [];
    } else {
      JournalAppend(h, log, ms, base + 1);
      Assoc(Record(h, base, log[base]), JournalOf(h, log, base + 1), Record(h, |log|, ms));
    }
  }

  lemma RevisionsAppend(h: Hash, log: Log, ms: seq<Mutation>, base: nat)
    requires base <= |log|
    ensures RevisionsOf(h, log + [ms], base) == RevisionsOf(h, log, base) + [RevisionOf(h, |log|, ms)]
  {
    hide RevisionOf;
  }

  lemma RevisionsCons(h: Hash, log: Log, base: nat)
    requires base < |log|
    ensures RevisionsOf(h, log, base) == [RevisionOf(h, base, log[base])] + RevisionsOf(h, log, base + 1)
  {
    hide RevisionOf;
  }

  // ----- replaying the log

  /** `st` is where replay stands before the record of revision `i + 1`. */
  ghost predicate Reached(c: Canon, snapshotRev: nat, log: Log, i: nat, st: Recovered)
    requires i <= |log| && snapshotRev <= |log|
  {
    && (st.journalRevision == i || (!st.sawRecord && st.journalRevision == 0 && i == snapshotRev))
    && st.currentRev == Max(i, snapshotRev)
    && Agree(c, st.index, Fold(log, Max(i, snapshotRev)))
  }

  /** The state after the record of revision `i + 1`. */
  function AfterRecord(h: Hash, snapshotRev: nat, log: Log, i: nat, st: Recovered): Recovered
    requires i < |log|
  {
    Accept(st, RawOf(h, i, log[i]), log[i], snapshotRev)
  }

  lemma AfterRecordReached(h: Hash, c: Canon, snapshotRev: nat, log: Log, i: nat, st: Recovered)
    requires i < |log| && snapshotRev <= |log| && Reached(c, snapshotRev, log, i, st)
    ensures Reached(c, snapshotRev, log, i + 1, AfterRecord(h, snapshotRev, log, i, st))
  {
    hide EncodeAll, Digest, Agree, Apply;
    if i >= snapshotRev {
      AgreeApply(c, st.index, Fold(log, i), log[i]);
    }
  }

  lemma AfterRecordEffect(h: Hash, snapshotRev: nat, log: Log, i: nat, st: Recovered)
    requires i < |log|
    ensures var next := AfterRecord(h, snapshotRev, log, i, st);
            && next.revisions == st.revisions + [RevisionOf(h, i, log[i])]
            && next.journalOffset == st.journalOffset + |Record(h, i, log[i])|
  {
    hide EncodeAll, Digest, Apply, Record;
    RecordSize(h, i, log[i]);
  }

  lemma RawOfChained(h: Hash, previous: nat, ms: seq<Mutation>)
    ensures Chained(h, RawOf(h, previous, ms), previous)
  {
    hide Digest, EncodeAll;
  }

  lemma RecordSize(h: Hash, previous: nat, ms: seq<Mutation>)
    ensures |Record(h, previous, ms)| == 108 + |EncodeAll(h, ms)|
  {
    hide Digest, EncodeAll, Fields, Trailer;
  }

  /** A written record that comes next is accepted unless one of its keys holds a NUL. */
  lemma ReplayOne(h: Hash, snapshotRev: nat, i: nat, ms: seq<Mutation>, rest: bytes, st: Recovered)
    requires Batch(h, ms) && i + 1 < U64
    requires st.journalRevision == i || (st.journalRevision == 0 && i == snapshotRev)
    ensures Replay(h, snapshotRev, Record(h, i, ms) + rest, st)
         == if KeysNulFree(ms) then Replay(h, snapshotRev, rest, Accept(st, RawOf(h, i, ms), ms, snapshotRev))
            else Err(Corruption)
  {
    hide EncodeAll, Digest, Record, ReadRecord, ParseAll, Chained, Accept, KeysNulFree, AllStaged;
    var raw := RawOf(h, i, ms);
    ReadWritten(h, i, ms, rest);
    RawOfChained(h, i, ms);
    ParseAllEncode(h, ms);
    assert Follows(raw, snapshotRev, st.journalRevision) == i;
  }

  /**
   Replay of the journal of a whole log, followed by anything it reads as torn: it accepts
   exactly the revisions of the log, and stops at the end of the last complete record.
   */
  lemma {:induction false} ReplayLog(h: Hash, c: Canon, snapshotRev: nat, log: Log, i: nat, torn: bytes, st: Recovered)
    returns (r: Recovered)
    requires Sound(h, log) && i <= |log| && snapshotRev <= |log| && Reached(c, snapshotRev, log, i, st)
    requires ReadRecord(torn) == Torn && NulFreeAfter(log, i)
    ensures Replay(h, snapshotRev, JournalOf(h, log, i) + torn, st) == Ok(r)
    ensures Reached(c, snapshotRev, log, |log|, r)
    ensures r.revisions == st.revisions + RevisionsOf(h, log, i)
    ensures r.journalOffset == st.journalOffset + |JournalOf(h, log, i)|
    decreases |log| - i
  {
    hide *;
    if i == |log| {
      ReplayEnd(h, c, snapshotRev, log, torn, st);
      r := st;
    } else {
      var next := AfterRecord(h, snapshotRev, log, i, st);
      NulFreeNext(log, i);
      JournalCons(h, log, i, torn);
      ReplayNext(h, c, snapshotRev, log, i, JournalOf(h, log, i + 1) + torn, st);
      AfterRecordReached(h, c, snapshotRev, log, i, st);
      AfterRecordEffect(h, snapshotRev, log, i, st);
      r := ReplayLog(h, c, snapshotRev, log, i + 1, torn, next);
      RevisionsJoin(h, log, i, st.revisions);
    }
  }

  lemma NulFreeNext(log: Log, i: nat)
    requires NulFreeAfter(log, i) && i < |log|
    ensures KeysNulFree(log[i]) && NulFreeAfter(log, i + 1)
  {
    hide KeysNulFree;
  }

  lemma RevisionsJoin(h: Hash, log: Log, i: nat, before: seq<Revision>)
    requires i < |log|
    ensures before + RevisionsOf(h, log, i) == before + [RevisionOf(h, i, log[i])] + RevisionsOf(h, log, i + 1)
  {
    hide RevisionsOf, RevisionOf;
    RevisionsCons(h, log, i);
    Assoc(before, [RevisionOf(h, i, log[i])], RevisionsOf(h, log, i + 1));
  }

  lemma ReplayEnd(h: Hash, c: Canon, snapshotRev: nat, log: Log, torn: bytes, st: Recovered)
    requires snapshotRev <= |log| && Reached(c, snapshotRev, log, |log|, st) && ReadRecord(torn) == Torn
    ensures Replay(h, snapshotRev, JournalOf(h, log, |log|) + torn, st) == Ok(st)
    ensures st.revisions + RevisionsOf(h, log, |log|) == st.revisions && JournalOf(h, log, |log|) == []
  {
    hide ReadRecord, Agree, RevisionOf;
    assert [] + torn == torn;
    assert RevisionsOf(h, log, |log|) == [];
  }

  lemma JournalCons(h: Hash, log: Log, i: nat, rest: bytes)
    requires i < |log|
    ensures JournalOf(h, log, i) + rest == Record(h, i, log[i]) + (JournalOf(h, log, i + 1) + rest)
    ensures |JournalOf(h, log, i)| == |Record(h, i, log[i])| + |JournalOf(h, log, i + 1)|
  {
    hide Record;
    Assoc(Record(h, i, log[i]), JournalOf(h, log, i + 1), rest);
  }

  lemma ReplayNext(h: Hash, c: Canon, snapshotRev: nat, log: Log, i: nat, rest: bytes, st: Recovered)
    requires Sound(h, log) && i < |log| && snapshotRev <= |log| && Reached(c, snapshotRev, log, i, st)
    requires KeysNulFree(log[i])
    ensures Replay(h, snapshotRev, Record(h, i, log[i]) + rest, st)
         == Replay(h, snapshotRev, rest, AfterRecord(h, snapshotRev, log, i, st))
  {
    hide Replay, Record, Batch, Accept, Fold, Agree, KeysNulFree;
    ReplayOne(h, snapshotRev, i, log[i], rest, st);
  }

  /** A journal that starts after neither revision 0 nor the snapshot is refused. */
  lemma ReplayGap(h: Hash, snapshotRev: nat, log: Log, base: nat, torn: bytes, st: Recovered)
    requires Sound(h, log) && base < |log| && base != 0 && base != snapshotRev
    requires st.journalRevision == 0
    ensures Replay(h, snapshotRev, JournalOf(h, log, base) + torn, st) == Err(Corruption)
  {
    hide EncodeAll, Digest, Record, ReadRecord, ParseAll, Batch, KeysNulFree;
    var rest := JournalOf(h, log, base + 1) + torn;
    JournalCons(h, log, base, torn);
    ReadWritten(h, base, log[base], rest);
  }

  /** A record with a NUL in one of its keys is refused when replay reaches it. */
  lemma {:induction false} ReplayNul(h: Hash, c: Canon, snapshotRev: nat, log: Log, i: nat, torn: bytes, st: Recovered)
    requires Sound(h, log) && i <= |log| && snapshotRev <= |log|
    requires Reached(c, snapshotRev, log, i, st) && !NulFreeAfter(log, i)
    ensures Replay(h, snapshotRev, JournalOf(h, log, i) + torn, st) == Err(Corruption)
    decreases |log| - i
  {
    hide Replay, Record, Batch, KeysNulFree, Fold, Agree, RawOf, Accept;
    var rest := JournalOf(h, log, i + 1) + torn;
    JournalCons(h, log, i, torn);
    if KeysNulFree(log[i]) {
      hide Reached, AfterRecord, Sound;
      ReplayNext(h, c, snapshotRev, log, i, rest, st);
      AfterRecordReached(h, c, snapshotRev, log, i, st);
      ReplayNul(h, c, snapshotRev, log, i + 1, torn, AfterRecord(h, snapshotRev, log, i, st));
    } else {
      ReplayOne(h, snapshotRev, i, log[i], rest, st);
    }
  }

  // ----- whatever is accepted was written

  /** The records of these batches, the first of them for revision `previous + 1`. */
  function WrittenFrom(h: Hash, previous: nat, batches: Log): bytes
    decreases |batches|
  {
    if batches == [] then [] else Record(h, previous, batches[0]) + WrittenFrom(h, previous + 1, batches[1..])
  }

  lemma {:induction false} WrittenIsJournal(h: Hash, log: Log, base: nat)
    requires base <= |log|
    ensures WrittenFrom(h, base, log[base..]) == JournalOf(h, log, base)
    decreases |log| - base
  {
    hide Record;
    if base < |log| {
      WrittenIsJournal(h, log, base + 1);
      assert log[base..][1..] == log[base + 1..];
    }
  }

  function RevisionsFrom(h: Hash, base: nat, log: Log): seq<Revision> {
    seq(|log|, i requires 0 <= i < |log| => RevisionOf(h, base + i, log[i]))
  }

  /** An index after the batches of the revisions above the snapshot's, the first of them for revision `base + 1`. */
  function ApplyLater(index: Index, base: nat, log: Log, snapshotRev: nat): Index
    decreases |log|
  {
    if log == [] then index
    else ApplyLater(if base + 1 > snapshotRev then Apply(index, log[0]) else index, base + 1, log[1..], snapshotRev)
  }

  /** What is read of a record gives its bytes back. */
  lemma RawBytes(s: bytes)
    requires ReadRecord(s).Complete?
    ensures var Complete(raw, rest) := ReadRecord(s);
            s == LREV + (Fields(raw.revision, raw.previous, raw.count, |raw.payload|)
                         + (raw.digest + (raw.payload + (raw.magic + (ToBE(raw.committed, 8) + raw.commitDigest))))) + rest
  {
    hide ToBE, FromBE;
    var Complete(raw, rest) := ReadRecord(s);
    var s1 := s[4..];
    var (f, s2) := (s1[..28], s1[28..]);
    var (digest, s3) := (s2[..32], s2[32..]);
    var (payload, s4) := (s3[..|raw.payload|], s3[|raw.payload|..]);
    var t := s4[..44];
    ToFromBE(f[..8]);
    ToFromBE(f[8..16]);
    ToFromBE(f[16..20]);
    ToFromBE(f[20..28]);
    ToFromBE(t[4..12]);
    assert f == f[..8] + (f[8..16] + (f[16..20] + f[20..28]));
    assert t == t[..4] + (t[4..12] + t[12..]);
    assert s == LREV + s1 && s1 == f + s2 && s2 == digest + s3 && s3 == payload + s4 && s4 == t + rest;
    Nest5(LREV, f, digest, payload, t, rest);
  }

  /** A record that passes every check of replay is the one that a commit of its mutations writes. */
  lemma RecordOnly(h: Hash, s: bytes, previous: nat)
    requires ReadRecord(s).Complete? && Chained(h, ReadRecord(s).raw, previous)
    requires ParseAll(h, ReadRecord(s).raw.payload, ReadRecord(s).raw.count).Ok?
    ensures var Complete(raw, rest) := ReadRecord(s);
            var ms := ParseAll(h, raw.payload, raw.count).value;
            && s == Record(h, previous, ms) + rest && raw == RawOf(h, previous, ms)
            && AllStaged(ms) && KeysNulFree(ms)
  {
    hide ReadRecord, ParseAll, Fields, Digest, EncodeAll, AllStaged, KeysNulFree, ToBE;
    var Complete(raw, rest) := ReadRecord(s);
    RawBytes(s);
    ParseAllOnly(h, raw.payload, raw.count);
  }

  /** Where the next record starts: after the revision that replay stands at, or after the snapshot's if it has read none. */
  predicate StartsAt(snapshotRev: nat, st: Recovered, base: nat) {
    base == st.journalRevision || (st.journalRevision == 0 && base == snapshotRev)
  }

  /** What replay accepts from `st` on is the records of the revisions it adds, byte for byte, and an end that reads as torn. */
  lemma {:induction false} ReplayOnly(h: Hash, snapshotRev: nat, s: bytes, st: Recovered) returns (base: nat, log: Log, torn: bytes)
    requires Replay(h, snapshotRev, s, st).Ok?
    ensures var r := Replay(h, snapshotRev, s, st).value;
            && StartsAt(snapshotRev, st, base) && ReadRecord(torn) == Torn && s == WrittenFrom(h, base, log) + torn
            && (forall i :: 0 <= i < |log| ==> AllStaged(log[i]) && KeysNulFree(log[i]))
            && r.revisions == st.revisions + RevisionsFrom(h, base, log)
            && r.journalOffset == st.journalOffset + |WrittenFrom(h, base, log)|
            && r.index == ApplyLater(st.index, base, log, snapshotRev)
            && (log == [] ==> r == st)
            && (log != [] ==>
                  r.journalRevision == base + |log| && r.currentRev == if base + |log| > snapshotRev then base + |log| else st.currentRev)
    decreases |s|
  {
    hide ReadRecord, ParseAll, Record, RawOf, Digest, EncodeAll, Apply, AllStaged, KeysNulFree, RevisionOf;
    match ReadRecord(s) {
      case Torn =>
        base, log, torn := st.journalRevision, [], s;
        assert [] + s == s;
        assert RevisionsFrom(h, base, log) == [] && st.revisions + [] == st.revisions;
      case Complete(raw, rest) =>
        base := Follows(raw, snapshotRev, st.journalRevision);
        var ms := ParseAll(h, raw.payload, raw.count).value;
        var next := Accept(st, raw, ms, snapshotRev);
        RecordOnly(h, s, base);
        RawFields(h, base, ms);
        RecordSize(h, base, ms);
        var after, more, end := ReplayOnly(h, snapshotRev, rest, next);
        assert after == base + 1 by { assert next.journalRevision == base + 1; }
        log, torn := [ms] + more, end;
        assert log[1..] == more;
        Assoc(Record(h, base, ms), WrittenFrom(h, base + 1, more), end);
        RevisionsShift(h, base, ms, more, st.revisions);
    }
  }

  lemma RawFields(h: Hash, base: nat, ms: seq<Mutation>)
    ensures var raw := RawOf(h, base, ms);
            raw.revision == base + 1 && raw.payload == EncodeAll(h, ms) && Revision(base + 1, ms, raw.digest) == RevisionOf(h, base, ms)
  {
    hide Digest, EncodeAll;
  }

  lemma RevisionsShift(h: Hash, base: nat, ms: seq<Mutation>, more: Log, before: seq<Revision>)
    ensures before + [RevisionOf(h, base, ms)] + RevisionsFrom(h, base + 1, more) == before + RevisionsFrom(h, base, [ms] + more)
  {
    hide RevisionOf;
    var log := [ms] + more;
    assert RevisionsFrom(h, base, log) == [RevisionOf(h, base, ms)] + RevisionsFrom(h, base + 1, more);
  }

  /**
   What replay accepts of a store without a snapshot is, byte for byte, the journal of a log followed by an end that reads as
   torn: the revisions are those of the log, and the index is what its batches make of an empty one.
   */
  lemma ReplayAccepts(h: Hash, s: bytes, r: Recovered) returns (log: Log, torn: bytes)
    requires Replay(h, 0, s, Recovered(0, false, map[], [], 0, 0)) == Ok(r)
    ensures s == JournalOf(h, log, 0) + torn && ReadRecord(torn) == Torn
    ensures r.journalOffset == |JournalOf(h, log, 0)| && r.journalRevision == r.currentRev == |log|
    ensures r.revisions == RevisionsOf(h, log, 0) && r.index == Fold(log, |log|)
    ensures forall i :: 0 <= i < |log| ==> AllStaged(log[i]) && KeysNulFree(log[i])
  {
    hide ReadRecord, Record, RevisionOf, AllStaged, KeysNulFree, Replay, Apply;
    var base;
    base, log, torn := ReplayOnly(h, 0, s, Recovered(0, false, map[], [], 0, 0));
    assert log[0..] == log;
    WrittenIsJournal(h, log, 0);
    assert RevisionsFrom(h, 0, log) == RevisionsOf(h, log, 0);
    assert [] + RevisionsFrom(h, 0, log) == RevisionsFrom(h, 0, log);
    FoldIsApplied(log, 0);
  }

  lemma {:induction false} FoldIsApplied(log: Log, n: nat)
    requires n <= |log|
    ensures ApplyLater(Fold(log, n), n, log[n..], 0) == Fold(log, |log|)
    decreases |log| - n
  {
    hide Apply;
    if n < |log| {
      FoldIsApplied(log, n + 1);
      assert log[n..][1..] == log[n + 1..];
    }
  }
}
