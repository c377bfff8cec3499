/** The store over its JSON codec: runs in which values that were committed stop it. */
module JsonRuns {
  import opened Bytes
  import opened Journal
  import Payload
  import opened Json
  import opened JsonData
  import opened JsonPut
  import opened JsonStore
  import opened JsonText
  import opened LostStores
  import opened Recovery
  import opened Snapshots
  import Scan
  import Utf8

  /** A string of as many letters `a`. */
  function Letters(n: nat): (t: bytes)
    ensures |t| == n && forall i :: 0 <= i < n ==> t[i] == 97
  {
    seq(n, i => 97)
  }

  lemma LettersQuoted(n: nat)
    ensures TextOk(Letters(n)) && |Quoted(Letters(n))| == n + 2
  {
    var t := Letters(n);
    Utf8.AsciiValid(t);
    EscapeRaw(t, n);
    assert t[..n] == t && t[n..] == [] && Escape([]) == [] && t + [] == t;
  }

  /** Two strings of 150 MiB that are committed, and then snapshotted or compacted, leave a store that never opens again. */
  lemma LongStringsLoseStore(h: Payload.Hash, p: Printer, heap: Heap)
    requires Lawful(p) && heap.document(Object([])) && heap.shelf({A}) && heap.shelf({A, B})
    requires heap.value(Text(Letters(150 * 1024 * 1024 - 2)))
    ensures var (c, data) := (JsonCanon(p, heap), Quoted(Letters(150 * 1024 * 1024 - 2)));
            var s1 := PutCommit(h, c, Next(h, c, EMPTY, Open(Replaced)).0, A, data);
            var s2 := PutCommit(h, c, s1, B, data);
            && OpenStep(h, c, s2.disk, Replaced).1 == Ok(2)
            && (var (s3, r) := Next(h, c, s2, Snapshot(Replaced, Replaced));
                r == Ok(2) && OpenStep(h, c, s3.disk, Replaced).1.Err?)
            && (var (s4, r) := Next(h, c, s2, Compact(0, Replaced, Replaced, Replaced, Truncated));
                r == Ok(2) && OpenStep(h, c, s4.disk, Replaced).1.Err?)
  {
    hide *;
    var n: nat := 150 * 1024 * 1024 - 2;
    LettersQuoted(n);
    StringSettled(p, heap, Letters(n));
    JsonFaithful(p, heap);
    Settled(p, heap, Quoted(Letters(n)));
    LargeSnapshotLosesStore(h, JsonCanon(p, heap), Quoted(Letters(n)));
  }

  lemma Settled(p: Printer, heap: Heap, s: bytes)
    requires Written(p, s) && Form(p, heap, s) == Ok(s) && 0 !in s && heap.shelf({A}) && heap.shelf({A, B})
    ensures Steady(JsonCanon(p, heap), s) && Shelved(JsonCanon(p, heap))
  {
    hide Written, Form;
  }

  /** While a value nested deeper than 128 is in the store, every snapshot of it fails, and with it every full compaction. */
  lemma DeepValueStopsSnapshots(p: Printer, heap: Heap, index: Index, key: bytes, depth: nat)
    requires Lawful(p) && DATA_DEPTH < depth <= MAX_DEPTH && key in index && index[key] == Write(p, Nested(depth))
    ensures Encode(p, Nested(depth)) == Ok(index[key])
    ensures Dump(JsonCanon(p, heap), index).Err?
  {
    hide Encode, Write, Lawful, Form, Depth, Sorted, Good, Formed, Scan.Order;
    Puts(p, Nested(depth));
    FormWritten(p, heap, Nested(depth));
    assert JsonCanon(p, heap).form(index[key]) == Form(p, heap, index[key]);
    FormedAll(JsonCanon(p, heap), index, Scan.Order(index.Keys));
  }
}
