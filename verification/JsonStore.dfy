/** The value codec that the store uses, made of the JSON encoder and its two decoders. */
module JsonStore {
  import opened Bytes
  import opened Journal
  import opened Json
  import opened JsonData
  import opened JsonPut
  import opened JsonText
  import opened Seqs
  import Scan
  import Snapshots

  /**
   The 256 MiB that decoding may fill: which values fit when `json_parse` reads them and when `decode_document` does,
   and which keys fit as the map of a snapshot.
   */
  datatype Heap = Heap(value: Json -> bool, document: Json -> bool, shelf: set<bytes> -> bool)

  ghost predicate Written(p: Printer, s: bytes) { exists v :: Good(v) && Encode(p, v) == Ok(s) }

  /** `decode_bytes`, and `encode_value` of what it gives. */
  function Form(p: Printer, heap: Heap, s: bytes): Result<bytes> {
    var v := ParseText(p, s);
    if v.Err? then Err(v.error) else
    if !heap.value(v.value) then Err(Oom) else Encode(p, v.value)
  }

  /** What `load_snapshot` puts into the index, or its first error. */
  function LoadEntries(p: Printer, entries: seq<Entry>): Result<Index> {
    if entries == [] then Ok(map[]) else
    var n := |entries| - 1;
    var rest := LoadEntries(p, entries[..n]);
    if rest.Err? then rest else
    var data := Encode(p, entries[n].value);
    if data.Err? then Err(data.error) else Ok(rest.value[entries[n].key := data.value])
  }

  function Load(p: Printer, heap: Heap, text: bytes): Result<Index> {
    var v := Decode(p, text);
    if v.Err? then Err(v.error) else
    if !heap.document(v.value) then Err(Oom) else
    if !v.value.Object? then Err(Corruption) else LoadEntries(p, v.value.entries)
  }

  /** The value that a text stands for. */
  function Held(p: Printer, s: bytes): Json {
    var v := Decode(p, s);
    if v.Ok? then v.value else Null
  }

  function HeldEntries(p: Printer, index: Index, keys: seq<bytes>): (r: seq<Entry>)
    requires forall i :: 0 <= i < |keys| ==> keys[i] in index
    ensures |r| == |keys| && forall i :: 0 <= i < |r| ==> r[i] == Entry(keys[i], Held(p, index[keys[i]]))
  {
    if keys == [] then [] else [Entry(keys[0], Held(p, index[keys[0]]))] + HeldEntries(p, index, keys[1..])
  }

  /** The map that an index stands for. */
  function Map(p: Printer, index: Index): Json { Object(HeldEntries(p, index, Scan.Order(index.Keys))) }

  ghost function JsonCanon(p: Printer, heap: Heap): Snapshots.Canon {
    Snapshots.Canon(
      s => Written(p, s), s => Form(p, heap, s), s => Load(p, heap, s), heap.shelf, index => heap.document(Map(p, index)))
  }

  // ----- stored text

  /** What a stored text gives when it is read: the value that wrote it, if it fits. */
  lemma FormWritten(p: Printer, heap: Heap, v: Json)
    requires Lawful(p) && Good(v) && Encode(p, v).Ok?
    ensures Form(p, heap, Encode(p, v).value)
         == if Depth(v) > DATA_DEPTH then Err(Limit)
            else if !heap.value(Kept(p, Sorted(v))) then Err(Oom) else Ok(Write(p, Kept(p, Sorted(v))))
  {
    hide Encode, ParseText, Sorted, Write, Lawful, Kept, Depth, Good, InOrder;
    PutGet(p, v);
    if Depth(v) <= DATA_DEPTH {
      GetPutSettles(p, v);
    }
  }

  lemma FormSettles(p: Printer, heap: Heap, s: bytes)
    requires Lawful(p) && Written(p, s) && Form(p, heap, s).Ok?
    ensures var t := Form(p, heap, s).value; Written(p, t) && Form(p, heap, t) == Ok(t)
  {
    hide Encode, ParseText, Sorted, Write, Lawful, Kept, Depth, Good, InOrder, Form;
    var v :| Good(v) && Encode(p, v) == Ok(s);
    FormWritten(p, heap, v);
    GetPutSettles(p, v);
    var u := Kept(p, Sorted(v));
    InOrderGood(u);
    FormIs(p, heap, Write(p, u), u);
  }

  lemma FormIs(p: Printer, heap: Heap, s: bytes, v: Json)
    requires ParseText(p, s) == Ok(v) && heap.value(v)
    ensures Form(p, heap, s) == Encode(p, v)
  {
    hide ParseText, Encode;
  }

  /** What is in order is good. */
  lemma {:induction false} InOrderGood(v: Json)
    requires InOrder(v)
    ensures Good(v)
    decreases v
  {
    hide TextOk, Scan.Less;
    match v
    case List(items) =>
      forall i | 0 <= i < |items| ensures Good(items[i]) { InOrderGood(items[i]); }
    case Object(entries) =>
      forall i | 0 <= i < |entries| ensures Good(entries[i].value) { InOrderGood(entries[i].value); }
      forall i, j | 0 <= i < j < |entries| ensures entries[i].key != entries[j].key { Scan.LessTotal(entries[i].key, entries[j].key); }
    case _ =>
  }

  /** A settled text stands for a value in order that is written as that text. */
  lemma HeldWrites(p: Printer, heap: Heap, s: bytes)
    requires Lawful(p) && Written(p, s) && Form(p, heap, s) == Ok(s)
    ensures var v := Held(p, s); InOrder(v) && Write(p, v) == s && Encode(p, v) == Ok(s)
  {
    hide Encode, Decode, Sorted, Write, Lawful, Kept, Depth, Good, InOrder, Form;
    var v :| Good(v) && Encode(p, v) == Ok(s);
    FormWritten(p, heap, v);
    RoundTrip(p, v);
    SortedInOrder(v);
    Puts(p, v);
  }

  // ----- snapshots

  lemma {:induction false} EntriesWritten(p: Printer, index: Index, keys: seq<bytes>)
    requires forall i :: 0 <= i < |keys| ==> keys[i] in index && Write(p, Held(p, index[keys[i]])) == index[keys[i]]
    ensures Snapshots.EntriesText(index, keys) == WriteEntries(p, HeldEntries(p, index, keys))
    decreases |keys|
  {
    hide Write, Held, Quoted;
    if keys != [] {
      EntriesWritten(p, index, keys[1..]);
      assert HeldEntries(p, index, keys)[1..] == HeldEntries(p, index, keys[1..]);
    }
  }

  lemma {:induction false} EntriesLoad(p: Printer, index: Index, keys: seq<bytes>)
    requires forall i :: 0 <= i < |keys| ==> keys[i] in index && Encode(p, Held(p, index[keys[i]])) == Ok(index[keys[i]])
    ensures var r := LoadEntries(p, HeldEntries(p, index, keys));
            r.Ok? && (forall k :: k in r.value <==> k in keys) && forall k :: k in r.value ==> r.value[k] == index[k]
    decreases |keys|
  {
    hide *;
    var entries := HeldEntries(p, index, keys);
    if keys == [] {
      LoadNothing(p);
    } else {
      var n := |keys| - 1;
      var before := keys[..n];
      EntriesLoad(p, index, before);
      assert entries[..n] == HeldEntries(p, index, before);
      assert entries[n].value == Held(p, index[keys[n]]);
      LoadLast(p, entries, index[keys[n]]);
      forall k ensures k in keys <==> k in before || k == keys[n] {
        assert keys == before + [keys[n]];
      }
    }
  }

  lemma LoadNothing(p: Printer)
    ensures LoadEntries(p, []) == Ok(map[])
  {}

  lemma LoadLast(p: Printer, entries: seq<Entry>, data: bytes)
    requires entries != []
    requires var n := |entries| - 1; LoadEntries(p, entries[..n]).Ok? && Encode(p, entries[n].value) == Ok(data)
    ensures var n := |entries| - 1;
            LoadEntries(p, entries) == Ok(LoadEntries(p, entries[..n]).value[entries[n].key := data])
  {
    hide Encode;
  }

  lemma AllHeld(p: Printer, heap: Heap, index: Index)
    requires Lawful(p) && Snapshots.Canonical(JsonCanon(p, heap), index)
    ensures forall k :: k in index ==> var v := Held(p, index[k]);
              TextOk(k) && InOrder(v) && Write(p, v) == index[k] && Encode(p, v) == Ok(index[k])
  {
    hide Write, Encode, Held, Lawful, Form, InOrder, Written, TextOk;
    forall k | k in index ensures var v := Held(p, index[k]); TextOk(k) && InOrder(v) && Write(p, v) == index[k] && Encode(p, v) == Ok(index[k]) {
      HeldWrites(p, heap, index[k]);
    }
  }

  /** The text of a snapshot is the map it stands for, written. */
  lemma MapText(p: Printer, index: Index)
    requires forall k :: k in index ==> Write(p, Held(p, index[k])) == index[k]
    ensures Snapshots.SnapshotText(index) == [OPEN_OBJECT] + (WriteEntries(p, HeldEntries(p, index, Scan.Order(index.Keys))) + [CLOSE_OBJECT])
  {
    hide Write, Held, WriteEntries, HeldEntries, Scan.Order;
    EntriesWritten(p, index, Scan.Order(index.Keys));
  }

  lemma SnapshotLoads(p: Printer, heap: Heap, index: Index)
    requires Lawful(p) && Snapshots.Canonical(JsonCanon(p, heap), index)
    ensures Load(p, heap, Snapshots.SnapshotText(index)) == if heap.document(Map(p, index)) then Ok(index) else Err(Oom)
  {
    hide *;
    var keys := Scan.Order(index.Keys);
    var entries := HeldEntries(p, index, keys);
    AllHeld(p, heap, index);
    MapText(p, index);
    KeysAscend(keys, entries) by { Scan.OrderAscending(index.Keys); }
    MapReads(p, entries);
    EntriesLoad(p, index, keys);
    assert LoadEntries(p, entries).value == index;
    LoadMap(p, heap, index, entries);
  }

  lemma KeysAscend(keys: seq<bytes>, entries: seq<Entry>)
    requires Scan.Ascending(keys) && |entries| == |keys| && forall i :: 0 <= i < |keys| ==> entries[i].key == keys[i]
    ensures Ascending(entries)
  {
    hide Scan.Less;
  }

  lemma LoadMap(p: Printer, heap: Heap, index: Index, entries: seq<Entry>)
    requires entries == HeldEntries(p, index, Scan.Order(index.Keys))
    requires Decode(p, Snapshots.SnapshotText(index)) == Ok(Object(entries)) && LoadEntries(p, entries) == Ok(index)
    ensures Load(p, heap, Snapshots.SnapshotText(index)) == if heap.document(Map(p, index)) then Ok(index) else Err(Oom)
  {
    hide Decode, LoadEntries, HeldEntries, Scan.Order, Snapshots.SnapshotText;
  }

  lemma MapReads(p: Printer, entries: seq<Entry>)
    requires Lawful(p) && Ascending(entries) && forall i :: 0 <= i < |entries| ==> TextOk(entries[i].key) && InOrder(entries[i].value)
    ensures Decode(p, [OPEN_OBJECT] + (WriteEntries(p, entries) + [CLOSE_OBJECT])) == Ok(Object(entries))
  {
    hide ReadValue, WriteEntries, Lawful, TextOk, Ascending;
    var v := Object(entries);
    ValueRead(p, v, []);
    assert Write(p, v) + [] == Write(p, v);
    SkipNone([]);
  }

  /** The store's codec is faithful, whatever fits its heaps. */
  lemma JsonFaithful(p: Printer, heap: Heap)
    requires Lawful(p) && heap.document(Object([]))
    ensures Snapshots.Faithful(JsonCanon(p, heap))
  {
    hide Lawful, Form, Written, Load, Map;
    var c := JsonCanon(p, heap);
    NothingMapped(p);
    forall s {:trigger c.form(s)} | c.written(s) && c.form(s).Ok?
      ensures c.written(c.form(s).value) && c.form(c.form(s).value) == c.form(s)
    {
      FormSettles(p, heap, s);
    }
    forall index {:trigger c.room(index)} | Snapshots.Canonical(c, index)
      ensures c.load(Snapshots.SnapshotText(index)) == if c.room(index) then Ok(index) else Err(Oom)
    {
      SnapshotLoads(p, heap, index);
    }
  }

  lemma NothingMapped(p: Printer)
    ensures Map(p, map[]) == Object([])
  {
    var nothing: Index := map[];
    assert nothing.Keys == {};
  }

  /** A string that fits the heap is read back and written the same. */
  lemma StringSettled(p: Printer, heap: Heap, t: bytes)
    requires Lawful(p) && TextOk(t) && heap.value(Text(t))
    ensures Written(p, Quoted(t)) && Form(p, heap, Quoted(t)) == Ok(Quoted(t)) && 0 !in Quoted(t)
  {
    hide Lawful, ParseText, Fault, TextOk, Quoted;
    var v := Text(t);
    assert Good(v) && Encode(p, v) == Ok(Quoted(t)) by { assert Fault(v, 0) == None by { NoFault(t); } }
    FormWritten(p, heap, v);
    EncodedNoNul(p, v);
  }

  lemma NoFault(t: bytes)
    requires TextOk(t)
    ensures Fault(Text(t), 0) == None
  {}
}
