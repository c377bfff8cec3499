/** Canonical JSON of values (`encode_value_into`, `parse_value` and `decode_document` in `codec.rs`). */
module Json {
  import opened Bytes
  import opened Seqs
  import opened JsonText
  import Scan
  import Utf8

  /** A finite double is known by its number among them; a map keeps its entries in the order they were set. */
  datatype Json =
    | Null
    | Flag(b: bool)
    | Number(n: nat)
    | Text(s: bytes)
    | List(items: seq<Json>)
    | Object(entries: seq<Entry>)

  datatype Entry = Entry(key: bytes, value: Json)

  /** How numbers print (`format_17g`) and what the digits that were scanned stand for. */
  datatype Printer = Printer(show: nat -> bytes, read: bytes -> Option<nat>)

  /** Printed numbers look like JSON numbers and read back as themselves. */
  ghost predicate Lawful(p: Printer) {
    forall n: nat :: NumberText(p.show(n)) && Strict(p.show(n)) && TextOk(p.show(n)) && p.read(p.show(n)) == Some(n)
  }

  const MAX_DEPTH := 256

  const OPEN_LIST: byte := 91
  const CLOSE_LIST: byte := 93
  const OPEN_OBJECT: byte := 123
  const CLOSE_OBJECT: byte := 125
  const COMMA: byte := 44
  const COLON: byte := 58

  const NULL: bytes := [110, 117, 108, 108]
  const TRUE: bytes := [116, 114, 117, 101]
  const FALSE: bytes := [102, 97, 108, 115, 101]

  // ----- the order of keys

  function InsertEntry(e: Entry, entries: seq<Entry>): (r: seq<Entry>)
    ensures |r| == |entries| + 1
  {
    if entries == [] || !Scan.Less(entries[0].key, e.key) then [e] + entries
    else [entries[0]] + InsertEntry(e, entries[1..])
  }

  /** The entries in the order of their keys; equal keys keep their order. */
  function SortEntries(entries: seq<Entry>): (r: seq<Entry>)
    ensures |r| == |entries|
  {
    if entries == [] then [] else InsertEntry(entries[0], SortEntries(entries[1..]))
  }

  /** The value with the entries of every map in the order of their keys. */
  function Sorted(v: Json): Json {
    match v
    case List(items) => List(SortedItems(items))
    case Object(entries) => Object(SortEntries(SortedEntries(entries)))
    case _ => v
  }

  function SortedItems(items: seq<Json>): (r: seq<Json>)
    ensures |r| == |items|
  {
    if items == [] then [] else [Sorted(items[0])] + SortedItems(items[1..])
  }

  function SortedEntries(entries: seq<Entry>): (r: seq<Entry>)
    ensures |r| == |entries|
  {
    if entries == [] then [] else [Entry(entries[0].key, Sorted(entries[0].value))] + SortedEntries(entries[1..])
  }

  predicate Ascending(entries: seq<Entry>) { forall i, j :: 0 <= i < j < |entries| ==> Scan.Less(entries[i].key, entries[j].key) }

  predicate DistinctKeys(entries: seq<Entry>) { forall i, j :: 0 <= i < j < |entries| ==> entries[i].key != entries[j].key }

  // ----- writing

  /** The first fault that writing a value in order meets: too deep, or a NUL in a string. */
  function Fault(v: Json, depth: nat): Option<Error> {
    if depth > MAX_DEPTH then Some(Limit) else
    match v
    case Text(s) => if 0 in s then Some(Schema) else None
    case List(items) => FaultItems(items, depth + 1)
    case Object(entries) => FaultEntries(entries, depth + 1)
    case _ => None
  }

  function FaultItems(items: seq<Json>, depth: nat): Option<Error> {
    if items == [] then None else
    var first := Fault(items[0], depth);
    if first.Some? then first else FaultItems(items[1..], depth)
  }

  function FaultEntries(entries: seq<Entry>, depth: nat): Option<Error> {
    if entries == [] then None else
    if 0 in entries[0].key then Some(Schema) else
    var first := Fault(entries[0].value, depth);
    if first.Some? then first else FaultEntries(entries[1..], depth)
  }

  /** The text of a value whose maps are in order. */
  function Write(p: Printer, v: Json): bytes {
    match v
    case Null => NULL
    case Flag(b) => if b then TRUE else FALSE
    case Number(n) => p.show(n)
    case Text(s) => Quoted(s)
    case List(items) => [OPEN_LIST] + (WriteItems(p, items) + [CLOSE_LIST])
    case Object(entries) => [OPEN_OBJECT] + (WriteEntries(p, entries) + [CLOSE_OBJECT])
  }

  function WriteItems(p: Printer, items: seq<Json>): bytes {
    if items == [] then []
    else if |items| == 1 then Write(p, items[0])
    else Write(p, items[0]) + ([COMMA] + WriteItems(p, items[1..]))
  }

  function WriteEntry(p: Printer, e: Entry): bytes { Quoted(e.key) + ([COLON] + Write(p, e.value)) }

  function WriteEntries(p: Printer, entries: seq<Entry>): bytes {
    if entries == [] then []
    else if |entries| == 1 then WriteEntry(p, entries[0])
    else WriteEntry(p, entries[0]) + ([COMMA] + WriteEntries(p, entries[1..]))
  }

  /** `encode_value` */
  function Encode(p: Printer, v: Json): Result<bytes> {
    var fault := Fault(Sorted(v), 0);
    if fault.Some? then Err(fault.value) else Ok(Write(p, Sorted(v)))
  }

  // ----- reading

  predicate Space(b: byte) { b == 32 || b == 9 || b == 10 || b == 12 || b == 13 }

  function Skip(s: bytes): (r: bytes)
    ensures |r| <= |s|
  {
    if s != [] && Space(s[0]) then Skip(s[1..]) else s
  }

  predicate Starts(s: bytes, b: byte) { s != [] && s[0] == b }

  /** The value that a text starts with, and what follows it. */
  function ReadValue(p: Printer, text: bytes): (r: Result<(Json, bytes)>)
    ensures r.Ok? ==> |r.value.1| < |text|
    ensures r.Err? ==> r.error == Error.Parse || r.error == Schema
    decreases |text|, 0
  {
    var s := Skip(text);
    if s == [] then Err(Error.Parse)
    else if s[0] == QUOTE then
      var t := ReadString(s[1..]);
      if t.Err? then Err(t.error) else Ok((Text(t.value.0), t.value.1))
    else if NULL <= s then Ok((Null, s[4..]))
    else if TRUE <= s then Ok((Flag(true), s[4..]))
    else if FALSE <= s then Ok((Flag(false), s[5..]))
    else if s[0] == OPEN_LIST then
      var t := Skip(s[1..]);
      if Starts(t, CLOSE_LIST) then Ok((List([]), t[1..])) else
      var items := ParseItems(p, t);
      if items.Err? then Err(items.error) else Ok((List(items.value.0), items.value.1))
    else if s[0] == OPEN_OBJECT then
      var t := Skip(s[1..]);
      if Starts(t, CLOSE_OBJECT) then Ok((Object([]), t[1..])) else
      var entries := ParseEntries(p, t, {});
      if entries.Err? then Err(entries.error) else Ok((Object(entries.value.0), entries.value.1))
    else ParseNumber(p, s)
  }

  function ParseNumber(p: Printer, s: bytes): (r: Result<(Json, bytes)>)
    requires s != []
    ensures r.Ok? ==> |r.value.1| < |s| && r.value.0.Number?
    ensures r.Err? ==> r.error == Error.Parse
  {
    var length := NumberLength(s);
    if length.None? || length.value == 0 || length.value > |s| then Err(Error.Parse) else
    var n := p.read(s[..length.value]);
    if n.None? then Err(Error.Parse) else Ok((Number(n.value), s[length.value..]))
  }

  /** The items up to the closing bracket. */
  function ParseItems(p: Printer, s: bytes): (r: Result<(seq<Json>, bytes)>)
    ensures r.Ok? ==> |r.value.1| < |s|
    ensures r.Err? ==> r.error == Error.Parse || r.error == Schema
    decreases |s|, 1
  {
    var item := ReadValue(p, s);
    if item.Err? then Err(item.error) else
    var t := Skip(item.value.1);
    if Starts(t, CLOSE_LIST) then Ok(([item.value.0], t[1..]))
    else if !Starts(t, COMMA) then Err(Error.Parse)
    else
      var rest := ParseItems(p, t[1..]);
      if rest.Err? then rest else Ok(([item.value.0] + rest.value.0, rest.value.1))
  }

  /** One entry: its key is a string, not one of those seen. */
  function ParseEntry(p: Printer, s: bytes, seen: set<bytes>): (r: Result<(Entry, bytes)>)
    ensures r.Ok? ==> |r.value.1| < |s|
    ensures r.Err? ==> r.error == Error.Parse || r.error == Schema
    decreases |s|, 1
  {
    var key := ReadValue(p, s);
    if key.Err? then Err(key.error) else
    if !key.value.0.Text? then Err(Schema) else
    var t := Skip(key.value.1);
    if !Starts(t, COLON) then Err(Error.Parse) else
    var value := ReadValue(p, t[1..]);
    if value.Err? then Err(value.error) else
    if key.value.0.s in seen then Err(Schema) else Ok((Entry(key.value.0.s, value.value.0), value.value.1))
  }

  function ParseEntries(p: Printer, s: bytes, seen: set<bytes>): (r: Result<(seq<Entry>, bytes)>)
    ensures r.Ok? ==> |r.value.1| < |s|
    ensures r.Err? ==> r.error == Error.Parse || r.error == Schema
    decreases |s|, 2
  {
    var entry := ParseEntry(p, s, seen);
    if entry.Err? then Err(entry.error) else
    var t := Skip(entry.value.1);
    if Starts(t, CLOSE_OBJECT) then Ok(([entry.value.0], t[1..]))
    else if !Starts(t, COMMA) then Err(Error.Parse)
    else
      var rest := ParseEntries(p, t[1..], seen + {entry.value.0.key});
      if rest.Err? then rest else Ok(([entry.value.0] + rest.value.0, rest.value.1))
  }

  /** `decode_document`: one value and nothing but white space after it. */
  function Decode(p: Printer, text: bytes): Result<Json> {
    var v := ReadValue(p, text);
    if v.Err? then Err(v.error) else if Skip(v.value.1) == [] then Ok(v.value.0) else Err(Error.Parse)
  }

  // ----- values as the runtime holds them

  /** Strings are well formed and free of NUL; maps have no key twice. */
  predicate Good(v: Json) {
    match v
    case Text(s) => TextOk(s)
    case List(items) => forall i :: 0 <= i < |items| ==> Good(items[i])
    case Object(entries) => DistinctKeys(entries) && forall i :: 0 <= i < |entries| ==> TextOk(entries[i].key) && Good(entries[i].value)
    case _ => true
  }

  /** The same, with the entries of every map in order. */
  predicate InOrder(v: Json) {
    match v
    case Text(s) => TextOk(s)
    case List(items) => forall i :: 0 <= i < |items| ==> InOrder(items[i])
    case Object(entries) => Ascending(entries) && forall i :: 0 <= i < |entries| ==> TextOk(entries[i].key) && InOrder(entries[i].value)
    case _ => true
  }

  // ----- reading what was written

  /** A value's text starts with a byte that is neither space nor a delimiter. */
  lemma WriteStarts(p: Printer, v: Json)
    requires Lawful(p)
    ensures var s := Write(p, v); s != [] && !Space(s[0]) && s[0] != CLOSE_LIST && s[0] != CLOSE_OBJECT
  {
    hide WriteItems, WriteEntries, Escape, NumberLength;
    match v
    case Number(n) => assert NumberText(p.show(n));
    case List(items) => assert Write(p, v)[0] == OPEN_LIST;
    case Object(entries) => assert Write(p, v)[0] == OPEN_OBJECT;
    case Text(t) => assert Write(p, v)[0] == QUOTE;
    case _ =>
  }

  lemma SkipNone(s: bytes)
    requires s == [] || !Space(s[0])
    ensures Skip(s) == s
  {}

  lemma WordRead(p: Printer, v: Json, rest: bytes)
    requires v.Null? || v.Flag?
    ensures ReadValue(p, Write(p, v) + rest) == Ok((v, rest))
  {
    var s := Write(p, v) + rest;
    Peel(Write(p, v), rest);
    assert s[0] == Write(p, v)[0] && s[1] == Write(p, v)[1];
    SkipNone(s);
    if v.Null? {
      assert NULL <= s;
    } else if v.b {
      assert TRUE <= s;
    } else {
      assert FALSE <= s;
    }
  }

  lemma TextRead(p: Printer, t: bytes, rest: bytes)
    requires TextOk(t)
    ensures ReadValue(p, Quoted(t) + rest) == Ok((Text(t), rest))
  {
    hide Escape, ReadString, Utf8.Valid;
    StringRead(t, rest);
    var inner := Escape(t) + ([QUOTE] + rest);
    Nest3([QUOTE], Escape(t), [QUOTE], rest);
    var s := Quoted(t) + rest;
    assert s[0] == QUOTE && s[1..] == inner;
    SkipNone(s);
  }

  lemma NumberRead(p: Printer, n: nat, rest: bytes)
    requires Lawful(p) && Delimited(rest)
    ensures ReadValue(p, p.show(n) + rest) == Ok((Number(n), rest))
  {
    hide NumberLength;
    var t := p.show(n);
    var s := t + rest;
    assert NumberText(t);
    NumberBefore(t, rest);
    Peel(t, rest);
    assert s[0] == t[0];
    SkipNone(s);
    assert !(NULL <= s) && !(TRUE <= s) && !(FALSE <= s);
  }

  /** Every value in order reads back from its text. */
  lemma {:induction false} ValueRead(p: Printer, v: Json, rest: bytes)
    requires Lawful(p) && InOrder(v) && (v.Number? ==> Delimited(rest))
    ensures ReadValue(p, Write(p, v) + rest) == Ok((v, rest))
    decreases v
  {
    hide Write, ReadValue, Lawful, TextOk, Quoted;
    match v
    case Null => WordRead(p, v, rest);
    case Flag(_) => WordRead(p, v, rest);
    case Number(n) => NumberRead(p, n, rest); WriteNumber(p, n);
    case Text(t) => TextRead(p, t, rest); WriteText(p, t);
    case List(items) =>
      if items == [] {
        EmptyListRead(p, rest);
      } else {
        ItemsRead(p, items, rest);
        ListRead(p, items, rest);
      }
    case Object(entries) =>
      if entries == [] {
        EmptyObjectRead(p, rest);
      } else {
        EntriesRead(p, entries, rest, {});
        ObjectRead(p, entries, rest);
      }
  }

  lemma WriteNumber(p: Printer, n: nat)
    ensures Write(p, Number(n)) == p.show(n)
  {}

  lemma WriteText(p: Printer, t: bytes)
    ensures Write(p, Text(t)) == Quoted(t)
  {}

  lemma EmptyListRead(p: Printer, rest: bytes)
    ensures ReadValue(p, Write(p, List([])) + rest) == Ok((List([]), rest))
  {
    var s := Write(p, List([])) + rest;
    assert Write(p, List([])) == [OPEN_LIST, CLOSE_LIST] by { assert WriteItems(p, []) == [] && [] + [CLOSE_LIST] == [CLOSE_LIST]; }
    assert s == [OPEN_LIST, CLOSE_LIST] + rest && s[1..] == [CLOSE_LIST] + rest && ([CLOSE_LIST] + rest)[1..] == rest;
    SkipNone(s);
    SkipNone(s[1..]);
    assert s[0] == OPEN_LIST && !(NULL <= s) && !(TRUE <= s) && !(FALSE <= s);
  }

  lemma EmptyObjectRead(p: Printer, rest: bytes)
    ensures ReadValue(p, Write(p, Object([])) + rest) == Ok((Object([]), rest))
  {
    var s := Write(p, Object([])) + rest;
    assert Write(p, Object([])) == [OPEN_OBJECT, CLOSE_OBJECT] by { assert WriteEntries(p, []) == [] && [] + [CLOSE_OBJECT] == [CLOSE_OBJECT]; }
    assert s == [OPEN_OBJECT, CLOSE_OBJECT] + rest && s[1..] == [CLOSE_OBJECT] + rest && ([CLOSE_OBJECT] + rest)[1..] == rest;
    SkipNone(s);
    SkipNone(s[1..]);
    assert s[0] == OPEN_OBJECT && !(NULL <= s) && !(TRUE <= s) && !(FALSE <= s);
  }

  lemma ItemsStart(p: Printer, items: seq<Json>, tail: bytes)
    requires Lawful(p) && items != []
    ensures var s := WriteItems(p, items) + tail; s != [] && !Space(s[0]) && s[0] != CLOSE_LIST
  {
    hide Write, Lawful;
    WriteStarts(p, items[0]);
    assert WriteItems(p, items)[0] == Write(p, items[0])[0];
  }

  lemma ListRead(p: Printer, items: seq<Json>, rest: bytes)
    requires Lawful(p) && items != []
    requires ParseItems(p, WriteItems(p, items) + ([CLOSE_LIST] + rest)) == Ok((items, rest))
    ensures ReadValue(p, Write(p, List(items)) + rest) == Ok((List(items), rest))
  {
    hide WriteItems, ParseItems, Lawful;
    var inner := WriteItems(p, items) + ([CLOSE_LIST] + rest);
    var s := Write(p, List(items)) + rest;
    Nest3([OPEN_LIST], WriteItems(p, items), [CLOSE_LIST], rest);
    ItemsStart(p, items, [CLOSE_LIST] + rest);
    assert s[0] == OPEN_LIST && s[1..] == inner;
    SkipNone(s);
    SkipNone(inner);
    assert !(NULL <= s) && !(TRUE <= s) && !(FALSE <= s);
  }

  lemma {:induction false} ItemsRead(p: Printer, items: seq<Json>, rest: bytes)
    requires Lawful(p) && items != [] && forall i :: 0 <= i < |items| ==> InOrder(items[i])
    ensures ParseItems(p, WriteItems(p, items) + ([CLOSE_LIST] + rest)) == Ok((items, rest))
    decreases items
  {
    hide Write, ReadValue, Lawful, InOrder;
    var tail := [CLOSE_LIST] + rest;
    if |items| == 1 {
      ValueRead(p, items[0], tail);
      SkipNone(tail);
      assert tail[1..] == rest && items == [items[0]];
    } else {
      var more := WriteItems(p, items[1..]) + tail;
      ValueRead(p, items[0], [COMMA] + more);
      SkipNone([COMMA] + more);
      ItemsRead(p, items[1..], rest);
      Nest3(Write(p, items[0]), [COMMA], WriteItems(p, items[1..]), tail);
      assert ([COMMA] + more)[1..] == more && items == [items[0]] + items[1..];
    }
  }

  lemma EntriesStart(p: Printer, entries: seq<Entry>, tail: bytes)
    requires entries != []
    ensures var s := WriteEntries(p, entries) + tail; s != [] && s[0] == QUOTE
  {
    hide Write, Escape;
    assert WriteEntry(p, entries[0])[0] == QUOTE;
    assert WriteEntries(p, entries)[0] == QUOTE;
  }

  lemma ObjectRead(p: Printer, entries: seq<Entry>, rest: bytes)
    requires entries != []
    requires ParseEntries(p, WriteEntries(p, entries) + ([CLOSE_OBJECT] + rest), {}) == Ok((entries, rest))
    ensures ReadValue(p, Write(p, Object(entries)) + rest) == Ok((Object(entries), rest))
  {
    hide WriteEntries, ParseEntries;
    var inner := WriteEntries(p, entries) + ([CLOSE_OBJECT] + rest);
    var s := Write(p, Object(entries)) + rest;
    Nest3([OPEN_OBJECT], WriteEntries(p, entries), [CLOSE_OBJECT], rest);
    EntriesStart(p, entries, [CLOSE_OBJECT] + rest);
    assert s[0] == OPEN_OBJECT && s[1..] == inner;
    SkipNone(s);
    SkipNone(inner);
    assert !(NULL <= s) && !(TRUE <= s) && !(FALSE <= s);
  }

  lemma {:induction false} EntryRead(p: Printer, e: Entry, rest: bytes, seen: set<bytes>)
    requires Lawful(p) && TextOk(e.key) && InOrder(e.value) && Delimited(rest) && e.key !in seen
    ensures ParseEntry(p, WriteEntry(p, e) + rest, seen) == Ok((e, rest))
    decreases e
  {
    hide Write, ReadValue, Lawful, InOrder, TextOk, Quoted;
    var after := Write(p, e.value) + rest;
    TextRead(p, e.key, [COLON] + after);
    SkipNone([COLON] + after);
    ValueRead(p, e.value, rest);
    Nest3(Quoted(e.key), [COLON], Write(p, e.value), rest);
    assert ([COLON] + after)[1..] == after;
  }

  lemma {:induction false} EntriesRead(p: Printer, entries: seq<Entry>, rest: bytes, seen: set<bytes>)
    requires Lawful(p) && entries != [] && Ascending(entries)
    requires forall i :: 0 <= i < |entries| ==> TextOk(entries[i].key) && InOrder(entries[i].value) && entries[i].key !in seen
    ensures ParseEntries(p, WriteEntries(p, entries) + ([CLOSE_OBJECT] + rest), seen) == Ok((entries, rest))
    decreases entries
  {
    hide Lawful, InOrder, TextOk, WriteEntry, ParseEntry, Scan.Less;
    var tail := [CLOSE_OBJECT] + rest;
    if |entries| == 1 {
      EntryRead(p, entries[0], tail, seen);
      SkipNone(tail);
      assert tail[1..] == rest && entries == [entries[0]];
    } else {
      var more := WriteEntries(p, entries[1..]) + tail;
      EntryRead(p, entries[0], [COMMA] + more, seen);
      SkipNone([COMMA] + more);
      forall i | 0 <= i < |entries[1..]| ensures entries[1..][i].key !in seen + {entries[0].key} {
        assert Scan.Less(entries[0].key, entries[i + 1].key);
        Scan.LessTotal(entries[0].key, entries[0].key);
      }
      EntriesRead(p, entries[1..], rest, seen + {entries[0].key});
      Nest3(WriteEntry(p, entries[0]), [COMMA], WriteEntries(p, entries[1..]), tail);
      assert ([COMMA] + more)[1..] == more && entries == [entries[0]] + entries[1..];
    }
  }

  // ----- sorting

  lemma {:induction false} InsertMembers(e: Entry, entries: seq<Entry>)
    ensures forall x :: x in InsertEntry(e, entries) <==> x == e || x in entries
  {
    if entries != [] && Scan.Less(entries[0].key, e.key) {
      InsertMembers(e, entries[1..]);
      assert forall x :: x in entries <==> x == entries[0] || x in entries[1..];
    }
  }

  lemma {:induction false} InsertAscends(e: Entry, entries: seq<Entry>)
    requires Ascending(entries) && forall i :: 0 <= i < |entries| ==> entries[i].key != e.key
    ensures Ascending(InsertEntry(e, entries))
  {
    hide Scan.Less;
    if entries == [] {
    } else if Scan.Less(entries[0].key, e.key) {
      InsertAscends(e, entries[1..]);
      InsertMembers(e, entries[1..]);
      var rest := InsertEntry(e, entries[1..]);
      forall j | 0 <= j < |rest| ensures Scan.Less(entries[0].key, rest[j].key) {
        assert rest[j] in rest;
      }
    } else {
      Scan.LessTotal(e.key, entries[0].key);
      forall j | 0 <= j < |entries| ensures Scan.Less(e.key, entries[j].key) {
        if j > 0 { Scan.LessTransitive(e.key, entries[0].key, entries[j].key); }
      }
    }
  }

  lemma {:induction false} SortMembers(entries: seq<Entry>)
    ensures forall x :: x in SortEntries(entries) <==> x in entries
  {
    if entries != [] {
      SortMembers(entries[1..]);
      InsertMembers(entries[0], SortEntries(entries[1..]));
      assert forall x :: x in entries <==> x == entries[0] || x in entries[1..];
    }
  }

  lemma {:induction false} SortAscends(entries: seq<Entry>)
    requires DistinctKeys(entries)
    ensures Ascending(SortEntries(entries))
  {
    if entries != [] {
      SortAscends(entries[1..]);
      SortMembers(entries[1..]);
      var rest := SortEntries(entries[1..]);
      forall i | 0 <= i < |rest| ensures rest[i].key != entries[0].key {
        assert rest[i] in rest && rest[i] in entries[1..];
      }
      InsertAscends(entries[0], rest);
    }
  }

  lemma {:induction false} SortKeeps(entries: seq<Entry>)
    requires Ascending(entries)
    ensures SortEntries(entries) == entries
  {
    hide Scan.Less;
    if entries != [] {
      SortKeeps(entries[1..]);
      if |entries| > 1 {
        Scan.LessTotal(entries[0].key, entries[1].key);
      }
      assert entries == [entries[0]] + entries[1..];
    }
  }

  lemma {:induction false} SortedAt(entries: seq<Entry>)
    ensures forall i :: 0 <= i < |entries| ==> SortedEntries(entries)[i] == Entry(entries[i].key, Sorted(entries[i].value))
    decreases entries
  {
    if entries != [] { SortedAt(entries[1..]); }
  }

  lemma {:induction false} SortedItemAt(items: seq<Json>)
    ensures forall i :: 0 <= i < |items| ==> SortedItems(items)[i] == Sorted(items[i])
    decreases items
  {
    if items != [] { SortedItemAt(items[1..]); }
  }

  /** Sorting a good value puts it in order. */
  lemma {:induction false} SortedInOrder(v: Json)
    requires Good(v)
    ensures InOrder(Sorted(v))
    decreases v
  {
    hide TextOk, Ascending;
    match v
    case List(items) =>
      SortedItemAt(items);
      forall i | 0 <= i < |items| ensures InOrder(Sorted(items[i])) {
        SortedInOrder(items[i]);
      }
    case Object(entries) =>
      var es := SortedEntries(entries);
      SortedAt(entries);
      SortAscends(es);
      SortMembers(es);
      var sorted := SortEntries(es);
      forall i | 0 <= i < |es| ensures TextOk(es[i].key) && InOrder(es[i].value) {
        SortedInOrder(entries[i].value);
      }
      forall i | 0 <= i < |sorted| ensures TextOk(sorted[i].key) && InOrder(sorted[i].value) {
        assert sorted[i] in sorted && sorted[i] in es;
      }
    case _ =>
  }

  /** Sorting changes nothing that is in order. */
  lemma {:induction false} SortedKeeps(v: Json)
    requires InOrder(v)
    ensures Sorted(v) == v
    decreases v
  {
    hide TextOk, Ascending;
    match v
    case List(items) =>
      SortedItemAt(items);
      forall i | 0 <= i < |items| ensures Sorted(items[i]) == items[i] {
        SortedKeeps(items[i]);
      }
      assert SortedItems(items) == items;
    case Object(entries) =>
      SortedAt(entries);
      forall i | 0 <= i < |entries| ensures Sorted(entries[i].value) == entries[i].value {
        SortedKeeps(entries[i].value);
      }
      assert SortedEntries(entries) == entries;
      SortKeeps(entries);
    case _ =>
  }

  // ----- the theorems

  /**
   Every value of well-formed strings that encodes decodes to itself with the entries of its maps in order,
   and encodes to the same bytes again.
   */
  lemma RoundTrip(p: Printer, v: Json)
    requires Lawful(p) && Good(v) && Encode(p, v).Ok?
    ensures Decode(p, Encode(p, v).value) == Ok(Sorted(v))
    ensures Encode(p, Sorted(v)) == Encode(p, v)
  {
    hide Write, ReadValue, Sorted, Good, InOrder, Fault, Lawful;
    SortedInOrder(v);
    SortedKeeps(Sorted(v));
    ValueRead(p, Sorted(v), []);
    assert Write(p, Sorted(v)) + [] == Write(p, Sorted(v));
    SkipNone([]);
  }

  /** What reading yields is a good value. */
  lemma {:induction false} ParsedGood(p: Printer, text: bytes)
    requires ReadValue(p, text).Ok?
    ensures Good(ReadValue(p, text).value.0)
    decreases |text|, 0
  {
    hide TextOk, ReadString, NumberLength, ParseItems, ParseEntries, ParseNumber;
    var s := Skip(text);
    if s[0] == QUOTE {
      ReadStringOk(s[1..]);
    } else if s[0] == OPEN_LIST && !(NULL <= s) && !(TRUE <= s) && !(FALSE <= s) {
      var t := Skip(s[1..]);
      if !Starts(t, CLOSE_LIST) {
        ItemsGood(p, t);
      }
    } else if s[0] == OPEN_OBJECT && !(NULL <= s) && !(TRUE <= s) && !(FALSE <= s) {
      var t := Skip(s[1..]);
      if !Starts(t, CLOSE_OBJECT) {
        EntriesGood(p, t, {});
      }
    }
  }

  lemma {:induction false} ItemsGood(p: Printer, s: bytes)
    requires ParseItems(p, s).Ok?
    ensures forall i :: 0 <= i < |ParseItems(p, s).value.0| ==> Good(ParseItems(p, s).value.0[i])
    decreases |s|, 1
  {
    hide ReadValue, Good;
    ParsedGood(p, s);
    var t := Skip(ReadValue(p, s).value.1);
    if !Starts(t, CLOSE_LIST) {
      ItemsGood(p, t[1..]);
    }
  }

  lemma {:induction false} EntriesGood(p: Printer, s: bytes, seen: set<bytes>)
    requires ParseEntries(p, s, seen).Ok?
    ensures var es := ParseEntries(p, s, seen).value.0;
            && DistinctKeys(es)
            && forall i :: 0 <= i < |es| ==> TextOk(es[i].key) && Good(es[i].value) && es[i].key !in seen
    decreases |s|, 2
  {
    hide Good, TextOk, ParseEntry;
    var first := ParseEntry(p, s, seen).value;
    EntryGood(p, s, seen);
    var t := Skip(first.1);
    if !Starts(t, CLOSE_OBJECT) {
      EntriesGood(p, t[1..], seen + {first.0.key});
    }
  }

  lemma {:induction false} EntryGood(p: Printer, s: bytes, seen: set<bytes>)
    requires ParseEntry(p, s, seen).Ok?
    ensures var e := ParseEntry(p, s, seen).value.0; TextOk(e.key) && Good(e.value) && e.key !in seen
    decreases |s|, 1
  {
    hide ReadValue, TextOk;
    ParsedGood(p, s);
    ParsedGood(p, Skip(ReadValue(p, s).value.1)[1..]);
  }

  /** Encoded text is free of NUL, as the journal's payloads need. */
  lemma EncodedNoNul(p: Printer, v: Json)
    requires Lawful(p) && Good(v) && Encode(p, v).Ok?
    ensures 0 !in Encode(p, v).value
  {
    hide Write, Sorted, Good, InOrder, Fault, Lawful;
    SortedInOrder(v);
    WrittenNoNul(p, Sorted(v));
  }

  lemma ShownNoNul(p: Printer, n: nat)
    requires Lawful(p)
    ensures 0 !in p.show(n)
  {
    hide NumberText, Utf8.Valid;
  }

  lemma {:induction false} WrittenNoNul(p: Printer, v: Json)
    requires Lawful(p) && InOrder(v)
    ensures 0 !in Write(p, v)
    decreases v
  {
    hide Ascending, Utf8.Valid, Lawful, Escape, WriteItems, WriteEntries;
    match v
    case Text(s) => EscapeNoNul(s);
    case Number(n) => ShownNoNul(p, n);
    case List(items) => ItemsNoNul(p, items);
    case Object(entries) => EntriesNoNul(p, entries);
    case _ =>
  }

  lemma {:induction false} ItemsNoNul(p: Printer, items: seq<Json>)
    requires Lawful(p) && forall i :: 0 <= i < |items| ==> InOrder(items[i])
    ensures 0 !in WriteItems(p, items)
    decreases items
  {
    hide InOrder, Lawful, Write;
    if items != [] {
      WrittenNoNul(p, items[0]);
      ItemsNoNul(p, items[1..]);
    }
  }

  lemma {:induction false} EntriesNoNul(p: Printer, entries: seq<Entry>)
    requires Lawful(p) && forall i :: 0 <= i < |entries| ==> TextOk(entries[i].key) && InOrder(entries[i].value)
    ensures 0 !in WriteEntries(p, entries)
    decreases entries
  {
    hide InOrder, Lawful, Write, Utf8.Valid, Escape;
    if entries != [] {
      EscapeNoNul(entries[0].key);
      WrittenNoNul(p, entries[0].value);
      EntriesNoNul(p, entries[1..]);
    }
  }
}
