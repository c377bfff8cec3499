/** What the store reads its values with: `json_parse` of `data.rs`, which differs from the decoder of `codec.rs`. */
module JsonData {
  import opened Bytes
  import opened Json
  import opened JsonText
  import opened Seqs
  import Scan

  const DATA_DEPTH := 128

  // ----- integers that no double holds exactly

  /** "9007199254740992" */
  const EXACT: bytes := [57, 48, 48, 55, 49, 57, 57, 50, 53, 52, 55, 52, 48, 57, 57, 50]

  function Zeros(t: bytes): (n: nat)
    ensures n <= |t|
  {
    if t == [] || t[0] != 48 then 0 else 1 + Zeros(t[1..])
  }

  /** `json_large_integer`: an integer literal above 2^53 in magnitude. */
  predicate LargeInteger(t: bytes) {
    if 46 in t || 101 in t || 69 in t then false else
    var unsigned := if t != [] && t[0] == 45 then t[1..] else t;
    var digits := unsigned[Zeros(unsigned)..];
    |digits| > 16 || (|digits| == 16 && Scan.Less(EXACT, digits))
  }

  // ----- reading

  /** The entries of a map once a key is set: replaced where it is, or put last. */
  function SetEntry(entries: seq<Entry>, e: Entry): seq<Entry> {
    if entries == [] then [e]
    else if entries[0].key == e.key then [e] + entries[1..]
    else [entries[0]] + SetEntry(entries[1..], e)
  }

  /** `parse_number_strict`, and what becomes of a large integer. */
  function ReadNumber(p: Printer, s: bytes): (r: Result<(Json, bytes)>)
    requires s != []
    ensures r.Ok? ==> |r.value.1| < |s|
    ensures r.Err? ==> r.error == Error.Parse
  {
    var length := NumberLength(s);
    if length.None? || length.value == 0 || length.value > |s| then Err(Error.Parse) else
    var token := s[..length.value];
    if !Strict(token) then Err(Error.Parse) else
    var n := p.read(token);
    if n.None? then Err(Error.Parse)
    else Ok((if LargeInteger(token) then Text(token) else Number(n.value), s[length.value..]))
  }

  /** `json_value`: the value that the text starts with, and what follows it. */
  function ReadData(p: Printer, text: bytes, depth: nat): (r: Result<(Json, bytes)>)
    ensures r.Ok? ==> |r.value.1| < |text|
    ensures r.Err? ==> r.error == Error.Parse || r.error == Limit
    decreases |text|, 0
  {
    if depth > DATA_DEPTH then Err(Limit) else
    var s := Skip(text);
    if s == [] then Err(Error.Parse)
    else if s[0] == QUOTE then
      var t := ReadString(s[1..]);
      if t.Err? then Err(t.error) else Ok((Text(t.value.0), t.value.1))
    else if s[0] == OPEN_LIST then
      var items := DataItems(p, Skip(s[1..]), depth + 1);
      if items.Err? then Err(items.error) else Ok((List(items.value.0), items.value.1))
    else if s[0] == OPEN_OBJECT then
      var entries := DataEntries(p, Skip(s[1..]), depth + 1, []);
      if entries.Err? then Err(entries.error) else Ok((Object(entries.value.0), entries.value.1))
    else if NULL <= s then Ok((Null, s[4..]))
    else if TRUE <= s then Ok((Flag(true), s[4..]))
    else if FALSE <= s then Ok((Flag(false), s[5..]))
    else ReadNumber(p, s)
  }

  /** The items from here to the closing bracket. */
  function DataItems(p: Printer, t: bytes, depth: nat): (r: Result<(seq<Json>, bytes)>)
    ensures r.Ok? ==> |r.value.1| < |t|
    ensures r.Err? ==> r.error == Error.Parse || r.error == Limit
    decreases |t|, 1
  {
    if t == [] then Err(Error.Parse)
    else if t[0] == CLOSE_LIST then Ok(([], t[1..]))
    else
      var item := ReadData(p, t, depth);
      if item.Err? then Err(item.error) else
      var u := Skip(item.value.1);
      if Starts(u, COMMA) then
        var v := Skip(u[1..]);
        if Starts(v, CLOSE_LIST) then Err(Error.Parse) else
        var rest := DataItems(p, v, depth);
        if rest.Err? then rest else Ok(([item.value.0] + rest.value.0, rest.value.1))
      else if Starts(u, CLOSE_LIST) then Ok(([item.value.0], u[1..]))
      else Err(Error.Parse)
  }

  /** One entry: a string, a colon and a value. */
  function DataEntry(p: Printer, t: bytes, depth: nat): (r: Result<(Entry, bytes)>)
    ensures r.Ok? ==> |r.value.1| < |t|
    ensures r.Err? ==> r.error == Error.Parse || r.error == Limit
    decreases |t|, 1
  {
    if !Starts(t, QUOTE) then Err(Error.Parse) else
    var key := ReadString(t[1..]);
    if key.Err? then Err(key.error) else
    var u := Skip(key.value.1);
    if !Starts(u, COLON) then Err(Error.Parse) else
    var value := ReadData(p, u[1..], depth);
    if value.Err? then Err(value.error) else Ok((Entry(key.value.0, value.value.0), value.value.1))
  }

  /** The entries from here to the closing brace, after those already set. */
  function DataEntries(p: Printer, t: bytes, depth: nat, before: seq<Entry>): (r: Result<(seq<Entry>, bytes)>)
    ensures r.Ok? ==> |r.value.1| < |t|
    ensures r.Err? ==> r.error == Error.Parse || r.error == Limit
    decreases |t|, 2
  {
    if t == [] then Err(Error.Parse)
    else if t[0] == CLOSE_OBJECT then Ok((before, t[1..]))
    else
      var entry := DataEntry(p, t, depth);
      if entry.Err? then Err(entry.error) else
      var after := SetEntry(before, entry.value.0);
      var u := Skip(entry.value.1);
      if Starts(u, COMMA) then
        var v := Skip(u[1..]);
        if Starts(v, CLOSE_OBJECT) then Err(Error.Parse) else DataEntries(p, v, depth, after)
      else if Starts(u, CLOSE_OBJECT) then Ok((after, u[1..]))
      else Err(Error.Parse)
  }

  /** `json_parse`, but for the heap that its value must fit. */
  function ParseText(p: Printer, text: bytes): (r: Result<Json>) {
    var v := ReadData(p, text, 0);
    if v.Err? then Err(v.error) else if Skip(v.value.1) == [] then Ok(v.value.0) else Err(Error.Parse)
  }

  // ----- what comes back of a value that was put

  function Max(a: nat, b: nat): nat { if a < b then b else a }

  /** How deep containers are nested: 0 for a scalar or an empty container. */
  function Depth(v: Json): nat {
    match v
    case List(items) => DepthItems(items)
    case Object(entries) => DepthEntries(entries)
    case _ => 0
  }

  function DepthItems(items: seq<Json>): nat {
    if items == [] then 0 else Max(1 + Depth(items[0]), DepthItems(items[1..]))
  }

  function DepthEntries(entries: seq<Entry>): nat {
    if entries == [] then 0 else Max(1 + Depth(entries[0].value), DepthEntries(entries[1..]))
  }

  /** The value with each number that prints as a large integer replaced by that text. */
  function Kept(p: Printer, v: Json): Json {
    match v
    case Number(n) => if LargeInteger(p.show(n)) then Text(p.show(n)) else v
    case List(items) => List(KeptItems(p, items))
    case Object(entries) => Object(KeptEntries(p, entries))
    case _ => v
  }

  function KeptItems(p: Printer, items: seq<Json>): (r: seq<Json>)
    ensures |r| == |items|
  {
    if items == [] then [] else [Kept(p, items[0])] + KeptItems(p, items[1..])
  }

  function KeptEntries(p: Printer, entries: seq<Entry>): (r: seq<Entry>)
    ensures |r| == |entries| && forall i :: 0 <= i < |r| ==> r[i].key == entries[i].key
  {
    if entries == [] then [] else [Entry(entries[0].key, Kept(p, entries[0].value))] + KeptEntries(p, entries[1..])
  }

  // ----- reading what was written

  lemma WordData(p: Printer, v: Json, rest: bytes, depth: nat)
    requires (v.Null? || v.Flag?) && depth <= DATA_DEPTH
    ensures ReadData(p, Write(p, v) + rest, depth) == Ok((v, rest))
  {
    var s := Write(p, v) + rest;
    Peel(Write(p, v), rest);
    assert s[0] == Write(p, v)[0] && s[1] == Write(p, v)[1];
    SkipNone(s);
    if v.Null? {
      assert NULL <= s;
    } else if v.b {
      assert TRUE <= s;
    } else {
      assert FALSE <= s;
    }
  }

  lemma TextData(p: Printer, t: bytes, rest: bytes, depth: nat)
    requires TextOk(t) && depth <= DATA_DEPTH
    ensures ReadData(p, Quoted(t) + rest, depth) == Ok((Text(t), rest))
  {
    hide Escape, ReadString, TextOk;
    QuotedRead(t, rest);
    SkipNone(Quoted(t) + rest);
  }

  /** A quoted string reads back after its quote. */
  lemma QuotedRead(t: bytes, rest: bytes)
    requires TextOk(t)
    ensures var s := Quoted(t) + rest; s[0] == QUOTE && ReadString(s[1..]) == Ok((t, rest))
  {
    hide Escape, ReadString;
    StringRead(t, rest);
    Nest3([QUOTE], Escape(t), [QUOTE], rest);
    assert (Quoted(t) + rest)[1..] == Escape(t) + ([QUOTE] + rest);
  }

  lemma NumberData(p: Printer, n: nat, rest: bytes, depth: nat)
    requires Lawful(p) && Delimited(rest) && depth <= DATA_DEPTH
    ensures ReadData(p, p.show(n) + rest, depth) == Ok((Kept(p, Number(n)), rest))
  {
    hide NumberLength, LargeInteger, Strict;
    var t := p.show(n);
    var s := t + rest;
    assert NumberText(t) && Strict(t) && p.read(t) == Some(n);
    NumberBefore(t, rest);
    Peel(t, rest);
    assert s[0] == t[0];
    SkipNone(s);
    assert !(NULL <= s) && !(TRUE <= s) && !(FALSE <= s);
  }

  /** What reading a value gives whose text was written: it is too deep, or kept. */
  function Reread(p: Printer, v: Json, rest: bytes, depth: nat): Result<(Json, bytes)> {
    if depth + Depth(v) > DATA_DEPTH then Err(Limit) else Ok((Kept(p, v), rest))
  }

  /** Every value in order reads back kept, unless it is nested too deep. */
  lemma {:induction false} DataRead(p: Printer, v: Json, rest: bytes, depth: nat)
    requires Lawful(p) && InOrder(v) && (v.Number? ==> Delimited(rest))
    ensures ReadData(p, Write(p, v) + rest, depth) == Reread(p, v, rest, depth)
    decreases v
  {
    hide Write, ReadData, Lawful, TextOk, Quoted, LargeInteger, WriteItems, WriteEntries, DataItems, DataEntries;
    if depth > DATA_DEPTH {
      TooDeep(p, Write(p, v) + rest, depth);
    } else {
      match v {
        case Null => WordData(p, v, rest, depth);
        case Flag(_) => WordData(p, v, rest, depth);
        case Number(n) => NumberData(p, n, rest, depth); WriteNumber(p, n);
        case Text(t) => TextData(p, t, rest, depth); WriteText(p, t);
        case List(items) =>
          if items != [] {
            ItemsData(p, items, rest, depth + 1);
          }
          ListData(p, items, rest, depth);
        case Object(entries) =>
          if entries != [] {
            EntriesData(p, entries, rest, depth + 1, []);
            assert [] + KeptEntries(p, entries) == KeptEntries(p, entries);
          }
          ObjectData(p, entries, rest, depth);
      }
    }
  }

  lemma TooDeep(p: Printer, s: bytes, depth: nat)
    requires depth > DATA_DEPTH
    ensures ReadData(p, s, depth) == Err(Limit)
  {}

  /** What reading items gives whose text was written. */
  function RereadItems(p: Printer, items: seq<Json>, rest: bytes, depth: nat): Result<(seq<Json>, bytes)> {
    if items != [] && depth - 1 + DepthItems(items) > DATA_DEPTH then Err(Limit) else Ok((KeptItems(p, items), rest))
  }

  lemma ListData(p: Printer, items: seq<Json>, rest: bytes, depth: nat)
    requires Lawful(p) && depth <= DATA_DEPTH
    requires items != [] ==> DataItems(p, WriteItems(p, items) + ([CLOSE_LIST] + rest), depth + 1) == RereadItems(p, items, rest, depth + 1)
    ensures ReadData(p, Write(p, List(items)) + rest, depth) == Reread(p, List(items), rest, depth)
  {
    hide ReadData, DataItems, Lawful, WriteItems, Kept, KeptItems, Depth, DepthItems;
    var inner := WriteItems(p, items) + ([CLOSE_LIST] + rest);
    var s := Write(p, List(items)) + rest;
    Nest3([OPEN_LIST], WriteItems(p, items), [CLOSE_LIST], rest);
    assert s[0] == OPEN_LIST && s[1..] == inner;
    SkipNone(s);
    KeptList(p, items);
    if items == [] {
      NoItems(p, rest, depth + 1);
    } else {
      ItemsStart(p, items, [CLOSE_LIST] + rest);
    }
    SkipNone(inner);
    ListOpened(p, s, depth);
  }

  lemma KeptList(p: Printer, items: seq<Json>)
    ensures Kept(p, List(items)) == List(KeptItems(p, items)) && Depth(List(items)) == DepthItems(items)
    ensures items == [] ==> KeptItems(p, items) == [] && DepthItems(items) == 0
  {}

  lemma NoItems(p: Printer, rest: bytes, depth: nat)
    ensures WriteItems(p, []) + ([CLOSE_LIST] + rest) == [CLOSE_LIST] + rest
    ensures DataItems(p, [CLOSE_LIST] + rest, depth) == Ok(([], rest))
  {
    assert [] + ([CLOSE_LIST] + rest) == [CLOSE_LIST] + rest && ([CLOSE_LIST] + rest)[1..] == rest;
  }

  lemma ListOpened(p: Printer, s: bytes, depth: nat)
    requires s != [] && s[0] == OPEN_LIST && depth <= DATA_DEPTH
    ensures var items := DataItems(p, Skip(s[1..]), depth + 1);
            ReadData(p, s, depth) == if items.Err? then Err(items.error) else Ok((List(items.value.0), items.value.1))
  {
    hide DataItems;
    SkipNone(s);
  }

  lemma {:induction false} ItemsData(p: Printer, items: seq<Json>, rest: bytes, depth: nat)
    requires Lawful(p) && items != [] && depth >= 1 && forall i :: 0 <= i < |items| ==> InOrder(items[i])
    ensures DataItems(p, WriteItems(p, items) + ([CLOSE_LIST] + rest), depth) == RereadItems(p, items, rest, depth)
    decreases items
  {
    hide Write, ReadData, Lawful, InOrder, Kept, Depth;
    var tail := [CLOSE_LIST] + rest;
    ItemsStart(p, items, tail);
    if |items| == 1 {
      DataRead(p, items[0], tail, depth);
      SkipNone(tail);
      assert tail[1..] == rest && items == [items[0]] && items[1..] == [];
      assert KeptItems(p, items) == [Kept(p, items[0])] by { assert KeptItems(p, items[1..]) == []; }
      assert DepthItems(items) == 1 + Depth(items[0]) by { assert DepthItems(items[1..]) == 0; }
      assert WriteItems(p, items) == Write(p, items[0]);
    } else {
      var more := WriteItems(p, items[1..]) + tail;
      DataRead(p, items[0], [COMMA] + more, depth);
      SkipNone([COMMA] + more);
      ItemsStart(p, items[1..], tail);
      SkipNone(more);
      ItemsData(p, items[1..], rest, depth);
      Nest3(Write(p, items[0]), [COMMA], WriteItems(p, items[1..]), tail);
      assert ([COMMA] + more)[1..] == more;
    }
  }

  function RereadEntries(p: Printer, entries: seq<Entry>, rest: bytes, depth: nat, before: seq<Entry>): Result<(seq<Entry>, bytes)> {
    if entries != [] && depth - 1 + DepthEntries(entries) > DATA_DEPTH then Err(Limit)
    else Ok((before + KeptEntries(p, entries), rest))
  }

  lemma ObjectData(p: Printer, entries: seq<Entry>, rest: bytes, depth: nat)
    requires depth <= DATA_DEPTH
    requires entries != [] ==>
               DataEntries(p, WriteEntries(p, entries) + ([CLOSE_OBJECT] + rest), depth + 1, []) == RereadEntries(p, entries, rest, depth + 1, [])
               && [] + KeptEntries(p, entries) == KeptEntries(p, entries)
    ensures ReadData(p, Write(p, Object(entries)) + rest, depth) == Reread(p, Object(entries), rest, depth)
  {
    hide ReadData, DataEntries, WriteEntries, Kept, KeptEntries, Depth, DepthEntries;
    var inner := WriteEntries(p, entries) + ([CLOSE_OBJECT] + rest);
    var s := Write(p, Object(entries)) + rest;
    Nest3([OPEN_OBJECT], WriteEntries(p, entries), [CLOSE_OBJECT], rest);
    assert s[0] == OPEN_OBJECT && s[1..] == inner;
    SkipNone(s);
    KeptObject(p, entries);
    if entries == [] {
      NoEntries(p, rest, depth + 1);
    } else {
      EntriesStart(p, entries, [CLOSE_OBJECT] + rest);
    }
    SkipNone(inner);
    ObjectOpened(p, s, depth);
  }

  lemma KeptObject(p: Printer, entries: seq<Entry>)
    ensures Kept(p, Object(entries)) == Object(KeptEntries(p, entries)) && Depth(Object(entries)) == DepthEntries(entries)
    ensures entries == [] ==> KeptEntries(p, entries) == [] && DepthEntries(entries) == 0
  {}

  lemma NoEntries(p: Printer, rest: bytes, depth: nat)
    ensures WriteEntries(p, []) + ([CLOSE_OBJECT] + rest) == [CLOSE_OBJECT] + rest
    ensures DataEntries(p, [CLOSE_OBJECT] + rest, depth, []) == Ok(([], rest))
  {
    assert [] + ([CLOSE_OBJECT] + rest) == [CLOSE_OBJECT] + rest && ([CLOSE_OBJECT] + rest)[1..] == rest;
  }

  lemma ObjectOpened(p: Printer, s: bytes, depth: nat)
    requires s != [] && s[0] == OPEN_OBJECT && depth <= DATA_DEPTH
    ensures var entries := DataEntries(p, Skip(s[1..]), depth + 1, []);
            ReadData(p, s, depth) == if entries.Err? then Err(entries.error) else Ok((Object(entries.value.0), entries.value.1))
  {
    hide DataEntries;
    SkipNone(s);
  }

  lemma {:induction false} EntryData(p: Printer, e: Entry, rest: bytes, depth: nat)
    requires Lawful(p) && TextOk(e.key) && InOrder(e.value) && Delimited(rest)
    ensures DataEntry(p, WriteEntry(p, e) + rest, depth)
         == if depth + Depth(e.value) > DATA_DEPTH then Err(Limit) else Ok((Entry(e.key, Kept(p, e.value)), rest))
    decreases e
  {
    hide Write, ReadData, Lawful, InOrder, TextOk, Quoted, Kept, Depth;
    var after := Write(p, e.value) + rest;
    Nest3(Quoted(e.key), [COLON], Write(p, e.value), rest);
    QuotedRead(e.key, [COLON] + after);
    SkipNone([COLON] + after);
    DataRead(p, e.value, rest, depth);
    assert ([COLON] + after)[1..] == after;
  }

  /** A key that was not set is put last. */
  lemma {:induction false} SetLast(entries: seq<Entry>, e: Entry)
    requires forall i :: 0 <= i < |entries| ==> entries[i].key != e.key
    ensures SetEntry(entries, e) == entries + [e]
  {
    if entries != [] {
      SetLast(entries[1..], e);
      assert entries + [e] == [entries[0]] + (entries[1..] + [e]);
    }
  }

  lemma {:induction false} EntriesData(p: Printer, entries: seq<Entry>, rest: bytes, depth: nat, before: seq<Entry>)
    requires Lawful(p) && entries != [] && Ascending(entries) && depth >= 1
    requires forall i :: 0 <= i < |entries| ==> TextOk(entries[i].key) && InOrder(entries[i].value)
    requires forall i, j :: 0 <= i < |entries| && 0 <= j < |before| ==> entries[i].key != before[j].key
    ensures DataEntries(p, WriteEntries(p, entries) + ([CLOSE_OBJECT] + rest), depth, before) == RereadEntries(p, entries, rest, depth, before)
    decreases entries
  {
    hide Lawful, InOrder, TextOk, WriteEntry, DataEntry, Scan.Less, SetEntry, Kept, Depth;
    var tail := [CLOSE_OBJECT] + rest;
    var e := entries[0];
    var kept := Entry(e.key, Kept(p, e.value));
    EntriesStart(p, entries, tail);
    SetLast(before, kept);
    if |entries| == 1 {
      EntryData(p, e, tail, depth);
      SkipNone(tail);
      assert tail[1..] == rest && entries == [e] && entries[1..] == [];
      assert KeptEntries(p, entries) == [kept] by { assert KeptEntries(p, entries[1..]) == [] && [kept] + [] == [kept]; }
      assert DepthEntries(entries) == 1 + Depth(e.value) by { assert DepthEntries(entries[1..]) == 0; }
      assert WriteEntries(p, entries) == WriteEntry(p, e);
      var s := WriteEntry(p, e) + tail;
      assert s != [] && s[0] != CLOSE_OBJECT;
    } else {
      var more := WriteEntries(p, entries[1..]) + tail;
      EntryData(p, e, [COMMA] + more, depth);
      SkipNone([COMMA] + more);
      EntriesStart(p, entries[1..], tail);
      SkipNone(more);
      forall i, j | 0 <= i < |entries[1..]| && 0 <= j < |before + [kept]| ensures entries[1..][i].key != (before + [kept])[j].key {
        assert entries[1..][i] == entries[i + 1] && Scan.Less(e.key, entries[i + 1].key);
        Scan.LessTotal(e.key, e.key);
      }
      if depth + Depth(e.value) <= DATA_DEPTH {
        EntriesData(p, entries[1..], rest, depth, before + [kept]);
        Assoc(before, [kept], KeptEntries(p, entries[1..]));
      }
      Nest3(WriteEntry(p, e), [COMMA], WriteEntries(p, entries[1..]), tail);
      assert ([COMMA] + more)[1..] == more;
    }
  }
}
