/**
 The documents that `json_parse` reads: a grammar of them, and the proof that exactly its texts are read, each as the
 value it spells. They differ from those of `decode_document`: numbers are JSON numbers, large integers are kept as text,
 a key may come again, and values are nested at most 128 deep.
 */
module JsonDataDocuments {
  import opened Bytes
  import opened Seqs
  import opened JsonText
  import opened Json
  import opened JsonGrammar
  import opened JsonNumbers
  import opened JsonDocuments
  import D = JsonData

  // ----- the grammar

  /** A number without a plus sign or a leading zero; an integer above 2^53 is its own text. */
  ghost predicate NumberSpells(p: Printer, t: bytes, v: Json) {
    NumberForm(t) && Strict(t) && p.read(t).Some? && v == if D.LargeInteger(t) then Text(t) else Number(p.read(t).value)
  }

  /** The entries of a map after these are set, one after the other. */
  function SetAll(before: seq<Entry>, raw: seq<Entry>): seq<Entry>
    decreases |raw|
  {
    if raw == [] then before else SetAll(D.SetEntry(before, raw[0]), raw[1..])
  }

  /** The text is this value inside of `d` lists and maps. */
  ghost predicate DataSpells(p: Printer, t: bytes, d: nat, v: Json)
    decreases |t|, 0
  {
    && d <= 128
    && (|| WordText(t, v)
        || (v.Text? && StringText(t, v.s))
        || NumberSpells(p, t, v)
        || (v.List? && Enclosed(t, '[' as int, ']' as int)
            && ((v.items == [] && White(Inner(t))) || DataItemsText(p, Inner(t), d + 1, v.items)))
        || (v.Object? && Enclosed(t, '{' as int, '}' as int)
            && ((v.entries == [] && White(Inner(t))) || DataMapText(p, Inner(t), d + 1, v.entries))))
  }

  /** What the entries of a map leave: a key that comes again keeps its place and takes the later value. */
  ghost predicate DataMapText(p: Printer, t: bytes, d: nat, entries: seq<Entry>)
    decreases |t|, 6
  {
    exists raw :: EntriesSpell(p, t, d, raw, entries)
  }

  ghost predicate EntriesSpell(p: Printer, t: bytes, d: nat, raw: seq<Entry>, entries: seq<Entry>)
    decreases |t|, 5
  {
    DataEntriesText(p, t, d, raw) && entries == SetAll([], raw)
  }

  ghost predicate DataItemsText(p: Printer, t: bytes, d: nat, items: seq<Json>)
    decreases |t|, 2
  {
    items != [] && exists lead, item, trail, rest :: DataItemsParts(p, t, d, items, lead, item, trail, rest)
  }

  ghost predicate DataItemsParts(p: Printer, t: bytes, d: nat, items: seq<Json>, lead: bytes, item: bytes, trail: bytes, rest: bytes)
    requires items != []
    decreases |t|, 1
  {
    && (t == if |items| == 1 then lead + (item + trail) else lead + (item + (trail + ([',' as int] + rest))))
    && White(lead) && White(trail) && DataSpells(p, item, d, items[0])
    && (|items| > 1 ==> DataItemsText(p, rest, d, items[1..]))
  }

  ghost predicate DataEntryText(p: Printer, t: bytes, d: nat, e: Entry)
    decreases |t|, 2
  {
    exists key, before, after, value :: DataEntryParts(p, t, d, e, key, before, after, value)
  }

  ghost predicate DataEntryParts(p: Printer, t: bytes, d: nat, e: Entry, key: bytes, before: bytes, after: bytes, value: bytes)
    decreases |t|, 1
  {
    && t == key + (before + ([':' as int] + (after + value)))
    && StringText(key, e.key) && White(before) && White(after) && DataSpells(p, value, d, e.value)
  }

  ghost predicate DataEntriesText(p: Printer, t: bytes, d: nat, entries: seq<Entry>)
    decreases |t|, 4
  {
    entries != [] && exists lead, entry, trail, rest :: DataEntriesParts(p, t, d, entries, lead, entry, trail, rest)
  }

  ghost predicate DataEntriesParts(
    p: Printer, t: bytes, d: nat, entries: seq<Entry>, lead: bytes, entry: bytes, trail: bytes, rest: bytes)
    requires entries != []
    decreases |t|, 3
  {
    && (t == if |entries| == 1 then lead + (entry + trail) else lead + (entry + (trail + ([',' as int] + rest))))
    && White(lead) && White(trail) && DataEntryText(p, entry, d, entries[0])
    && (|entries| > 1 ==> DataEntriesText(p, rest, d, entries[1..]))
  }

  ghost predicate DataDocumentParts(p: Printer, t: bytes, v: Json, lead: bytes, value: bytes, trail: bytes) {
    White(lead) && White(trail) && DataSpells(p, value, 0, v) && t == lead + (value + trail)
  }

  ghost predicate DataDocumentText(p: Printer, t: bytes, v: Json) {
    exists lead, value, trail :: DataDocumentParts(p, t, v, lead, value, trail)
  }

  // ----- what is read is spelt

  ghost predicate DataParts(p: Printer, text: bytes, d: nat, v: Json, rest: bytes, lead: bytes, a: bytes) {
    White(lead) && DataSpells(p, a, d, v) && text == lead + (a + rest)
  }

  lemma {:induction false} DataSound(p: Printer, text: bytes, d: nat) returns (lead: bytes, a: bytes)
    requires D.ReadData(p, text, d).Ok?
    ensures DataParts(p, text, d, D.ReadData(p, text, d).value.0, D.ReadData(p, text, d).value.1, lead, a)
    decreases |text|, 2
  {
    hide ReadString, DataSpells, D.ReadNumber;
    lead := SkipSplit(text);
    var s := Skip(text);
    var (v, rest) := D.ReadData(p, text, d).value;
    if s[0] == QUOTE {
      a := DataTextSound(p, s, d);
    } else if s[0] == OPEN_LIST {
      a := DataListSound(p, s, d);
    } else if s[0] == OPEN_OBJECT {
      a := DataObjectSound(p, s, d);
    } else {
      a := DataAtomSound(p, s, d, v, rest);
    }
  }

  lemma DataTextSound(p: Printer, s: bytes, d: nat) returns (a: bytes)
    requires Starts(s, QUOTE) && ReadString(s[1..]).Ok? && d <= 128
    ensures DataSpells(p, a, d, Text(ReadString(s[1..]).value.0)) && s == a + ReadString(s[1..]).value.1
  {
    hide StringText;
    a := QuotedSound(s);
  }

  lemma QuotedSound(s: bytes) returns (a: bytes)
    requires Starts(s, QUOTE) && ReadString(s[1..]).Ok?
    ensures StringText(a, ReadString(s[1..]).value.0) && s == a + ReadString(s[1..]).value.1
  {
    hide ReadString, BodySpells;
    var b := StringSound(s[1..]);
    a := [QUOTE] + (b + [QUOTE]);
    InnerOf(QUOTE, b, QUOTE);
    CutThen(s, b, QUOTE, ReadString(s[1..]).value.1);
  }

  lemma DataAtomSound(p: Printer, s: bytes, d: nat, v: Json, rest: bytes) returns (a: bytes)
    requires s != [] && d <= 128
    requires if NULL <= s then v == Null && rest == s[4..]
             else if TRUE <= s then v == Flag(true) && rest == s[4..]
             else if FALSE <= s then v == Flag(false) && rest == s[5..]
             else D.ReadNumber(p, s) == Ok((v, rest))
    ensures DataSpells(p, a, d, v) && s == a + rest
  {
    hide NumberLength, NumberForm, Strict, D.LargeInteger;
    if NULL <= s || TRUE <= s {
      a := s[..4];
    } else if FALSE <= s {
      a := s[..5];
    } else {
      NumberSound(s);
      a := s[..NumberLength(s).value];
      assert NumberSpells(p, a, v);
    }
  }

  lemma DataListSpells(p: Printer, inner: bytes, d: nat, items: seq<Json>)
    requires d <= 128 && ((items == [] && White(inner)) || DataItemsText(p, inner, d + 1, items))
    ensures DataSpells(p, [OPEN_LIST] + (inner + [CLOSE_LIST]), d, List(items))
  {
    hide DataItemsText, White;
    InnerOf(OPEN_LIST, inner, CLOSE_LIST);
  }

  lemma {:induction false} DataListSound(p: Printer, s: bytes, d: nat) returns (a: bytes)
    requires Starts(s, OPEN_LIST) && D.ReadData(p, s, d).Ok?
    ensures DataSpells(p, a, d, D.ReadData(p, s, d).value.0) && s == a + D.ReadData(p, s, d).value.1
    decreases |s|, 1
  {
    hide DataItemsText, D.DataItems, White;
    D.ListOpened(p, s, d);
    var (v, rest) := D.ReadData(p, s, d).value;
    var lead := SkipSplit(s[1..]);
    var t := Skip(s[1..]);
    var inner := lead;
    if Starts(t, CLOSE_LIST) {
      StartsWith(t, CLOSE_LIST);
      D.NoItems(p, t[1..], d + 1);
    } else {
      var more := DataItemsSound(p, t, d + 1);
      DataItemsLed(p, lead, more, d + 1, v.items);
      inner := lead + more;
      Assoc(lead, more, [CLOSE_LIST] + rest);
    }
    a := [OPEN_LIST] + (inner + [CLOSE_LIST]);
    DataListSpells(p, inner, d, v.items);
    CutThen(s, inner, CLOSE_LIST, rest);
  }

  lemma DataItemsLed(p: Printer, w: bytes, t: bytes, d: nat, items: seq<Json>)
    requires White(w) && DataItemsText(p, t, d, items)
    ensures DataItemsText(p, w + t, d, items)
  {
    hide DataSpells, White, DataItemsText;
    var lead, item, trail, rest := DataItemsCut(p, t, d, items);
    WhiteBoth(w, lead);
    Assoc(w, lead, item + if |items| == 1 then trail else trail + ([COMMA] + rest));
    DataItemsMade(p, w + t, d, items, w + lead, item, trail, rest);
  }

  lemma DataItemsMade(p: Printer, t: bytes, d: nat, items: seq<Json>, lead: bytes, item: bytes, trail: bytes, rest: bytes)
    requires items != [] && DataItemsParts(p, t, d, items, lead, item, trail, rest)
    ensures DataItemsText(p, t, d, items)
  {
    hide DataItemsParts;
  }

  lemma DataLastItem(p: Printer, lead: bytes, item: bytes, trail: bytes, d: nat, v: Json)
    requires White(lead) && White(trail) && DataSpells(p, item, d, v)
    ensures DataItemsText(p, lead + (item + trail), d, [v])
  {
    hide DataSpells, White, DataItemsText;
    DataItemsMade(p, lead + (item + trail), d, [v], lead, item, trail, []);
  }

  lemma DataNextItem(p: Printer, lead: bytes, item: bytes, trail: bytes, d: nat, v: Json, rest: bytes, items: seq<Json>)
    requires White(lead) && White(trail) && DataSpells(p, item, d, v) && DataItemsText(p, rest, d, items)
    ensures DataItemsText(p, lead + (item + (trail + ([COMMA] + rest))), d, [v] + items)
  {
    hide DataSpells, White, DataItemsText;
    var all := [v] + items;
    assert all[0] == v && all[1..] == items;
    var _, _, _, _ := DataItemsCut(p, rest, d, items);
    DataItemsMade(p, lead + (item + (trail + ([COMMA] + rest))), d, all, lead, item, trail, rest);
  }

  lemma {:induction false} DataItemsSound(p: Printer, t: bytes, d: nat) returns (inner: bytes)
    requires D.DataItems(p, t, d).Ok? && !Starts(t, CLOSE_LIST)
    ensures DataItemsText(p, inner, d, D.DataItems(p, t, d).value.0) && t == inner + ([CLOSE_LIST] + D.DataItems(p, t, d).value.1)
    decreases |t|, 3
  {
    hide D.ReadData, DataSpells, DataItemsText, White;
    var lead, item := DataSound(p, t, d);
    var (v, more) := D.ReadData(p, t, d).value;
    var trail := SkipSplit(more);
    var u := Skip(more);
    if Starts(u, COMMA) {
      StartsWith(u, COMMA);
      var gap := SkipSplit(u[1..]);
      var next := Skip(u[1..]);
      var after := DataItemsSound(p, next, d);
      var (items, rest) := D.DataItems(p, next, d).value;
      DataItemsLed(p, gap, after, d, items);
      var others := gap + after;
      Assoc(gap, after, [CLOSE_LIST] + rest);
      DataNextItem(p, lead, item, trail, d, v, others, items);
      inner := lead + (item + (trail + ([COMMA] + others)));
      Nest5(lead, item, trail, [COMMA], others, [CLOSE_LIST] + rest);
    } else {
      StartsWith(u, CLOSE_LIST);
      DataLastItem(p, lead, item, trail, d, v);
      inner := lead + (item + trail);
      Nest3(lead, item, trail, [CLOSE_LIST] + u[1..]);
    }
  }

  lemma DataMapSpells(p: Printer, inner: bytes, d: nat, entries: seq<Entry>)
    requires d <= 128 && ((entries == [] && White(inner)) || DataMapText(p, inner, d + 1, entries))
    ensures DataSpells(p, [OPEN_OBJECT] + (inner + [CLOSE_OBJECT]), d, Object(entries))
  {
    hide DataMapText, White;
    InnerOf(OPEN_OBJECT, inner, CLOSE_OBJECT);
  }

  lemma {:induction false} DataObjectSound(p: Printer, s: bytes, d: nat) returns (a: bytes)
    requires Starts(s, OPEN_OBJECT) && D.ReadData(p, s, d).Ok?
    ensures DataSpells(p, a, d, D.ReadData(p, s, d).value.0) && s == a + D.ReadData(p, s, d).value.1
    decreases |s|, 1
  {
    hide DataEntriesText, D.DataEntries, White;
    D.ObjectOpened(p, s, d);
    var (v, rest) := D.ReadData(p, s, d).value;
    var lead := SkipSplit(s[1..]);
    var t := Skip(s[1..]);
    var inner := lead;
    if Starts(t, CLOSE_OBJECT) {
      StartsWith(t, CLOSE_OBJECT);
      D.NoEntries(p, t[1..], d + 1);
    } else {
      var more, raw := DataEntriesSound(p, t, d + 1, []);
      DataEntriesLed(p, lead, more, d + 1, raw);
      inner := lead + more;
      assert EntriesSpell(p, inner, d + 1, raw, v.entries);
      Assoc(lead, more, [CLOSE_OBJECT] + rest);
    }
    a := [OPEN_OBJECT] + (inner + [CLOSE_OBJECT]);
    DataMapSpells(p, inner, d, v.entries);
    CutThen(s, inner, CLOSE_OBJECT, rest);
  }

  lemma DataEntriesLed(p: Printer, w: bytes, t: bytes, d: nat, entries: seq<Entry>)
    requires White(w) && DataEntriesText(p, t, d, entries)
    ensures DataEntriesText(p, w + t, d, entries)
  {
    hide DataEntryText, White, DataEntriesText;
    var lead, entry, trail, rest := DataEntriesCut(p, t, d, entries);
    WhiteBoth(w, lead);
    Assoc(w, lead, entry + if |entries| == 1 then trail else trail + ([COMMA] + rest));
    DataEntriesMade(p, w + t, d, entries, w + lead, entry, trail, rest);
  }

  lemma DataEntriesMade(p: Printer, t: bytes, d: nat, entries: seq<Entry>, lead: bytes, entry: bytes, trail: bytes, rest: bytes)
    requires entries != [] && DataEntriesParts(p, t, d, entries, lead, entry, trail, rest)
    ensures DataEntriesText(p, t, d, entries)
  {
    hide DataEntriesParts;
  }

  lemma DataLastEntry(p: Printer, lead: bytes, entry: bytes, trail: bytes, d: nat, e: Entry)
    requires White(lead) && White(trail) && DataEntryText(p, entry, d, e)
    ensures DataEntriesText(p, lead + (entry + trail), d, [e])
  {
    hide DataEntryText, White, DataEntriesText;
    DataEntriesMade(p, lead + (entry + trail), d, [e], lead, entry, trail, []);
  }

  lemma DataNextEntry(p: Printer, lead: bytes, entry: bytes, trail: bytes, d: nat, e: Entry, rest: bytes, entries: seq<Entry>)
    requires White(lead) && White(trail) && DataEntryText(p, entry, d, e) && DataEntriesText(p, rest, d, entries)
    ensures DataEntriesText(p, lead + (entry + (trail + ([COMMA] + rest))), d, [e] + entries)
  {
    hide DataEntryText, White, DataEntriesText;
    var all := [e] + entries;
    assert all[0] == e && all[1..] == entries;
    var _, _, _, _ := DataEntriesCut(p, rest, d, entries);
    DataEntriesMade(p, lead + (entry + (trail + ([COMMA] + rest))), d, all, lead, entry, trail, rest);
  }

  lemma {:induction false} DataEntrySound(p: Printer, t: bytes, d: nat) returns (entry: bytes)
    requires D.DataEntry(p, t, d).Ok?
    ensures DataEntryText(p, entry, d, D.DataEntry(p, t, d).value.0) && t == entry + D.DataEntry(p, t, d).value.1
    decreases |t|, 3
  {
    hide D.ReadData, DataSpells, StringText, White, ReadString;
    var key := QuotedSound(t);
    var (k, more) := ReadString(t[1..]).value;
    var before := SkipSplit(more);
    var u := Skip(more);
    StartsWith(u, COLON);
    var after, value := DataSound(p, u[1..], d);
    var (v, rest) := D.ReadData(p, u[1..], d).value;
    entry := key + (before + ([COLON] + (after + value)));
    assert DataEntryParts(p, entry, d, Entry(k, v), key, before, after, value);
    Nest5(key, before, [COLON], after, value, rest);
  }

  lemma {:induction false} DataEntriesSound(p: Printer, t: bytes, d: nat, before: seq<Entry>) returns (inner: bytes, raw: seq<Entry>)
    requires D.DataEntries(p, t, d, before).Ok? && !Starts(t, CLOSE_OBJECT)
    ensures var (entries, rest) := D.DataEntries(p, t, d, before).value;
            DataEntriesText(p, inner, d, raw) && entries == SetAll(before, raw) && t == inner + ([CLOSE_OBJECT] + rest)
    decreases |t|, 4
  {
    hide DataEntryText, DataEntriesText, White, D.DataEntry, D.SetEntry;
    var entry := DataEntrySound(p, t, d);
    var (e, more) := D.DataEntry(p, t, d).value;
    assert t == [] + (entry + more);
    NoWhite();
    var trail := SkipSplit(more);
    var u := Skip(more);
    if Starts(u, COMMA) {
      StartsWith(u, COMMA);
      var gap := SkipSplit(u[1..]);
      var next := Skip(u[1..]);
      var after, others := DataEntriesSound(p, next, d, D.SetEntry(before, e));
      var rest := D.DataEntries(p, next, d, D.SetEntry(before, e)).value.1;
      DataEntriesLed(p, gap, after, d, others);
      Assoc(gap, after, [CLOSE_OBJECT] + rest);
      DataNextEntry(p, [], entry, trail, d, e, gap + after, others);
      raw := [e] + others;
      assert raw[0] == e && raw[1..] == others;
      inner := [] + (entry + (trail + ([COMMA] + (gap + after))));
      Nest5([], entry, trail, [COMMA], gap + after, [CLOSE_OBJECT] + rest);
    } else {
      StartsWith(u, CLOSE_OBJECT);
      DataLastEntry(p, [], entry, trail, d, e);
      raw := [e];
      assert raw[1..] == [];
      inner := [] + (entry + trail);
      Nest3([], entry, trail, [CLOSE_OBJECT] + u[1..]);
    }
  }

  lemma NoWhite()
    ensures White([])
  {}

  // ----- what is spelt is read

  lemma DataLeadSkipped(p: Printer, s: bytes, t: bytes, d: nat)
    requires Skip(s) == Skip(t)
    ensures D.ReadData(p, s, d) == D.ReadData(p, t, d)
  {
    hide ReadString, D.ReadNumber, D.DataItems, D.DataEntries;
  }

  lemma DataHeads(p: Printer, t: bytes, d: nat, v: Json)
    requires DataSpells(p, t, d, v)
    ensures t != [] && Heads(t[0])
  {
    hide NumberForm, Strict, D.LargeInteger, DataItemsText, DataMapText, BodySpells;
    if NumberSpells(p, t, v) {
      NumberHeads(t);
    }
  }

  lemma DataNumberRead(p: Printer, t: bytes, d: nat, v: Json, rest: bytes)
    requires NumberSpells(p, t, v) && After(rest) && d <= 128
    ensures D.ReadData(p, t + rest, d) == Ok((v, rest))
  {
    hide NumberForm, NumberLength, Strict, D.LargeInteger;
    NumberHeads(t);
    HeadThen(t, rest);
    SkipNone(t + rest);
    NumberComplete(t, rest);
    Peel(t, rest);
  }

  lemma DataWordRead(p: Printer, t: bytes, d: nat, v: Json, rest: bytes)
    requires WordText(t, v) && d <= 128
    ensures D.ReadData(p, t + rest, d) == Ok((v, rest))
  {
    hide D.ReadNumber, ReadString;
    var s := t + rest;
    SkipNone(s);
    Peel(t, rest);
    assert s[..|t|] == t;
    if v.Null? {
      assert NULL <= s;
    } else if v.b {
      assert TRUE <= s;
    } else {
      assert FALSE <= s;
    }
  }

  lemma DataTextRead(p: Printer, t: bytes, d: nat, text: bytes, rest: bytes)
    requires StringText(t, text) && d <= 128
    ensures D.ReadData(p, t + rest, d) == Ok((Text(text), rest))
  {
    hide ReadString, BodySpells;
    EnclosedThen(t, QUOTE, QUOTE, rest);
    StringComplete(Inner(t), text, rest);
    SkipNone(t + rest);
  }

  lemma {:induction false} DataComplete(p: Printer, lead: bytes, a: bytes, d: nat, v: Json, rest: bytes)
    requires White(lead) && DataSpells(p, a, d, v) && After(rest)
    ensures D.ReadData(p, lead + (a + rest), d) == Ok((v, rest))
    decreases |a|, 2
  {
    hide D.ReadData, White, NumberSpells, After, StringText, WordText, DataItemsText, DataMapText;
    SkipWhite(lead, a + rest);
    DataLeadSkipped(p, lead + (a + rest), a + rest, d);
    if WordText(a, v) {
      DataWordRead(p, a, d, v, rest);
    } else if NumberSpells(p, a, v) {
      DataNumberRead(p, a, d, v, rest);
    } else if v.Text? {
      DataTextRead(p, a, d, v.s, rest);
    } else if v.List? {
      DataListComplete(p, a, d, v.items, rest);
    } else {
      DataObjectComplete(p, a, d, v.entries, rest);
    }
  }

  lemma {:induction false} DataListComplete(p: Printer, a: bytes, d: nat, items: seq<Json>, rest: bytes)
    requires d <= 128 && Enclosed(a, OPEN_LIST, CLOSE_LIST)
    requires (items == [] && White(Inner(a))) || DataItemsText(p, Inner(a), d + 1, items)
    ensures D.ReadData(p, a + rest, d) == Ok((List(items), rest))
    decreases |a|, 1
  {
    hide DataItemsText, D.DataItems, White, D.ReadData;
    var inner, tail := Inner(a), [CLOSE_LIST] + rest;
    EnclosedThen(a, OPEN_LIST, CLOSE_LIST, rest);
    D.ListOpened(p, a + rest, d);
    if DataItemsText(p, inner, d + 1, items) {
      DataItemsComplete(p, inner, d + 1, items, rest);
    } else {
      SkipWhite(inner, tail);
      SkipNone(tail);
      D.NoItems(p, rest, d + 1);
    }
  }

  lemma DataItemsHead(p: Printer, t: bytes, d: nat, items: seq<Json>, tail: bytes)
    requires DataItemsText(p, t, d, items)
    ensures Skip(t + tail) != [] && !Starts(Skip(t + tail), CLOSE_LIST)
  {
    hide DataSpells, White;
    var lead, item, trail, rest :| DataItemsParts(p, t, d, items, lead, item, trail, rest);
    DataHeads(p, item, d, items[0]);
    assert t == lead + (item + t[|lead| + |item|..]);
    LedHead(lead, item, t[|lead| + |item|..], tail, t + tail);
  }

  lemma DataItemsCut(p: Printer, t: bytes, d: nat, items: seq<Json>) returns (lead: bytes, item: bytes, trail: bytes, rest: bytes)
    requires DataItemsText(p, t, d, items)
    ensures items != [] && DataItemsParts(p, t, d, items, lead, item, trail, rest)
  {
    hide DataItemsParts;
    lead, item, trail, rest :| DataItemsParts(p, t, d, items, lead, item, trail, rest);
  }

  /** The first item, and the white space, and what comes then. */
  lemma ItemFirst(p: Printer, s: bytes, d: nat, v: Json, more: bytes)
    requires Skip(s) != [] && !Starts(Skip(s), CLOSE_LIST) && D.ReadData(p, s, d) == Ok((v, more))
    ensures var u := Skip(more);
            && (Starts(u, CLOSE_LIST) ==> D.DataItems(p, Skip(s), d) == Ok(([v], u[1..])))
            && (Starts(u, COMMA) && !Starts(Skip(u[1..]), CLOSE_LIST) ==>
                  var rest := D.DataItems(p, Skip(u[1..]), d);
                  D.DataItems(p, Skip(s), d) == if rest.Err? then rest else Ok(([v] + rest.value.0, rest.value.1)))
  {
    hide D.ReadData, Skip;
    SkipTwice(s);
    DataLeadSkipped(p, s, Skip(s), d);
  }

  lemma {:induction false} DataItemsComplete(p: Printer, t: bytes, d: nat, items: seq<Json>, rest: bytes)
    requires DataItemsText(p, t, d, items)
    ensures D.DataItems(p, Skip(t + ([CLOSE_LIST] + rest)), d) == Ok((items, rest))
    decreases |t|, 3
  {
    hide DataSpells, White, D.ReadData, After, DataItemsText, Skip, D.DataItems, Starts, DataItemsParts;
    var lead, item, trail, others := DataItemsCut(p, t, d, items);
    var tail := [CLOSE_LIST] + rest;
    DataItemsHead(p, t, d, items, tail);
    DataItemsPieces(p, t, d, items, lead, item, trail, others);
    if |items| == 1 {
      var after := trail + tail;
      Nest3(lead, item, trail, tail);
      AfterTrail(trail, CLOSE_LIST, rest);
      DataComplete(p, lead, item, d, items[0], after);
      LastRead(p, t + tail, d, items[0], after, rest);
      assert items == [items[0]];
    } else {
      var after := trail + ([COMMA] + (others + tail));
      Nest5(lead, item, trail, [COMMA], others, tail);
      AfterTrail(trail, COMMA, others + tail);
      DataComplete(p, lead, item, d, items[0], after);
      DataItemsHead(p, others, d, items[1..], tail);
      DataItemsComplete(p, others, d, items[1..], rest);
      NextRead(p, t + tail, d, items[0], after, others + tail, items[1..], rest);
      assert items == [items[0]] + items[1..];
    }
  }

  lemma DataItemsPieces(p: Printer, t: bytes, d: nat, items: seq<Json>, lead: bytes, item: bytes, trail: bytes, rest: bytes)
    requires items != [] && DataItemsParts(p, t, d, items, lead, item, trail, rest)
    ensures White(lead) && White(trail) && DataSpells(p, item, d, items[0]) && |item| <= |t|
    ensures |items| == 1 ==> t == lead + (item + trail)
    ensures |items| > 1 ==> t == lead + (item + (trail + ([COMMA] + rest))) && |rest| < |t| && DataItemsText(p, rest, d, items[1..])
  {
    hide DataSpells, White, DataItemsText;
  }

  lemma LastRead(p: Printer, s: bytes, d: nat, v: Json, more: bytes, rest: bytes)
    requires Skip(s) != [] && !Starts(Skip(s), CLOSE_LIST) && D.ReadData(p, s, d) == Ok((v, more))
    requires Skip(more) == [CLOSE_LIST] + rest
    ensures D.DataItems(p, Skip(s), d) == Ok(([v], rest))
  {
    hide D.ReadData, Skip, D.DataItems;
    ItemFirst(p, s, d, v, more);
  }

  lemma NextRead(p: Printer, s: bytes, d: nat, v: Json, more: bytes, next: bytes, items: seq<Json>, rest: bytes)
    requires Skip(s) != [] && !Starts(Skip(s), CLOSE_LIST) && D.ReadData(p, s, d) == Ok((v, more))
    requires Skip(more) == [COMMA] + next && !Starts(Skip(next), CLOSE_LIST) && D.DataItems(p, Skip(next), d) == Ok((items, rest))
    ensures D.DataItems(p, Skip(s), d) == Ok(([v] + items, rest))
  {
    hide D.ReadData, Skip, D.DataItems;
    assert ([COMMA] + next)[1..] == next;
    ItemFirst(p, s, d, v, more);
  }

  lemma {:induction false} DataObjectComplete(p: Printer, a: bytes, d: nat, entries: seq<Entry>, rest: bytes)
    requires d <= 128 && Enclosed(a, OPEN_OBJECT, CLOSE_OBJECT)
    requires (entries == [] && White(Inner(a))) || DataMapText(p, Inner(a), d + 1, entries)
    ensures D.ReadData(p, a + rest, d) == Ok((Object(entries), rest))
    decreases |a|, 1
  {
    hide DataEntriesText, D.DataEntries, White, D.ReadData;
    var inner, tail := Inner(a), [CLOSE_OBJECT] + rest;
    EnclosedThen(a, OPEN_OBJECT, CLOSE_OBJECT, rest);
    D.ObjectOpened(p, a + rest, d);
    if DataMapText(p, inner, d + 1, entries) {
      var raw :| EntriesSpell(p, inner, d + 1, raw, entries);
      DataEntriesComplete(p, inner, d + 1, raw, [], rest);
    } else {
      SkipWhite(inner, tail);
      SkipNone(tail);
      D.NoEntries(p, rest, d + 1);
    }
  }

  lemma DataEntryHeads(p: Printer, t: bytes, d: nat, e: Entry)
    requires DataEntryText(p, t, d, e)
    ensures t != [] && t[0] == QUOTE
  {
    hide DataSpells, White, BodySpells;
    var key, before, after, value :| DataEntryParts(p, t, d, e, key, before, after, value);
    HeadThen(key, before + ([COLON] + (after + value)));
  }

  lemma {:induction false} DataEntryComplete(p: Printer, t: bytes, d: nat, e: Entry, rest: bytes)
    requires DataEntryText(p, t, d, e) && After(rest)
    ensures D.DataEntry(p, t + rest, d) == Ok((e, rest))
    decreases |t|, 3
  {
    hide DataSpells, White, D.ReadData, After, BodySpells, Skip, ReadString;
    var key, before, after, value :| DataEntryParts(p, t, d, e, key, before, after, value);
    var tail := before + ([COLON] + (after + (value + rest)));
    Nest5(key, before, [COLON], after, value, rest);
    EnclosedThen(key, QUOTE, QUOTE, tail);
    StringComplete(Inner(key), e.key, tail);
    SkipColon(before, after + (value + rest));
    DataComplete(p, after, value, d, e.value, rest);
  }

  lemma DataEntriesCut(p: Printer, t: bytes, d: nat, entries: seq<Entry>)
    returns (lead: bytes, entry: bytes, trail: bytes, rest: bytes)
    requires DataEntriesText(p, t, d, entries)
    ensures entries != [] && DataEntriesParts(p, t, d, entries, lead, entry, trail, rest)
  {
    hide DataEntriesParts;
    lead, entry, trail, rest :| DataEntriesParts(p, t, d, entries, lead, entry, trail, rest);
  }

  /** Behind white space an entry stands first. */
  lemma EntryStands(p: Printer, lead: bytes, entry: bytes, d: nat, e: Entry, rest: bytes)
    requires White(lead) && DataEntryText(p, entry, d, e)
    ensures Skip(lead + (entry + rest)) == entry + rest && Starts(entry + rest, QUOTE)
  {
    hide White;
    DataEntryHeads(p, entry, d, e);
    HeadThen(entry, rest);
    SkipWhite(lead, entry + rest);
    SkipNone(entry + rest);
  }

  /** The first entry, and the white space, and what comes then. */
  lemma EntryFirst(p: Printer, t: bytes, d: nat, before: seq<Entry>, e: Entry, more: bytes)
    requires Starts(t, QUOTE) && D.DataEntry(p, t, d) == Ok((e, more))
    ensures var u := Skip(more);
            && (Starts(u, CLOSE_OBJECT) ==> D.DataEntries(p, t, d, before) == Ok((D.SetEntry(before, e), u[1..])))
            && (Starts(u, COMMA) && !Starts(Skip(u[1..]), CLOSE_OBJECT) ==>
                  D.DataEntries(p, t, d, before) == D.DataEntries(p, Skip(u[1..]), d, D.SetEntry(before, e)))
  {
    hide D.DataEntry, Skip, D.SetEntry;
  }

  lemma {:induction false} DataEntriesComplete(p: Printer, t: bytes, d: nat, raw: seq<Entry>, before: seq<Entry>, rest: bytes)
    requires DataEntriesText(p, t, d, raw)
    ensures D.DataEntries(p, Skip(t + ([CLOSE_OBJECT] + rest)), d, before) == Ok((SetAll(before, raw), rest))
    decreases |t|, 4
  {
    hide DataEntryText, White, D.DataEntry, After, DataEntriesText, Skip, D.DataEntries, D.SetEntry;
    var lead, entry, trail, others := DataEntriesCut(p, t, d, raw);
    var tail := [CLOSE_OBJECT] + rest;
    var e := raw[0];
    if |raw| == 1 {
      Nest3(lead, entry, trail, tail);
      AfterTrail(trail, CLOSE_OBJECT, rest);
      EntryStands(p, lead, entry, d, e, trail + tail);
      DataEntryComplete(p, entry, d, e, trail + tail);
      EntryFirst(p, entry + (trail + tail), d, before, e, trail + tail);
      assert raw[1..] == [];
    } else {
      var more := [COMMA] + (others + tail);
      Nest5(lead, entry, trail, [COMMA], others, tail);
      AfterTrail(trail, COMMA, others + tail);
      EntryStands(p, lead, entry, d, e, trail + more);
      DataEntryComplete(p, entry, d, e, trail + more);
      EntriesStand(p, others, d, raw[1..], tail);
      assert more[1..] == others + tail;
      EntryFirst(p, entry + (trail + more), d, before, e, trail + more);
      DataEntriesComplete(p, others, d, raw[1..], D.SetEntry(before, e), rest);
    }
  }

  lemma EntriesStand(p: Printer, t: bytes, d: nat, raw: seq<Entry>, tail: bytes)
    requires DataEntriesText(p, t, d, raw)
    ensures !Starts(Skip(t + tail), CLOSE_OBJECT)
  {
    hide DataEntryText, White, Skip;
    var lead, entry, trail, rest :| DataEntriesParts(p, t, d, raw, lead, entry, trail, rest);
    var more := t[|lead| + |entry|..];
    assert t == lead + (entry + more);
    Nest3(lead, entry, more, tail);
    EntryStands(p, lead, entry, d, raw[0], more + tail);
  }

  // ----- documents

  /** `json_parse` reads exactly these documents, and each as the value it spells. */
  lemma DataDocumentsRead(p: Printer, t: bytes, v: Json)
    ensures D.ParseText(p, t) == Ok(v) <==> DataDocumentText(p, t, v)
  {
    hide D.ReadData, White, DataSpells;
    if D.ParseText(p, t) == Ok(v) {
      var lead, value := DataSound(p, t, 0);
      var trail := D.ReadData(p, t, 0).value.1;
      SkipsAll(trail);
      assert DataDocumentParts(p, t, v, lead, value, trail);
    }
    if DataDocumentText(p, t, v) {
      var lead, value, trail :| DataDocumentParts(p, t, v, lead, value, trail);
      WhiteAfter(trail);
      DataComplete(p, lead, value, 0, v, trail);
      SkipsAll(trail);
    }
  }

  /** Such a document spells one value. */
  lemma OneDataValue(p: Printer, t: bytes, v: Json, w: Json)
    requires DataDocumentText(p, t, v) && DataDocumentText(p, t, w)
    ensures v == w
  {
    DataDocumentsRead(p, t, v);
    DataDocumentsRead(p, t, w);
  }
}
