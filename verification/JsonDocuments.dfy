/**
 The documents that `decode_document` reads: a grammar of values, and the proof that exactly its texts are read,
 each as the value it spells.
 */
module JsonDocuments {
  import opened Bytes
  import opened Seqs
  import opened JsonText
  import opened Json
  import opened JsonGrammar
  import opened JsonNumbers

  // ----- the grammar

  /** A text between a byte that opens it and a byte that closes it. */
  predicate Enclosed(t: bytes, open: byte, close: byte) { |t| >= 2 && t[0] == open && t[|t| - 1] == close }

  function Inner(t: bytes): bytes
    requires |t| >= 2
  {
    t[1..|t| - 1]
  }

  ghost predicate StringText(t: bytes, s: bytes) { Enclosed(t, '"' as int, '"' as int) && BodySpells(Inner(t), s) }

  predicate WordText(t: bytes, v: Json) {
    match v
    case Null => t == ['n' as int, 'u' as int, 'l' as int, 'l' as int]
    case Flag(b) =>
      t == if b then ['t' as int, 'r' as int, 'u' as int, 'e' as int] else ['f' as int, 'a' as int, 'l' as int, 's' as int, 'e' as int]
    case _ => false
  }

  /** The text, from its first byte to its last, is this value. */
  ghost predicate Spells(p: Printer, t: bytes, v: Json)
    decreases v, 0
  {
    match v
    case Null => WordText(t, v)
    case Flag(_) => WordText(t, v)
    case Number(n) => NumberForm(t) && p.read(t) == Some(n)
    case Text(s) => StringText(t, s)
    case List(items) => Enclosed(t, '[' as int, ']' as int) && if items == [] then White(Inner(t)) else ItemsText(p, Inner(t), items)
    case Object(entries) =>
      && Enclosed(t, '{' as int, '}' as int) && DistinctKeys(entries)
      && if entries == [] then White(Inner(t)) else EntriesText(p, Inner(t), entries)
  }

  /** Items with commas between them and white space around them. */
  ghost predicate ItemsText(p: Printer, t: bytes, items: seq<Json>)
    decreases items, 1
  {
    items != [] && exists lead, item, trail, rest :: ItemsParts(p, t, items, lead, item, trail, rest)
  }

  ghost predicate ItemsParts(p: Printer, t: bytes, items: seq<Json>, lead: bytes, item: bytes, trail: bytes, rest: bytes)
    requires items != []
    decreases items, 0
  {
    && White(lead) && White(trail) && Spells(p, item, items[0])
    && if |items| == 1 then t == lead + (item + trail)
       else t == lead + (item + (trail + ([',' as int] + rest))) && ItemsText(p, rest, items[1..])
  }

  /** A string, a colon and a value, with white space around the colon. */
  ghost predicate EntryText(p: Printer, t: bytes, e: Entry)
    decreases e, 1
  {
    exists key, before, after, value :: EntryParts(p, t, e, key, before, after, value)
  }

  ghost predicate EntryParts(p: Printer, t: bytes, e: Entry, key: bytes, before: bytes, after: bytes, value: bytes)
    decreases e, 0
  {
    && StringText(key, e.key) && White(before) && White(after) && Spells(p, value, e.value)
    && t == key + (before + ([':' as int] + (after + value)))
  }

  ghost predicate EntriesText(p: Printer, t: bytes, entries: seq<Entry>)
    decreases entries, 1
  {
    entries != [] && exists lead, entry, trail, rest :: EntriesParts(p, t, entries, lead, entry, trail, rest)
  }

  ghost predicate EntriesParts(p: Printer, t: bytes, entries: seq<Entry>, lead: bytes, entry: bytes, trail: bytes, rest: bytes)
    requires entries != []
    decreases entries, 0
  {
    && White(lead) && White(trail) && EntryText(p, entry, entries[0])
    && if |entries| == 1 then t == lead + (entry + trail)
       else t == lead + (entry + (trail + ([',' as int] + rest))) && EntriesText(p, rest, entries[1..])
  }

  ghost predicate DocumentParts(p: Printer, t: bytes, v: Json, lead: bytes, value: bytes, trail: bytes) {
    White(lead) && White(trail) && Spells(p, value, v) && t == lead + (value + trail)
  }

  /** A document: one value, with white space around it. */
  ghost predicate DocumentText(p: Printer, t: bytes, v: Json) { exists lead, value, trail :: DocumentParts(p, t, v, lead, value, trail) }

  // ----- pieces of texts

  lemma InnerOf(open: byte, inner: bytes, close: byte)
    ensures var t := [open] + (inner + [close]); Enclosed(t, open, close) && Inner(t) == inner
  {}

  lemma EnclosedIs(t: bytes, open: byte, close: byte)
    requires Enclosed(t, open, close)
    ensures t == [open] + (Inner(t) + [close])
  {}

  /** The closing byte and what follows it stand behind the inner text. */
  lemma EnclosedThen(t: bytes, open: byte, close: byte, rest: bytes)
    requires Enclosed(t, open, close)
    ensures t + rest == [open] + (Inner(t) + ([close] + rest)) && (t + rest)[0] == open && (t + rest)[1..] == Inner(t) + ([close] + rest)
  {
    EnclosedIs(t, open, close);
    Nest3([open], Inner(t), [close], rest);
  }

  lemma HeadThen(a: bytes, rest: bytes)
    requires a != []
    ensures (a + rest)[0] == a[0]
  {}

  lemma CutThen(t: bytes, inner: bytes, close: byte, rest: bytes)
    requires t != [] && t[1..] == inner + ([close] + rest)
    ensures t == ([t[0]] + (inner + [close])) + rest
  {
    Nest3([t[0]], inner, [close], rest);
    assert t == [t[0]] + t[1..];
  }

  lemma StartsWith(s: bytes, b: byte)
    requires Starts(s, b)
    ensures s == [b] + s[1..]
  {}

  // ----- what is read is spelt

  /** The value that a text starts with: white space, and a text that spells it. */
  ghost predicate ValueParts(p: Printer, text: bytes, v: Json, rest: bytes, lead: bytes, a: bytes) {
    White(lead) && Spells(p, a, v) && text == lead + (a + rest)
  }

  lemma {:induction false} ValueSound(p: Printer, text: bytes) returns (lead: bytes, a: bytes)
    requires ReadValue(p, text).Ok?
    ensures ValueParts(p, text, ReadValue(p, text).value.0, ReadValue(p, text).value.1, lead, a)
    decreases |text|, 2
  {
    hide NumberLength, ReadString, Spells, ParseNumber;
    lead := SkipSplit(text);
    var s := Skip(text);
    var (v, rest) := ReadValue(p, text).value;
    if s[0] == QUOTE {
      a := TextSound(p, s);
    } else if v.List? {
      a := ListSound(p, s);
    } else if v.Object? {
      a := ObjectSound(p, s);
    } else {
      a := AtomSound(p, s, v, rest);
    }
  }

  lemma TextSound(p: Printer, s: bytes) returns (a: bytes)
    requires Starts(s, QUOTE) && ReadString(s[1..]).Ok?
    ensures Spells(p, a, Text(ReadString(s[1..]).value.0)) && s == a + ReadString(s[1..]).value.1
  {
    hide ReadString, BodySpells;
    var b := StringSound(s[1..]);
    a := [QUOTE] + (b + [QUOTE]);
    InnerOf(QUOTE, b, QUOTE);
    CutThen(s, b, QUOTE, ReadString(s[1..]).value.1);
  }

  lemma AtomSound(p: Printer, s: bytes, v: Json, rest: bytes) returns (a: bytes)
    requires s != []
    requires if NULL <= s then v == Null && rest == s[4..]
             else if TRUE <= s then v == Flag(true) && rest == s[4..]
             else if FALSE <= s then v == Flag(false) && rest == s[5..]
             else ParseNumber(p, s) == Ok((v, rest))
    ensures Spells(p, a, v) && s == a + rest
  {
    hide NumberLength, NumberForm;
    if NULL <= s || TRUE <= s {
      a := s[..4];
    } else if FALSE <= s {
      a := s[..5];
    } else {
      NumberSound(s);
      a := s[..NumberLength(s).value];
    }
  }

  lemma ListSpells(p: Printer, inner: bytes, items: seq<Json>)
    requires ((items == [] && White(inner)) || ItemsText(p, inner, items))
    ensures Spells(p, [OPEN_LIST] + (inner + [CLOSE_LIST]), List(items))
  {
    hide ItemsParts, White;
    InnerOf(OPEN_LIST, inner, CLOSE_LIST);
  }

  lemma {:induction false} ListSound(p: Printer, s: bytes) returns (a: bytes)
    requires Starts(s, OPEN_LIST) && ReadValue(p, s).Ok? && ReadValue(p, s).value.0.List?
    ensures Spells(p, a, ReadValue(p, s).value.0) && s == a + ReadValue(p, s).value.1
    decreases |s|, 1
  {
    hide ItemsText, NumberLength, ParseItems;
    var (v, rest) := ReadValue(p, s).value;
    var lead := SkipSplit(s[1..]);
    var t := Skip(s[1..]);
    var inner := lead;
    if Starts(t, CLOSE_LIST) {
      StartsWith(t, CLOSE_LIST);
    } else {
      var more := ItemsSound(p, t);
      ItemsLed(p, lead, more, v.items);
      inner := lead + more;
      Assoc(lead, more, [CLOSE_LIST] + rest);
    }
    a := [OPEN_LIST] + (inner + [CLOSE_LIST]);
    ListSpells(p, inner, v.items);
    CutThen(s, inner, CLOSE_LIST, rest);
  }

  /** White space may be put before items. */
  lemma ItemsLed(p: Printer, w: bytes, t: bytes, items: seq<Json>)
    requires White(w) && ItemsText(p, t, items)
    ensures ItemsText(p, w + t, items)
  {
    hide Spells, White;
    var lead, item, trail, rest :| ItemsParts(p, t, items, lead, item, trail, rest);
    WhiteBoth(w, lead);
    Assoc(w, lead, item + if |items| == 1 then trail else trail + ([COMMA] + rest));
    assert ItemsParts(p, w + t, items, w + lead, item, trail, rest);
  }

  lemma LastItem(p: Printer, lead: bytes, item: bytes, trail: bytes, v: Json)
    requires White(lead) && White(trail) && Spells(p, item, v)
    ensures ItemsText(p, lead + (item + trail), [v])
  {
    hide Spells, White;
    assert ItemsParts(p, lead + (item + trail), [v], lead, item, trail, []);
  }

  lemma NextItem(p: Printer, lead: bytes, item: bytes, trail: bytes, v: Json, rest: bytes, items: seq<Json>)
    requires White(lead) && White(trail) && Spells(p, item, v) && ItemsText(p, rest, items)
    ensures ItemsText(p, lead + (item + (trail + ([COMMA] + rest))), [v] + items)
  {
    hide Spells, White;
    var all := [v] + items;
    assert all[0] == v && all[1..] == items && items != [];
    assert ItemsParts(p, lead + (item + (trail + ([COMMA] + rest))), all, lead, item, trail, rest);
  }

  lemma {:induction false} ItemsSound(p: Printer, s: bytes) returns (inner: bytes)
    requires ParseItems(p, s).Ok?
    ensures ItemsText(p, inner, ParseItems(p, s).value.0) && s == inner + ([CLOSE_LIST] + ParseItems(p, s).value.1)
    decreases |s|, 3
  {
    hide ReadValue, Spells, ItemsText, White;
    var lead, item := ValueSound(p, s);
    var (v, more) := ReadValue(p, s).value;
    var trail := SkipSplit(more);
    var t := Skip(more);
    if Starts(t, CLOSE_LIST) {
      StartsWith(t, CLOSE_LIST);
      LastItem(p, lead, item, trail, v);
      inner := lead + (item + trail);
      Nest3(lead, item, trail, [CLOSE_LIST] + t[1..]);
    } else {
      StartsWith(t, COMMA);
      var others := ItemsSound(p, t[1..]);
      var (items, rest) := ParseItems(p, t[1..]).value;
      NextItem(p, lead, item, trail, v, others, items);
      inner := lead + (item + (trail + ([COMMA] + others)));
      Nest5(lead, item, trail, [COMMA], others, [CLOSE_LIST] + rest);
    }
  }

  // ----- entries

  /** No key is one of these, and none comes twice. */
  predicate Unseen(entries: seq<Entry>, seen: set<bytes>) {
    DistinctKeys(entries) && forall i :: 0 <= i < |entries| ==> entries[i].key !in seen
  }

  lemma UnseenMore(e: Entry, entries: seq<Entry>, seen: set<bytes>)
    ensures Unseen([e] + entries, seen) <==> (e.key !in seen && Unseen(entries, seen + {e.key}))
  {
    var all := [e] + entries;
    assert all[0] == e && all[1..] == entries;
    if Unseen(all, seen) {
      forall i, j | 0 <= i < j < |entries| ensures entries[i].key != entries[j].key {
        assert all[i + 1] == entries[i] && all[j + 1] == entries[j];
      }
      forall i | 0 <= i < |entries| ensures entries[i].key !in seen + {e.key} {
        assert all[i + 1] == entries[i] && all[0] == e;
      }
    }
  }

  lemma ObjectSpells(p: Printer, inner: bytes, entries: seq<Entry>)
    requires DistinctKeys(entries) && ((entries == [] && White(inner)) || EntriesText(p, inner, entries))
    ensures Spells(p, [OPEN_OBJECT] + (inner + [CLOSE_OBJECT]), Object(entries))
  {
    hide EntriesParts, White, DistinctKeys;
    InnerOf(OPEN_OBJECT, inner, CLOSE_OBJECT);
  }

  lemma {:induction false} ObjectSound(p: Printer, s: bytes) returns (a: bytes)
    requires Starts(s, OPEN_OBJECT) && ReadValue(p, s).Ok? && ReadValue(p, s).value.0.Object?
    ensures Spells(p, a, ReadValue(p, s).value.0) && s == a + ReadValue(p, s).value.1
    decreases |s|, 1
  {
    hide EntriesText, NumberLength, ParseEntries;
    var (v, rest) := ReadValue(p, s).value;
    var lead := SkipSplit(s[1..]);
    var t := Skip(s[1..]);
    var inner := lead;
    if Starts(t, CLOSE_OBJECT) {
      StartsWith(t, CLOSE_OBJECT);
    } else {
      var more := EntriesSound(p, t, {});
      EntriesLed(p, lead, more, v.entries);
      inner := lead + more;
      Assoc(lead, more, [CLOSE_OBJECT] + rest);
    }
    a := [OPEN_OBJECT] + (inner + [CLOSE_OBJECT]);
    ObjectSpells(p, inner, v.entries);
    CutThen(s, inner, CLOSE_OBJECT, rest);
  }

  lemma EntriesLed(p: Printer, w: bytes, t: bytes, entries: seq<Entry>)
    requires White(w) && EntriesText(p, t, entries)
    ensures EntriesText(p, w + t, entries)
  {
    hide EntryText, White;
    var lead, entry, trail, rest :| EntriesParts(p, t, entries, lead, entry, trail, rest);
    WhiteBoth(w, lead);
    Assoc(w, lead, entry + if |entries| == 1 then trail else trail + ([COMMA] + rest));
    assert EntriesParts(p, w + t, entries, w + lead, entry, trail, rest);
  }

  lemma LastEntry(p: Printer, lead: bytes, entry: bytes, trail: bytes, e: Entry)
    requires White(lead) && White(trail) && EntryText(p, entry, e)
    ensures EntriesText(p, lead + (entry + trail), [e])
  {
    hide EntryText, White;
    assert EntriesParts(p, lead + (entry + trail), [e], lead, entry, trail, []);
  }

  lemma NextEntry(p: Printer, lead: bytes, entry: bytes, trail: bytes, e: Entry, rest: bytes, entries: seq<Entry>)
    requires White(lead) && White(trail) && EntryText(p, entry, e) && EntriesText(p, rest, entries)
    ensures EntriesText(p, lead + (entry + (trail + ([COMMA] + rest))), [e] + entries)
  {
    hide EntryText, White;
    var all := [e] + entries;
    assert all[0] == e && all[1..] == entries && entries != [];
    assert EntriesParts(p, lead + (entry + (trail + ([COMMA] + rest))), all, lead, entry, trail, rest);
  }

  /** A key that is read stands in quotes. */
  lemma TextSpelt(p: Printer, t: bytes, v: Json)
    requires Spells(p, t, v) && v.Text?
    ensures StringText(t, v.s)
  {}

  lemma {:induction false} EntrySound(p: Printer, s: bytes, seen: set<bytes>) returns (lead: bytes, entry: bytes)
    requires ParseEntry(p, s, seen).Ok?
    ensures White(lead) && EntryText(p, entry, ParseEntry(p, s, seen).value.0) && s == lead + (entry + ParseEntry(p, s, seen).value.1)
    decreases |s|, 3
  {
    hide ReadValue, Spells, StringText, White;
    var key;
    lead, key := ValueSound(p, s);
    var (k, more) := ReadValue(p, s).value;
    TextSpelt(p, key, k);
    var before := SkipSplit(more);
    var t := Skip(more);
    StartsWith(t, COLON);
    var after, value := ValueSound(p, t[1..]);
    var (v, rest) := ReadValue(p, t[1..]).value;
    entry := key + (before + ([COLON] + (after + value)));
    assert EntryParts(p, entry, Entry(k.s, v), key, before, after, value);
    Nest5(key, before, [COLON], after, value, rest);
  }

  lemma {:induction false} EntriesSound(p: Printer, s: bytes, seen: set<bytes>) returns (inner: bytes)
    requires ParseEntries(p, s, seen).Ok?
    ensures var (entries, rest) := ParseEntries(p, s, seen).value;
            Unseen(entries, seen) && EntriesText(p, inner, entries) && s == inner + ([CLOSE_OBJECT] + rest)
    decreases |s|, 4
  {
    hide EntryText, EntriesText, White;
    var lead, entry := EntrySound(p, s, seen);
    var (e, more) := ParseEntry(p, s, seen).value;
    KeyUnseen(p, s, seen);
    hide ParseEntry;
    var trail := SkipSplit(more);
    var t := Skip(more);
    if Starts(t, CLOSE_OBJECT) {
      StartsWith(t, CLOSE_OBJECT);
      LastEntry(p, lead, entry, trail, e);
      inner := lead + (entry + trail);
      Nest3(lead, entry, trail, [CLOSE_OBJECT] + t[1..]);
    } else {
      StartsWith(t, COMMA);
      var others := EntriesSound(p, t[1..], seen + {e.key});
      var (entries, rest) := ParseEntries(p, t[1..], seen + {e.key}).value;
      UnseenMore(e, entries, seen);
      NextEntry(p, lead, entry, trail, e, others, entries);
      inner := lead + (entry + (trail + ([COMMA] + others)));
      Nest5(lead, entry, trail, [COMMA], others, [CLOSE_OBJECT] + rest);
    }
  }

  lemma KeyUnseen(p: Printer, s: bytes, seen: set<bytes>)
    requires ParseEntry(p, s, seen).Ok?
    ensures ParseEntry(p, s, seen).value.0.key !in seen
  {
    hide ReadValue;
  }

  // ----- what is spelt is read

  /** A value is read from its first byte: white space before it is skipped. */
  lemma LeadSkipped(p: Printer, s: bytes, t: bytes)
    requires Skip(s) == Skip(t)
    ensures ReadValue(p, s) == ReadValue(p, t)
  {
    hide NumberLength, ReadString, ParseNumber, ParseItems, ParseEntries;
  }

  lemma {:induction false} SkipTwice(s: bytes)
    ensures Skip(Skip(s)) == Skip(s)
  {
    if s != [] && Space(s[0]) {
      SkipTwice(s[1..]);
    }
  }

  predicate Heads(b: byte) { !Space(b) && b != COMMA && b != CLOSE_LIST && b != CLOSE_OBJECT }

  lemma NumberHeads(t: bytes)
    requires NumberForm(t)
    ensures t != [] && Heads(t[0]) && t[0] != QUOTE && t[0] != OPEN_LIST && t[0] != OPEN_OBJECT
    ensures t[0] != NULL[0] && t[0] != TRUE[0] && t[0] != FALSE[0]
  {
    hide ExponentText;
    var sign, whole, fraction, exponent :| NumberParts(t, sign, whole, fraction, exponent);
    if sign != [] {
      HeadThen(sign, whole + (fraction + exponent));
    } else {
      assert t == whole + (fraction + exponent);
      if whole != [] {
        HeadThen(whole, fraction + exponent);
      } else {
        assert t == fraction + exponent;
        HeadThen(fraction, exponent);
      }
    }
  }

  lemma SpellsHeads(p: Printer, t: bytes, v: Json)
    requires Spells(p, t, v)
    ensures t != [] && Heads(t[0])
  {
    hide NumberForm, ItemsText, EntriesText, BodySpells;
    if v.Number? {
      NumberHeads(t);
    }
  }

  lemma NumberRead(p: Printer, t: bytes, n: nat, rest: bytes)
    requires NumberForm(t) && p.read(t) == Some(n) && After(rest)
    ensures ReadValue(p, t + rest) == Ok((Number(n), rest))
  {
    hide NumberForm, NumberLength;
    NumberHeads(t);
    HeadThen(t, rest);
    SkipNone(t + rest);
    NumberComplete(t, rest);
    Peel(t, rest);
  }

  lemma WordRead(p: Printer, t: bytes, v: Json, rest: bytes)
    requires WordText(t, v)
    ensures ReadValue(p, t + rest) == Ok((v, rest))
  {
    hide ParseNumber, ReadString;
    var s := t + rest;
    SkipNone(s);
    Peel(t, rest);
    assert s[..|t|] == t;
    if v.Null? {
      assert NULL <= s;
    } else if v.b {
      assert TRUE <= s;
    } else {
      assert FALSE <= s;
    }
  }

  lemma TextRead(p: Printer, t: bytes, text: bytes, rest: bytes)
    requires StringText(t, text)
    ensures ReadValue(p, t + rest) == Ok((Text(text), rest))
  {
    hide ReadString, BodySpells;
    EnclosedThen(t, QUOTE, QUOTE, rest);
    StringComplete(Inner(t), text, rest);
    SkipNone(t + rest);
  }

  /** A text that spells a value, behind any white space, is read as that value. */
  lemma {:induction false} ValueComplete(p: Printer, lead: bytes, a: bytes, v: Json, rest: bytes)
    requires White(lead) && Spells(p, a, v) && (v.Number? ==> After(rest))
    ensures ReadValue(p, lead + (a + rest)) == Ok((v, rest))
    decreases v, 2
  {
    hide ReadValue, White, NumberForm, ItemsText, EntriesText;
    SkipWhite(lead, a + rest);
    LeadSkipped(p, lead + (a + rest), a + rest);
    match v
    case Number(n) => NumberRead(p, a, n, rest);
    case Text(s) => TextRead(p, a, s, rest);
    case List(items) => ListComplete(p, a, items, rest);
    case Object(entries) => ObjectComplete(p, a, entries, rest);
    case _ => WordRead(p, a, v, rest);
  }

  lemma {:induction false} ListComplete(p: Printer, a: bytes, items: seq<Json>, rest: bytes)
    requires Spells(p, a, List(items))
    ensures ReadValue(p, a + rest) == Ok((List(items), rest))
    decreases items, 4
  {
    hide ItemsText, ParseItems, White;
    var inner, tail := Inner(a), [CLOSE_LIST] + rest;
    EnclosedThen(a, OPEN_LIST, CLOSE_LIST, rest);
    SkipNone(a + rest);
    if items == [] {
      SkipWhite(inner, tail);
    } else {
      ItemsComplete(p, inner, items, rest);
      ItemsHead(p, inner, items, tail);
      SkipTwice(inner + tail);
      ItemsSkipped(p, inner + tail, Skip(inner + tail));
    }
  }

  lemma ItemsSkipped(p: Printer, s: bytes, t: bytes)
    requires Skip(s) == Skip(t)
    ensures ParseItems(p, s) == ParseItems(p, t)
  {
    hide ReadValue, Skip;
    LeadSkipped(p, s, t);
  }

  /** Items do not start with a closing bracket. */
  lemma ItemsHead(p: Printer, t: bytes, items: seq<Json>, tail: bytes)
    requires ItemsText(p, t, items)
    ensures !Starts(Skip(t + tail), CLOSE_LIST)
  {
    hide Spells, White;
    var lead, item, trail, rest :| ItemsParts(p, t, items, lead, item, trail, rest);
    SpellsHeads(p, item, items[0]);
    assert t == lead + (item + t[|lead| + |item|..]);
    LedHead(lead, item, t[|lead| + |item|..], tail, t + tail);
  }

  lemma LedHead(lead: bytes, item: bytes, more: bytes, tail: bytes, s: bytes)
    requires White(lead) && item != [] && Heads(item[0]) && s == (lead + (item + more)) + tail
    ensures Skip(s) != [] && Skip(s)[0] == item[0]
  {
    Nest3(lead, item, more, tail);
    SkipWhite(lead, item + (more + tail));
    HeadThen(item, more + tail);
    SkipNone(item + (more + tail));
  }

  /** White space and then a comma or a closing byte can follow a number. */
  lemma AfterTrail(trail: bytes, b: byte, rest: bytes)
    requires White(trail) && (b == COMMA || b == CLOSE_LIST || b == CLOSE_OBJECT || White([b]))
    ensures After(trail + ([b] + rest))
    ensures !Space(b) ==> Skip(trail + ([b] + rest)) == [b] + rest
  {
    SkipWhite(trail, [b] + rest);
    if trail == [] {
      assert trail + ([b] + rest) == [b] + rest;
      assert White([b]) ==> [b][0] == b && WhiteByte(b);
    }
    if !Space(b) {
      SkipNone([b] + rest);
    }
  }

  lemma {:induction false} ItemsComplete(p: Printer, t: bytes, items: seq<Json>, rest: bytes)
    requires ItemsText(p, t, items)
    ensures ParseItems(p, t + ([CLOSE_LIST] + rest)) == Ok((items, rest))
    decreases items, 3
  {
    hide Spells, White, ReadValue, After, ItemsText, Skip;
    var lead, item, trail, others := ItemsCut(p, t, items);
    var tail := [CLOSE_LIST] + rest;
    if |items| == 1 {
      Nest3(lead, item, trail, tail);
      AfterTrail(trail, CLOSE_LIST, rest);
      ValueComplete(p, lead, item, items[0], trail + tail);
      assert items == [items[0]];
    } else {
      Nest5(lead, item, trail, [COMMA], others, tail);
      AfterTrail(trail, COMMA, others + tail);
      ValueComplete(p, lead, item, items[0], trail + ([COMMA] + (others + tail)));
      ItemsComplete(p, others, items[1..], rest);
      assert items == [items[0]] + items[1..];
    }
  }

  lemma ItemsCut(p: Printer, t: bytes, items: seq<Json>) returns (lead: bytes, item: bytes, trail: bytes, rest: bytes)
    requires ItemsText(p, t, items)
    ensures items != [] && ItemsParts(p, t, items, lead, item, trail, rest)
  {
    hide ItemsParts;
    lead, item, trail, rest :| ItemsParts(p, t, items, lead, item, trail, rest);
  }

  lemma {:induction false} ObjectComplete(p: Printer, a: bytes, entries: seq<Entry>, rest: bytes)
    requires Spells(p, a, Object(entries))
    ensures ReadValue(p, a + rest) == Ok((Object(entries), rest))
    decreases entries, 5
  {
    hide EntriesText, ParseEntries, White;
    var inner, tail := Inner(a), [CLOSE_OBJECT] + rest;
    EnclosedThen(a, OPEN_OBJECT, CLOSE_OBJECT, rest);
    SkipNone(a + rest);
    if entries == [] {
      SkipWhite(inner, tail);
    } else {
      EntriesComplete(p, inner, entries, {}, rest);
      EntriesHead(p, inner, entries, tail);
      SkipTwice(inner + tail);
      EntriesSkipped(p, inner + tail, Skip(inner + tail));
    }
  }

  lemma EntriesSkipped(p: Printer, s: bytes, t: bytes)
    requires Skip(s) == Skip(t)
    ensures ParseEntries(p, s, {}) == ParseEntries(p, t, {})
  {
    hide ReadValue, Skip;
    LeadSkipped(p, s, t);
    assert ParseEntry(p, s, {}) == ParseEntry(p, t, {});
  }

  lemma EntriesHead(p: Printer, t: bytes, entries: seq<Entry>, tail: bytes)
    requires EntriesText(p, t, entries)
    ensures !Starts(Skip(t + tail), CLOSE_OBJECT)
  {
    hide EntryText, White;
    var lead, entry, trail, rest :| EntriesParts(p, t, entries, lead, entry, trail, rest);
    EntryHeads(p, entry, entries[0]);
    assert t == lead + (entry + t[|lead| + |entry|..]);
    LedHead(lead, entry, t[|lead| + |entry|..], tail, t + tail);
  }

  lemma EntryHeads(p: Printer, t: bytes, e: Entry)
    requires EntryText(p, t, e)
    ensures t != [] && Heads(t[0])
  {
    hide Spells, White, BodySpells;
    var key, before, after, value :| EntryParts(p, t, e, key, before, after, value);
    HeadThen(key, before + ([COLON] + (after + value)));
  }

  lemma EntriesCut(p: Printer, t: bytes, entries: seq<Entry>) returns (lead: bytes, entry: bytes, trail: bytes, rest: bytes)
    requires EntriesText(p, t, entries)
    ensures entries != [] && EntriesParts(p, t, entries, lead, entry, trail, rest)
  {
    hide EntriesParts;
    lead, entry, trail, rest :| EntriesParts(p, t, entries, lead, entry, trail, rest);
  }

  lemma {:induction false} EntryComplete(p: Printer, lead: bytes, t: bytes, e: Entry, seen: set<bytes>, rest: bytes)
    requires White(lead) && EntryText(p, t, e) && e.key !in seen && After(rest)
    ensures ParseEntry(p, lead + (t + rest), seen) == Ok((e, rest))
    decreases e, 3
  {
    hide Spells, White, ReadValue, After, BodySpells, Skip, StringText;
    var key, before, after, value :| EntryParts(p, t, e, key, before, after, value);
    var tail := before + ([COLON] + (after + (value + rest)));
    Nest5(key, before, [COLON], after, value, rest);
    TextRead(p, key, e.key, tail);
    KeyRead(p, lead, key, e.key, tail);
    SkipColon(before, after + (value + rest));
    ValueComplete(p, after, value, e.value, rest);
  }

  lemma KeyRead(p: Printer, lead: bytes, key: bytes, text: bytes, tail: bytes)
    requires White(lead) && ReadValue(p, key + tail) == Ok((Text(text), tail))
    ensures ReadValue(p, lead + (key + tail)) == Ok((Text(text), tail))
  {
    hide ReadValue, White;
    SkipWhite(lead, key + tail);
    LeadSkipped(p, lead + (key + tail), key + tail);
  }

  lemma SkipColon(before: bytes, rest: bytes)
    requires White(before)
    ensures Skip(before + ([COLON] + rest)) == [COLON] + rest
  {
    SkipWhite(before, [COLON] + rest);
    SkipNone([COLON] + rest);
  }

  lemma {:induction false} EntriesComplete(p: Printer, t: bytes, entries: seq<Entry>, seen: set<bytes>, rest: bytes)
    requires EntriesText(p, t, entries) && Unseen(entries, seen)
    ensures ParseEntries(p, t + ([CLOSE_OBJECT] + rest), seen) == Ok((entries, rest))
    decreases entries, 4
  {
    hide EntryText, White, ParseEntry, After, EntriesText, Skip, Unseen;
    var lead, entry, trail, others := EntriesCut(p, t, entries);
    var tail := [CLOSE_OBJECT] + rest;
    var e := entries[0];
    assert entries == [e] + entries[1..];
    UnseenMore(e, entries[1..], seen);
    if |entries| == 1 {
      Nest3(lead, entry, trail, tail);
      AfterTrail(trail, CLOSE_OBJECT, rest);
      EntryComplete(p, lead, entry, e, seen, trail + tail);
      assert entries == [e];
    } else {
      Nest5(lead, entry, trail, [COMMA], others, tail);
      AfterTrail(trail, COMMA, others + tail);
      EntryComplete(p, lead, entry, e, seen, trail + ([COMMA] + (others + tail)));
      EntriesComplete(p, others, entries[1..], seen + {e.key}, rest);
    }
  }

  // ----- documents

  lemma SkipsAll(w: bytes)
    ensures Skip(w) == [] <==> White(w)
  {
    hide White, Skip;
    if Skip(w) == [] {
      var lead := SkipSplit(w);
      assert w == lead;
    }
    if White(w) {
      SkipWhite(w, []);
      assert w + [] == w;
      SkipNone([]);
    }
  }

  /** `decode_document` reads exactly the documents, and each as the value it spells. */
  lemma DocumentsRead(p: Printer, t: bytes, v: Json)
    ensures Decode(p, t) == Ok(v) <==> DocumentText(p, t, v)
  {
    hide ReadValue, White, Spells;
    if Decode(p, t) == Ok(v) {
      var lead, value := ValueSound(p, t);
      var trail := ReadValue(p, t).value.1;
      SkipsAll(trail);
      assert DocumentParts(p, t, v, lead, value, trail);
    }
    if DocumentText(p, t, v) {
      var lead, value, trail :| DocumentParts(p, t, v, lead, value, trail);
      WhiteAfter(trail);
      ValueComplete(p, lead, value, v, trail);
      SkipsAll(trail);
    }
  }

  lemma WhiteAfter(w: bytes)
    requires White(w)
    ensures After(w)
  {}

  /** A document spells one value. */
  lemma OneValue(p: Printer, t: bytes, v: Json, w: Json)
    requires DocumentText(p, t, v) && DocumentText(p, t, w)
    ensures v == w
  {
    DocumentsRead(p, t, v);
    DocumentsRead(p, t, w);
  }
}
