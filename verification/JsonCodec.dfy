/** The encoder that appends to its output and the parser that moves an offset (`codec.rs`, `data.rs`), proved against `Json`. */
module JsonCodec {
  import opened Bytes
  import opened Seqs
  import opened JsonText
  import opened Json
  import Scan
  import Utf8

  // ----- the encoder

  /** `append_string` */
  method AppendString(out: bytes, s: bytes) returns (r: Result<bytes>)
    ensures r == if 0 in s then Err(Schema) else Ok(out + Quoted(s))
  {
    hide EscapeByte;
    if 0 in s {
      return Err(Schema);
    }
    var text := out + [QUOTE];
    assert s[0..] == s;
    for i := 0 to |s|
      invariant text + Escape(s[i..]) == out + [QUOTE] + Escape(s)
    {
      assert s[i..][1..] == s[i + 1..];
      Assoc(text, EscapeByte(s[i]), Escape(s[i + 1..]));
      text := text + EscapeByte(s[i]);
    }
    assert text + [] == text;
    Assoc(out + [QUOTE], Escape(s), [QUOTE]);
    Assoc(out, [QUOTE], Escape(s) + [QUOTE]);
    return Ok(text + [QUOTE]);
  }

  lemma {:induction false} InsertCommutes(e: Entry, entries: seq<Entry>)
    ensures SortedEntries(InsertEntry(e, entries)) == InsertEntry(Entry(e.key, Sorted(e.value)), SortedEntries(entries))
  {
    hide Sorted, Scan.Less;
    if entries != [] && Scan.Less(entries[0].key, e.key) {
      InsertCommutes(e, entries[1..]);
      assert InsertEntry(e, entries)[1..] == InsertEntry(e, entries[1..]);
      assert SortedEntries(entries)[1..] == SortedEntries(entries[1..]);
    } else {
      assert ([e] + entries)[1..] == entries;
    }
  }

  /** Sorting the entries and then their values is sorting the values and then the entries. */
  lemma {:induction false} SortCommutes(entries: seq<Entry>)
    ensures SortedEntries(SortEntries(entries)) == SortEntries(SortedEntries(entries))
  {
    hide Sorted, InsertEntry;
    if entries != [] {
      SortCommutes(entries[1..]);
      InsertCommutes(entries[0], SortEntries(entries[1..]));
      assert SortedEntries(entries)[1..] == SortedEntries(entries[1..]);
    }
  }

  lemma SortedMember(entries: seq<Entry>, i: nat)
    requires i < |entries|
    ensures SortEntries(entries)[i] in entries
  {
    SortMembers(entries);
    assert SortEntries(entries)[i] in SortEntries(entries);
  }

  /** `encode_value_into` */
  method EncodeInto(p: Printer, out: bytes, v: Json, depth: nat) returns (r: Result<bytes>)
    ensures r == if Fault(Sorted(v), depth).Some? then Err(Fault(Sorted(v), depth).value) else Ok(out + Write(p, Sorted(v)))
    decreases v, 1
  {
    hide WriteItems, WriteEntries, FaultItems, FaultEntries, SortEntries, SortedItems, SortedEntries, Escape;
    if depth > MAX_DEPTH {
      return Err(Limit);
    }
    match v
    case Null => return Ok(out + NULL);
    case Flag(b) => return Ok(out + if b then TRUE else FALSE);
    case Number(n) => return Ok(out + p.show(n));
    case Text(s) => r := AppendString(out, s);
    case List(items) =>
      var text := EncodeItems(p, out + [OPEN_LIST], items, depth + 1);
      if text.Err? {
        return text;
      }
      Append3(out, [OPEN_LIST], WriteItems(p, SortedItems(items)), [CLOSE_LIST]);
      return Ok(text.value + [CLOSE_LIST]);
    case Object(entries) =>
      var text := EncodeEntries(p, out + [OPEN_OBJECT], entries, depth + 1);
      if text.Err? {
        return text;
      }
      Append3(out, [OPEN_OBJECT], WriteEntries(p, SortEntries(SortedEntries(entries))), [CLOSE_OBJECT]);
      return Ok(text.value + [CLOSE_OBJECT]);
  }

  method EncodeItems(p: Printer, out: bytes, items: seq<Json>, depth: nat) returns (r: Result<bytes>)
    ensures var all := SortedItems(items);
            r == if FaultItems(all, depth).Some? then Err(FaultItems(all, depth).value) else Ok(out + WriteItems(p, all))
    decreases items, 0
  {
    hide Write, Fault, Sorted;
    ghost var all := SortedItems(items);
    SortedItemAt(items);
    var text := out;
    assert all[0..] == all && out + [] == out;
    for i := 0 to |items|
      invariant FaultItems(all, depth) == FaultItems(all[i..], depth)
      invariant i == 0 ==> text == out
      invariant 0 < i < |items| ==> text + ([COMMA] + WriteItems(p, all[i..])) == out + WriteItems(p, all)
      invariant 0 < i == |items| ==> text == out + WriteItems(p, all)
    {
      ghost var rest := all[i..];
      assert rest[1..] == all[i + 1..] && rest[0] == Sorted(items[i]);
      if i != 0 {
        Assoc(text, [COMMA], WriteItems(p, rest));
        text := text + [COMMA];
      }
      ghost var before := text;
      assert before + WriteItems(p, rest) == out + WriteItems(p, all);
      var item := EncodeInto(p, text, items[i], depth);
      if item.Err? {
        return item;
      }
      text := item.value;
      if i + 1 < |items| {
        Assoc(before, Write(p, rest[0]), [COMMA] + WriteItems(p, rest[1..]));
      }
    }
    return Ok(text);
  }

  /** The entries in the order of their keys. */
  method EncodeEntries(p: Printer, out: bytes, entries: seq<Entry>, depth: nat) returns (r: Result<bytes>)
    ensures var all := SortEntries(SortedEntries(entries));
            r == if FaultEntries(all, depth).Some? then Err(FaultEntries(all, depth).value) else Ok(out + WriteEntries(p, all))
    decreases entries, 0
  {
    hide Write, Fault, Sorted, SortEntries, Quoted;
    var sorted := SortEntries(entries);
    ghost var all := SortEntries(SortedEntries(entries));
    SortCommutes(entries);
    SortedAt(sorted);
    var text := out;
    assert all[0..] == all && out + [] == out && |all| == |sorted|;
    for i := 0 to |sorted|
      invariant FaultEntries(all, depth) == FaultEntries(all[i..], depth)
      invariant i == 0 ==> text == out
      invariant 0 < i < |sorted| ==> text + ([COMMA] + WriteEntries(p, all[i..])) == out + WriteEntries(p, all)
      invariant 0 < i == |sorted| ==> text == out + WriteEntries(p, all)
    {
      ghost var rest := all[i..];
      assert rest[1..] == all[i + 1..] && rest[0] == Entry(sorted[i].key, Sorted(sorted[i].value));
      if i != 0 {
        Assoc(text, [COMMA], WriteEntries(p, rest));
        text := text + [COMMA];
      }
      ghost var before := text;
      assert before + WriteEntries(p, rest) == out + WriteEntries(p, all);
      var key := AppendString(text, sorted[i].key);
      if key.Err? {
        return key;
      }
      SortedMember(entries, i);
      var e := sorted[i];
      assert e in entries;
      var value := EncodeInto(p, key.value + [COLON], e.value, depth);
      if value.Err? {
        return value;
      }
      text := value.value;
      Append3(before, Quoted(e.key), [COLON], Write(p, Sorted(e.value)));
      if i + 1 < |sorted| {
        Assoc(before, WriteEntry(p, rest[0]), [COMMA] + WriteEntries(p, rest[1..]));
      }
    }
    return Ok(text);
  }

  method EncodeValue(p: Printer, v: Json) returns (r: Result<bytes>)
    ensures r == Encode(p, v)
  {
    hide Write, Fault, Sorted;
    r := EncodeInto(p, [], v, 0);
    assert [] + Write(p, Sorted(v)) == Write(p, Sorted(v));
  }

  // ----- the parser

  class Parser {
    const p: Printer
    const data: bytes
    var offset: nat

    constructor (p: Printer, data: bytes, offset: nat)
      ensures this.p == p && this.data == data && this.offset == offset
    {
      this.p, this.data, this.offset := p, data, offset;
    }

    method SkipSpace()
      requires offset <= |data|
      modifies this`offset
      ensures old(offset) <= offset <= |data| && data[offset..] == Skip(data[old(offset)..])
    {
      while offset < |data| && Space(data[offset])
        invariant old(offset) <= offset <= |data| && Skip(data[old(offset)..]) == Skip(data[offset..])
      {
        assert data[offset..][1..] == data[offset + 1..];
        offset := offset + 1;
      }
    }

    method Take(expected: byte) returns (taken: bool)
      requires offset <= |data|
      modifies this`offset
      ensures taken <==> Starts(data[old(offset)..], expected)
      ensures offset == old(offset) + (if taken then 1 else 0) && offset <= |data|
      ensures taken ==> data[offset..] == data[old(offset)..][1..]
    {
      taken := offset < |data| && data[offset] == expected;
      if taken {
        offset := offset + 1;
      }
    }

    /** The escape after a backslash. */
    method ParseEscape() returns (r: Result<bytes>)
      requires offset <= |data|
      modifies this`offset
      ensures old(offset) <= offset <= |data|
      ensures r.Ok? ==> ReadEscape(data[old(offset)..]) == Ok((r.value, data[offset..]))
      ensures r.Err? ==> ReadEscape(data[old(offset)..]) == Err(r.error)
    {
      hide Hex4, Utf8Of;
      ghost var s := data[offset..];
      if offset == |data| {
        return Err(Error.Parse);
      }
      var escaped := data[offset];
      offset := offset + 1;
      assert s[1..] == data[offset..];
      if escaped == QUOTE || escaped == BACKSLASH || escaped == 47 {
        return Ok([escaped]);
      }
      if escaped == 98 { return Ok([8]); }
      if escaped == 102 { return Ok([12]); }
      if escaped == 110 { return Ok([10]); }
      if escaped == 114 { return Ok([13]); }
      if escaped == 116 { return Ok([9]); }
      if escaped != LETTER_U {
        return Err(Error.Parse);
      }
      var high := Hex4(data[offset..]);
      if high.None? {
        return Err(Error.Parse);
      }
      HexLength(data[offset..]);
      offset := offset + 4;
      assert s[5..] == data[offset..];
      var code := high.value;
      if 0xD800 <= code <= 0xDBFF {
        if |data| - offset < 6 || data[offset] != BACKSLASH || data[offset + 1] != LETTER_U {
          return Err(Error.Parse);
        }
        offset := offset + 2;
        assert s[7..] == data[offset..];
        var low := Hex4(data[offset..]);
        if low.None? || !(0xDC00 <= low.value <= 0xDFFF) {
          return Err(Error.Parse);
        }
        offset := offset + 4;
        assert s[11..] == data[offset..];
        code := 0x10000 + (code - 0xD800) * 1024 + (low.value - 0xDC00);
      }
      var text := Utf8Of(code);
      return if text.None? then Err(Error.Parse) else Ok(text.value);
    }

    /** One turn of the loop of `json_string`: a run of plain bytes, or an escape. */
    method ParsePiece() returns (r: Result<bytes>)
      requires offset < |data| && data[offset] != QUOTE
      modifies this`offset
      ensures old(offset) <= offset <= |data|
      ensures r.Ok? ==> old(offset) < offset && ReadString(data[old(offset)..]) == Then(r.value, ReadString(data[offset..]))
      ensures r.Err? ==> r.error == Error.Parse && ReadString(data[old(offset)..]) == Err(Error.Parse)
    {
      hide ReadEscape, Utf8.Valid, RunLength;
      ghost var s := data[offset..];
      if data[offset] < 0x20 {
        return Err(Error.Parse);
      }
      if data[offset] == BACKSLASH {
        assert s[1..] == data[offset + 1..];
        offset := offset + 1;
        r := ParseEscape();
        return if r.Err? then Err(Error.Parse) else r;
      }
      var n := ScanRun();
      assert s[..n] == data[offset..offset + n] && s[n..] == data[offset + n..];
      if !Utf8.Valid(data[offset..offset + n]) {
        return Err(Error.Parse);
      }
      offset := offset + n;
      return Ok(data[offset - n..offset]);
    }

    /** `json_string`, after the opening quote. */
    method ParseString() returns (r: Result<bytes>)
      requires offset <= |data|
      modifies this`offset
      ensures old(offset) <= offset <= |data|
      ensures r.Ok? ==> ReadString(data[old(offset)..]) == Ok((r.value, data[offset..]))
      ensures r.Err? ==> ReadString(data[old(offset)..]) == Err(r.error)
    {
      hide ReadString;
      var out: bytes := [];
      ThenNothing(ReadString(data[offset..]));
      while offset < |data| && data[offset] != QUOTE
        invariant old(offset) <= offset <= |data|
        invariant ReadString(data[old(offset)..]) == Then(out, ReadString(data[offset..]))
        decreases |data| - offset
      {
        var piece := ParsePiece();
        if piece.Err? {
          return piece;
        }
        ThenThen(out, piece.value, ReadString(data[offset..]));
        out := out + piece.value;
      }
      StringEnds(data[offset..]);
      if offset == |data| {
        return Err(Error.Parse);
      }
      assert data[offset..][1..] == data[offset + 1..] && out + [] == out;
      offset := offset + 1;
      return Ok(out);
    }

    /** How many bytes from the offset on are taken as they are. */
    method ScanRun() returns (n: nat)
      requires offset < |data| && Raw(data[offset])
      ensures n == RunLength(data[offset..]) && 0 < n <= |data| - offset
    {
      n := 0;
      while offset + n < |data| && Raw(data[offset + n])
        invariant offset + n <= |data| && RunLength(data[offset..]) == n + RunLength(data[offset + n..])
      {
        assert data[offset + n..][1..] == data[offset + n + 1..];
        n := n + 1;
      }
    }

    method ScanDigits(from: nat) returns (n: nat)
      requires from <= |data|
      ensures n == from + Digits(data[from..]) && n <= |data|
    {
      n := from;
      while n < |data| && Digit(data[n])
        invariant from <= n <= |data| && Digits(data[from..]) == (n - from) + Digits(data[n..])
      {
        assert data[n..][1..] == data[n + 1..];
        n := n + 1;
      }
    }

    method ScanMantissa(k: nat) returns (m: Option<nat>)
      requires offset + k <= |data|
      ensures m == Mantissa(data[offset..], k)
    {
      hide Digits;
      ghost var s := data[offset..];
      assert s[k..] == data[offset + k..];
      var i := ScanDigits(offset + k);
      var found := i > offset + k;
      if i < |data| && data[i] == 46 {
        assert s[i + 1 - offset..] == data[i + 1..];
        var j := ScanDigits(i + 1);
        found := found || j > i + 1;
        i := j;
      }
      return if found then Some(i - offset) else None;
    }

    method ScanExponent(k: nat) returns (n: nat)
      requires offset + k <= |data|
      ensures n == Exponent(data[offset..], k)
    {
      hide Digits;
      ghost var s := data[offset..];
      n := k;
      if offset + k < |data| && (data[offset + k] == 101 || data[offset + k] == 69) {
        var j := offset + k + 1;
        assert s[k + 1..] == data[j..];
        if j < |data| && (data[j] == 43 || data[j] == 45) {
          j := j + 1;
        }
        assert s[j - offset..] == data[j..];
        var end := ScanDigits(j);
        if end > j {
          n := end - offset;
        }
      }
    }

    /** `parse_number`: scan a number, then read its digits. */
    method ParseDigits() returns (r: Result<Json>)
      requires offset < |data|
      modifies this`offset
      ensures old(offset) <= offset <= |data|
      ensures r.Ok? ==> ParseNumber(p, data[old(offset)..]) == Ok((r.value, data[offset..]))
      ensures r.Err? ==> ParseNumber(p, data[old(offset)..]) == Err(r.error)
    {
      hide Mantissa, Exponent;
      ghost var s := data[offset..];
      var m := ScanMantissa(if data[offset] == 43 || data[offset] == 45 then 1 else 0);
      if m.None? {
        return Err(Error.Parse);
      }
      var length := ScanExponent(m.value);
      if length == 0 {
        return Err(Error.Parse);
      }
      assert s[..length] == data[offset..offset + length] && s[length..] == data[offset + length..];
      var n := p.read(data[offset..offset + length]);
      if n.None? {
        return Err(Error.Parse);
      }
      offset := offset + length;
      return Ok(Number(n.value));
    }

    /** The literal that the text starts with, if any. */
    method ParseWord() returns (r: Option<Json>)
      requires offset < |data|
      modifies this`offset
      ensures old(offset) <= offset <= |data|
      ensures var s := data[old(offset)..];
              if NULL <= s then r == Some(Null) && data[offset..] == s[4..]
              else if TRUE <= s then r == Some(Flag(true)) && data[offset..] == s[4..]
              else if FALSE <= s then r == Some(Flag(false)) && data[offset..] == s[5..]
              else r == None && offset == old(offset)
    {
      var remaining := data[offset..];
      if NULL <= remaining {
        offset := offset + 4;
        return Some(Null);
      }
      if TRUE <= remaining {
        offset := offset + 4;
        return Some(Flag(true));
      }
      if FALSE <= remaining {
        offset := offset + 5;
        return Some(Flag(false));
      }
      return None;
    }

    /** `parse_value` */
    method ParseValue() returns (r: Result<Json>)
      requires offset <= |data|
      modifies this`offset
      ensures old(offset) <= offset <= |data|
      ensures r.Ok? ==> ReadValue(p, data[old(offset)..]) == Ok((r.value, data[offset..]))
      ensures r.Err? ==> ReadValue(p, data[old(offset)..]) == Err(r.error)
      decreases |data| - offset, 1
    {
      hide ReadString, ParseNumber, ParseItems, ParseEntries, Skip;
      SkipSpace();
      ghost var s := data[offset..];
      if offset >= |data| {
        return Err(Error.Parse);
      }
      if data[offset] == QUOTE {
        assert s[1..] == data[offset + 1..];
        offset := offset + 1;
        var t := ParseString();
        return if t.Err? then Err(t.error) else Ok(Text(t.value));
      }
      var word := ParseWord();
      if word.Some? {
        return Ok(word.value);
      }
      if data[offset] == OPEN_LIST {
        assert s[1..] == data[offset + 1..];
        offset := offset + 1;
        SkipSpace();
        var closed := Take(CLOSE_LIST);
        if closed {
          return Ok(List([]));
        }
        var items := ParseList();
        return if items.Err? then Err(items.error) else Ok(List(items.value));
      }
      if data[offset] == OPEN_OBJECT {
        assert s[1..] == data[offset + 1..];
        offset := offset + 1;
        SkipSpace();
        var closed := Take(CLOSE_OBJECT);
        if closed {
          return Ok(Object([]));
        }
        var entries := ParseObject();
        return if entries.Err? then Err(entries.error) else Ok(Object(entries.value));
      }
      r := ParseDigits();
    }

    /** The loop over the items of an array. */
    method ParseList() returns (r: Result<seq<Json>>)
      requires offset <= |data|
      modifies this`offset
      ensures old(offset) <= offset <= |data|
      ensures r.Ok? ==> ParseItems(p, data[old(offset)..]) == Ok((r.value, data[offset..]))
      ensures r.Err? ==> ParseItems(p, data[old(offset)..]) == Err(r.error)
      decreases |data| - offset, 2
    {
      hide ReadValue, Skip, ParseItems;
      var items: seq<Json> := [];
      AfterNothing(ParseItems(p, data[offset..]));
      while true
        invariant old(offset) <= offset <= |data|
        invariant ParseItems(p, data[old(offset)..]) == After(items, ParseItems(p, data[offset..]))
        decreases |data| - offset
      {
        ghost var s := data[offset..];
        var item := ParseValue();
        if item.Err? {
          ItemsFail(p, s);
          return Err(item.error);
        }
        ItemsStep(p, s, item.value, data[offset..]);
        SkipSpace();
        var closed := Take(CLOSE_LIST);
        if closed {
          return Ok(items + [item.value]);
        }
        var more := Take(COMMA);
        if !more {
          return Err(Error.Parse);
        }
        AfterAfter(items, [item.value], ParseItems(p, data[offset..]));
        items := items + [item.value];
      }
    }

    /** The loop over the entries of an object. */
    method ParseObject() returns (r: Result<seq<Entry>>)
      requires offset <= |data|
      modifies this`offset
      ensures old(offset) <= offset <= |data|
      ensures r.Ok? ==> ParseEntries(p, data[old(offset)..], {}) == Ok((r.value, data[offset..]))
      ensures r.Err? ==> ParseEntries(p, data[old(offset)..], {}) == Err(r.error)
      decreases |data| - offset, 3
    {
      hide ReadValue, Skip, ParseEntry, ParseEntries, KeysOf;
      var entries: seq<Entry> := [];
      AfterNothing(ParseEntries(p, data[offset..], {}));
      KeysNone();
      while true
        invariant old(offset) <= offset <= |data|
        invariant ParseEntries(p, data[old(offset)..], {}) == After(entries, ParseEntries(p, data[offset..], KeysOf(entries)))
        decreases |data| - offset
      {
        ghost var s := data[offset..];
        var entry := ParseOneEntry(entries);
        if entry.Err? {
          EntriesFail(p, s, KeysOf(entries));
          return Err(entry.error);
        }
        EntriesStep(p, s, KeysOf(entries), entry.value, data[offset..]);
        SkipSpace();
        KeysMore(entries, entry.value);
        var closed := Take(CLOSE_OBJECT);
        if closed {
          return Ok(entries + [entry.value]);
        }
        var more := Take(COMMA);
        if !more {
          return Err(Error.Parse);
        }
        AfterAfter(entries, [entry.value], ParseEntries(p, data[offset..], KeysOf(entries + [entry.value])));
        entries := entries + [entry.value];
      }
    }

    method ParseOneEntry(entries: seq<Entry>) returns (r: Result<Entry>)
      requires offset <= |data|
      modifies this`offset
      ensures old(offset) <= offset <= |data|
      ensures r.Ok? ==> ParseEntry(p, data[old(offset)..], KeysOf(entries)) == Ok((r.value, data[offset..]))
      ensures r.Err? ==> ParseEntry(p, data[old(offset)..], KeysOf(entries)) == Err(r.error)
      decreases |data| - offset, 2
    {
      hide ReadValue, Skip;
      var key := ParseValue();
      if key.Err? {
        return Err(key.error);
      }
      if !key.value.Text? {
        return Err(Schema);
      }
      SkipSpace();
      var colon := Take(COLON);
      if !colon {
        return Err(Error.Parse);
      }
      var value := ParseValue();
      if value.Err? {
        return Err(value.error);
      }
      if key.value.s in KeysOf(entries) {
        return Err(Schema);
      }
      return Ok(Entry(key.value.s, value.value));
    }
  }

  lemma StringEnds(s: bytes)
    requires s == [] || s[0] == QUOTE
    ensures ReadString(s) == if s == [] then Err(Error.Parse) else Ok(([], s[1..]))
  {}

  lemma HexLength(s: bytes)
    requires Hex4(s).Some?
    ensures |s| >= 4
  {}

  lemma ThenNothing(r: Result<(bytes, bytes)>)
    ensures Then([], r) == r
  {
    if r.Ok? { assert [] + r.value.0 == r.value.0; }
  }

  lemma ThenThen(a: bytes, b: bytes, r: Result<(bytes, bytes)>)
    ensures Then(a, Then(b, r)) == Then(a + b, r)
  {
    if r.Ok? { Assoc(a, b, r.value.0); }
  }

  ghost function After<T>(before: seq<T>, r: Result<(seq<T>, bytes)>): Result<(seq<T>, bytes)> {
    if r.Ok? then Ok((before + r.value.0, r.value.1)) else r
  }

  lemma AfterNothing<T>(r: Result<(seq<T>, bytes)>)
    ensures After([], r) == r
  {
    if r.Ok? { assert [] + r.value.0 == r.value.0; }
  }

  lemma AfterAfter<T>(a: seq<T>, b: seq<T>, r: Result<(seq<T>, bytes)>)
    ensures After(a, After(b, r)) == After(a + b, r)
  {
    if r.Ok? { Assoc(a, b, r.value.0); }
  }

  /** One turn of the loop over items. */
  lemma ItemsStep(p: Printer, s: bytes, item: Json, rest: bytes)
    requires ReadValue(p, s) == Ok((item, rest))
    ensures (var t := Skip(rest);
             ParseItems(p, s)
             == if Starts(t, CLOSE_LIST) then Ok(([item], t[1..]))
                else if !Starts(t, COMMA) then Err(Error.Parse) else After([item], ParseItems(p, t[1..])))
  {
    hide ReadValue, Skip;
  }

  lemma ItemsFail(p: Printer, s: bytes)
    requires ReadValue(p, s).Err?
    ensures ParseItems(p, s) == Err(ReadValue(p, s).error)
  {
    hide ReadValue, Skip;
  }

  /** One turn of the loop over entries. */
  lemma EntriesStep(p: Printer, s: bytes, seen: set<bytes>, e: Entry, rest: bytes)
    requires ParseEntry(p, s, seen) == Ok((e, rest))
    ensures (var t := Skip(rest);
             ParseEntries(p, s, seen)
             == if Starts(t, CLOSE_OBJECT) then Ok(([e], t[1..]))
                else if !Starts(t, COMMA) then Err(Error.Parse) else After([e], ParseEntries(p, t[1..], seen + {e.key})))
  {
    hide ParseEntry, Skip;
  }

  lemma EntriesFail(p: Printer, s: bytes, seen: set<bytes>)
    requires ParseEntry(p, s, seen).Err?
    ensures ParseEntries(p, s, seen) == Err(ParseEntry(p, s, seen).error)
  {
    hide ParseEntry, Skip;
  }

  function KeysOf(entries: seq<Entry>): set<bytes> { set i | 0 <= i < |entries| :: entries[i].key }

  lemma KeysNone()
    ensures KeysOf([]) == {}
  {}

  lemma KeysMore(entries: seq<Entry>, e: Entry)
    ensures KeysOf(entries + [e]) == KeysOf(entries) + {e.key}
  {
    var longer := entries + [e];
    forall k | k in KeysOf(entries) + {e.key} ensures k in KeysOf(longer) {
      if k in KeysOf(entries) {
        var i :| 0 <= i < |entries| && entries[i].key == k;
        assert longer[i].key == k;
      } else {
        assert longer[|entries|].key == k;
      }
    }
  }

  /** `decode_document` */
  method DecodeDocument(p: Printer, data: bytes) returns (r: Result<Json>)
    ensures r == Decode(p, data)
  {
    hide ReadValue;
    var parser := new Parser(p, data, 0);
    assert data[0..] == data;
    var v := parser.ParseValue();
    if v.Err? {
      return v;
    }
    parser.SkipSpace();
    return if parser.offset == |data| then v else Err(Error.Parse);
  }
}
