/** The parser of `data.rs` that moves an offset, proved against `JsonData`. */
module JsonReader {
  import opened Bytes
  import opened Seqs
  import opened JsonText
  import opened Json
  import opened JsonData
  import opened JsonCodec

  /** `parse_number_strict`, and what becomes of a large integer. */
  method ReadDigits(parser: Parser) returns (r: Result<Json>)
    requires parser.offset < |parser.data|
    modifies parser`offset
    ensures old(parser.offset) <= parser.offset <= |parser.data|
    ensures r.Ok? ==> ReadNumber(parser.p, parser.data[old(parser.offset)..]) == Ok((r.value, parser.data[parser.offset..]))
    ensures r.Err? ==> ReadNumber(parser.p, parser.data[old(parser.offset)..]) == Err(r.error)
  {
    hide Mantissa, Exponent, Strict, LargeInteger;
    var data, offset := parser.data, parser.offset;
    ghost var s := data[offset..];
    var m := parser.ScanMantissa(if data[offset] == 43 || data[offset] == 45 then 1 else 0);
    if m.None? {
      return Err(Error.Parse);
    }
    var length := parser.ScanExponent(m.value);
    if length == 0 {
      return Err(Error.Parse);
    }
    var token := data[offset..offset + length];
    assert s[..length] == token && s[length..] == data[offset + length..];
    if !Strict(token) {
      return Err(Error.Parse);
    }
    var n := parser.p.read(token);
    if n.None? {
      return Err(Error.Parse);
    }
    parser.offset := offset + length;
    return Ok(if LargeInteger(token) then Text(token) else Number(n.value));
  }

  /** `json_value` */
  method ReadOne(parser: Parser, depth: nat) returns (r: Result<Json>)
    requires parser.offset <= |parser.data|
    modifies parser`offset
    ensures old(parser.offset) <= parser.offset <= |parser.data|
    ensures r.Ok? ==> ReadData(parser.p, parser.data[old(parser.offset)..], depth) == Ok((r.value, parser.data[parser.offset..]))
    ensures r.Err? ==> ReadData(parser.p, parser.data[old(parser.offset)..], depth) == Err(r.error)
    decreases |parser.data| - parser.offset, 1
  {
    hide ReadString, ReadNumber, DataItems, DataEntries, Skip;
    if depth > DATA_DEPTH {
      return Err(Limit);
    }
    parser.SkipSpace();
    ghost var s := parser.data[parser.offset..];
    if parser.offset >= |parser.data| {
      return Err(Error.Parse);
    }
    var quoted := parser.Take(QUOTE);
    if quoted {
      var t := parser.ParseString();
      return if t.Err? then Err(t.error) else Ok(Text(t.value));
    }
    var isList := parser.Take(OPEN_LIST);
    if isList {
      parser.SkipSpace();
      var items := ReadList(parser, depth + 1);
      return if items.Err? then Err(items.error) else Ok(List(items.value));
    }
    var isMap := parser.Take(OPEN_OBJECT);
    if isMap {
      parser.SkipSpace();
      var entries := ReadObject(parser, depth + 1);
      return if entries.Err? then Err(entries.error) else Ok(Object(entries.value));
    }
    var word := parser.ParseWord();
    if word.Some? {
      return Ok(word.value);
    }
    r := ReadDigits(parser);
  }

  /** The loop over the items of an array. */
  method ReadList(parser: Parser, depth: nat) returns (r: Result<seq<Json>>)
    requires parser.offset <= |parser.data|
    modifies parser`offset
    ensures old(parser.offset) <= parser.offset <= |parser.data|
    ensures r.Ok? ==> DataItems(parser.p, parser.data[old(parser.offset)..], depth) == Ok((r.value, parser.data[parser.offset..]))
    ensures r.Err? ==> DataItems(parser.p, parser.data[old(parser.offset)..], depth) == Err(r.error)
    decreases |parser.data| - parser.offset, 2
  {
    hide ReadData, Skip, DataItems;
    var data, p := parser.data, parser.p;
    var items: seq<Json> := [];
    AfterNothing(DataItems(p, data[parser.offset..], depth));
    while parser.offset < |data| && data[parser.offset] != CLOSE_LIST
      invariant old(parser.offset) <= parser.offset <= |data|
      invariant DataItems(p, data[old(parser.offset)..], depth) == After(items, DataItems(p, data[parser.offset..], depth))
      decreases |data| - parser.offset
    {
      ghost var s := data[parser.offset..];
      var item := ReadOne(parser, depth);
      if item.Err? {
        ListFails(p, s, depth);
        return Err(item.error);
      }
      ListTurn(p, s, depth, item.value, data[parser.offset..]);
      parser.SkipSpace();
      var more := parser.Take(COMMA);
      if !more {
        var closed := parser.Take(CLOSE_LIST);
        return if closed then Ok(items + [item.value]) else Err(Error.Parse);
      }
      parser.SkipSpace();
      if parser.offset < |data| && data[parser.offset] == CLOSE_LIST {
        return Err(Error.Parse);
      }
      AfterAfter(items, [item.value], DataItems(p, data[parser.offset..], depth));
      items := items + [item.value];
    }
    ListCloses(p, data[parser.offset..], depth);
    assert items + [] == items;
    var closed := parser.Take(CLOSE_LIST);
    return if closed then Ok(items) else Err(Error.Parse);
  }

  /** One turn of the loop over items. */
  lemma ListTurn(p: Printer, s: bytes, depth: nat, item: Json, rest: bytes)
    requires s != [] && s[0] != CLOSE_LIST && ReadData(p, s, depth) == Ok((item, rest))
    ensures (var u := Skip(rest);
             DataItems(p, s, depth)
             == if Starts(u, COMMA) then
                  if Starts(Skip(u[1..]), CLOSE_LIST) then Err(Error.Parse) else After([item], DataItems(p, Skip(u[1..]), depth))
                else if Starts(u, CLOSE_LIST) then Ok(([item], u[1..]))
                else Err(Error.Parse))
  {
    hide ReadData, Skip;
  }

  lemma ListFails(p: Printer, s: bytes, depth: nat)
    requires s != [] && s[0] != CLOSE_LIST && ReadData(p, s, depth).Err?
    ensures DataItems(p, s, depth) == Err(ReadData(p, s, depth).error)
  {
    hide ReadData, Skip;
  }

  lemma ListCloses(p: Printer, s: bytes, depth: nat)
    requires s == [] || s[0] == CLOSE_LIST
    ensures DataItems(p, s, depth) == if s == [] then Err(Error.Parse) else Ok(([], s[1..]))
  {
    hide ReadData, Skip;
  }

  /** One entry of a map. */
  method ReadEntry(parser: Parser, depth: nat) returns (r: Result<Entry>)
    requires parser.offset <= |parser.data|
    modifies parser`offset
    ensures old(parser.offset) <= parser.offset <= |parser.data|
    ensures r.Ok? ==> DataEntry(parser.p, parser.data[old(parser.offset)..], depth) == Ok((r.value, parser.data[parser.offset..]))
    ensures r.Err? ==> DataEntry(parser.p, parser.data[old(parser.offset)..], depth) == Err(r.error)
    decreases |parser.data| - parser.offset, 2
  {
    hide ReadData, ReadString, Skip;
    var quoted := parser.Take(QUOTE);
    if !quoted {
      return Err(Error.Parse);
    }
    var key := parser.ParseString();
    if key.Err? {
      return Err(key.error);
    }
    parser.SkipSpace();
    var colon := parser.Take(COLON);
    if !colon {
      return Err(Error.Parse);
    }
    var value := ReadOne(parser, depth);
    return if value.Err? then Err(value.error) else Ok(Entry(key.value, value.value));
  }

  /** The loop over the entries of a map, which sets each key as it comes. */
  method ReadObject(parser: Parser, depth: nat) returns (r: Result<seq<Entry>>)
    requires parser.offset <= |parser.data|
    modifies parser`offset
    ensures old(parser.offset) <= parser.offset <= |parser.data|
    ensures r.Ok? ==> DataEntries(parser.p, parser.data[old(parser.offset)..], depth, []) == Ok((r.value, parser.data[parser.offset..]))
    ensures r.Err? ==> DataEntries(parser.p, parser.data[old(parser.offset)..], depth, []) == Err(r.error)
    decreases |parser.data| - parser.offset, 3
  {
    hide DataEntry, Skip, SetEntry;
    var data, p := parser.data, parser.p;
    var entries: seq<Entry> := [];
    while parser.offset < |data| && data[parser.offset] != CLOSE_OBJECT
      invariant old(parser.offset) <= parser.offset <= |data|
      invariant DataEntries(p, data[old(parser.offset)..], depth, []) == DataEntries(p, data[parser.offset..], depth, entries)
      decreases |data| - parser.offset
    {
      ghost var s := data[parser.offset..];
      var entry := ReadEntry(parser, depth);
      if entry.Err? {
        return Err(entry.error);
      }
      entries := SetEntry(entries, entry.value);
      parser.SkipSpace();
      var more := parser.Take(COMMA);
      if !more {
        var closed := parser.Take(CLOSE_OBJECT);
        return if closed then Ok(entries) else Err(Error.Parse);
      }
      parser.SkipSpace();
      if parser.offset < |data| && data[parser.offset] == CLOSE_OBJECT {
        return Err(Error.Parse);
      }
    }
    var closed := parser.Take(CLOSE_OBJECT);
    return if closed then Ok(entries) else Err(Error.Parse);
  }

  /** `json_parse` */
  method ParseData(p: Printer, data: bytes) returns (r: Result<Json>)
    ensures r == ParseText(p, data)
  {
    hide ReadData;
    var parser := new Parser(p, data, 0);
    assert data[0..] == data;
    var v := ReadOne(parser, 0);
    if v.Err? {
      return v;
    }
    parser.SkipSpace();
    return if parser.offset == |data| then v else Err(Error.Parse);
  }
}
