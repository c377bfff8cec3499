/** CSV tables (`csv_records`, `csv_read` and `csv_write` in `data.rs`). Text is held as its UTF-8 bytes. */
module Csv {
  import opened Bytes
  import opened Seqs
  import Utf8

  const QUOTE: byte := 34
  const COMMA: byte := 44
  const CR: byte := 13
  const LF: byte := 10
  const CRLF: bytes := [13, 10]

  /** The UTF-8 bytes of the character whose code is the byte: what pushing a byte as a character stores. */
  function Latin(b: byte): bytes { if b < 0x80 then [b] else [0xC0 + b / 64, 0x80 + b % 64] }

  function LatinAll(s: bytes): bytes { if s == [] then [] else Latin(s[0]) + LatinAll(s[1..]) }

  predicate Special(b: byte) { b == COMMA || b == QUOTE || b == CR || b == LF }

  predicate Plain(s: bytes) { forall i :: 0 <= i < |s| ==> !Special(s[i]) }

  // ----- what reading means

  datatype Field = Field(text: bytes, rest: bytes)

  /** The text of a quoted field after its opening quote, and what follows its closing quote, if it has one. */
  function QuotedField(s: bytes): (f: Field)
    ensures |f.rest| <= |s|
  {
    if s == [] then Field([], [])
    else if s[0] == QUOTE then
      if |s| > 1 && s[1] == QUOTE then
        var more := QuotedField(s[2..]);
        Field([QUOTE] + more.text, more.rest)
      else Field([], s[1..])
    else
      var more := QuotedField(s[1..]);
      Field(Latin(s[0]) + more.text, more.rest)
  }

  function PlainField(s: bytes): (f: Result<Field>)
    ensures f.Ok? ==> |f.value.rest| <= |s|
    ensures f.Err? ==> f.error == Parse
  {
    if s == [] || s[0] == COMMA || s[0] == CR || s[0] == LF then Ok(Field([], s))
    else if s[0] == QUOTE then Err(Parse)
    else
      var more := PlainField(s[1..]);
      if more.Err? then more else Ok(Field(Latin(s[0]) + more.value.text, more.value.rest))
  }

  predicate EndsField(s: bytes) { s == [] || s[0] == COMMA || s[0] == CR || s[0] == LF }

  /** One field; `closed` says whether the whole text ends with a quote, which is all that is asked of a quoted last field. */
  function ReadField(s: bytes, closed: bool): (f: Result<Field>)
    requires s != []
    ensures f.Ok? ==> |f.value.rest| <= |s| && EndsField(f.value.rest)
    ensures f.Err? ==> f.error == Parse
  {
    if s[0] != QUOTE then PlainEnds(s); PlainField(s) else
    var f := QuotedField(s[1..]);
    if f.rest == [] && !closed then Err(Parse)
    else if !EndsField(f.rest) then Err(Parse) else Ok(f)
  }

  lemma {:induction false} PlainEnds(s: bytes)
    ensures PlainField(s).Ok? ==> EndsField(PlainField(s).value.rest)
  {
    if s != [] && !EndsField(s) && s[0] != QUOTE { PlainEnds(s[1..]); }
  }

  function Cons<T>(x: T, r: Result<seq<T>>): Result<seq<T>> { if r.Ok? then Ok([x] + r.value) else r }

  /** The records of the text that is left, `fields` being those read of the current one. */
  function Records(s: bytes, closed: bool, fields: seq<bytes>): (r: Result<seq<seq<bytes>>>)
    ensures r.Err? ==> r.error == Parse
    decreases |s|
  {
    if s == [] then Ok([]) else
    var f := ReadField(s, closed);
    if f.Err? then Err(Parse) else
    var (row, rest) := (fields + [f.value.text], f.value.rest);
    if rest == [] then Ok([row])
    else if rest[0] == COMMA then Records(rest[1..], closed, if |rest| == 1 then row + [[]] else row)
    else if rest[0] == CR then if |rest| < 2 || rest[1] != LF then Err(Parse) else Cons(row, Records(rest[2..], closed, []))
    else Cons(row, Records(rest[1..], closed, []))
  }

  predicate EndsWithQuote(s: bytes) { s != [] && s[|s| - 1] == QUOTE }

  function ReadAll(text: bytes): Result<seq<seq<bytes>>> { Records(text, EndsWithQuote(text), []) }

  // ----- what writing means

  function Escape(s: bytes): bytes {
    if s == [] then [] else (if s[0] == QUOTE then [QUOTE, QUOTE] else [s[0]]) + Escape(s[1..])
  }

  /** `csv_scalar` of a text. */
  function Scalar(s: bytes): bytes { if Plain(s) then s else [QUOTE] + (Escape(s) + [QUOTE]) }

  function Row(fields: seq<bytes>): bytes {
    if fields == [] then CRLF
    else if |fields| == 1 then Scalar(fields[0]) + CRLF
    else Scalar(fields[0]) + ([COMMA] + Row(fields[1..]))
  }

  function Table(rows: seq<seq<bytes>>): bytes { if rows == [] then [] else Row(rows[0]) + Table(rows[1..]) }

  function LatinRow(fields: seq<bytes>): seq<bytes> { if fields == [] then [] else [LatinAll(fields[0])] + LatinRow(fields[1..]) }

  function LatinTable(rows: seq<seq<bytes>>): seq<seq<bytes>> {
    if rows == [] then [] else [LatinRow(rows[0])] + LatinTable(rows[1..])
  }

  // ----- reading what was written

  lemma {:induction false} QuotedEscaped(s: bytes, rest: bytes)
    requires rest == [] || rest[0] != QUOTE
    ensures QuotedField(Escape(s) + ([QUOTE] + rest)) == Field(LatinAll(s), rest)
    decreases |s|
  {
    var tail := [QUOTE] + rest;
    if s == [] {
      assert [] + tail == tail;
      assert tail[1..] == rest;
    } else {
      QuotedEscaped(s[1..], rest);
      var head := if s[0] == QUOTE then [QUOTE, QUOTE] else [s[0]];
      Assoc(head, Escape(s[1..]), tail);
      Peel(head, Escape(s[1..]) + tail);
    }
  }

  lemma {:induction false} PlainRead(s: bytes, rest: bytes)
    requires Plain(s) && EndsField(rest)
    ensures PlainField(s + rest) == Ok(Field(LatinAll(s), rest))
    decreases |s|
  {
    if s == [] {
      assert s + rest == rest;
    } else {
      assert (s + rest)[1..] == s[1..] + rest;
      PlainRead(s[1..], rest);
    }
  }

  /** A written field reads back, up to the characters its bytes become. */
  lemma FieldRead(s: bytes, rest: bytes, closed: bool)
    requires rest != [] && EndsField(rest)
    ensures Scalar(s) + rest != [] && ReadField(Scalar(s) + rest, closed) == Ok(Field(LatinAll(s), rest))
  {
    if Plain(s) {
      PlainRead(s, rest);
      if s != [] { assert (s + rest)[0] == s[0]; } else { assert s + rest == rest; }
    } else {
      QuotedEscaped(s, rest);
      var inner := Escape(s) + ([QUOTE] + rest);
      Assoc([QUOTE], Escape(s) + [QUOTE], rest);
      Assoc(Escape(s), [QUOTE], rest);
      assert ([QUOTE] + inner)[1..] == inner;
    }
  }

  lemma {:induction false} RowRead(fields: seq<bytes>, before: seq<bytes>, rest: bytes, closed: bool)
    requires fields != []
    ensures Records(Row(fields) + rest, closed, before) == Cons(before + LatinRow(fields), Records(rest, closed, []))
    decreases |fields|
  {
    hide ReadField, Scalar, LatinAll;
    if |fields| == 1 {
      var tail := CRLF + rest;
      FieldRead(fields[0], tail, closed);
      Assoc(Scalar(fields[0]), CRLF, rest);
      Peel(CRLF, rest);
      assert LatinRow(fields) == [LatinAll(fields[0])] + LatinRow(fields[1..]) == [LatinAll(fields[0])];
    } else {
      var more := Row(fields[1..]) + rest;
      var tail := [COMMA] + more;
      FieldRead(fields[0], tail, closed);
      Nest3(Scalar(fields[0]), [COMMA], Row(fields[1..]), rest);
      Peel([COMMA], more);
      RowNotEmpty(fields[1..]);
      RowRead(fields[1..], before + [LatinAll(fields[0])], rest, closed);
      Assoc(before, [LatinAll(fields[0])], LatinRow(fields[1..]));
    }
  }

  lemma RowNotEmpty(fields: seq<bytes>)
    ensures Row(fields) != []
  {}

  lemma {:induction false} TableRead(rows: seq<seq<bytes>>, closed: bool)
    requires forall i :: 0 <= i < |rows| ==> rows[i] != []
    ensures Records(Table(rows), closed, []) == Ok(LatinTable(rows))
    decreases |rows|
  {
    hide Row, LatinRow, ReadField;
    if rows != [] {
      RowRead(rows[0], [], Table(rows[1..]), closed);
      TableRead(rows[1..], closed);
      assert [] + LatinRow(rows[0]) == LatinRow(rows[0]);
    }
  }

  lemma {:induction false} LatinLength(s: bytes)
    ensures |LatinAll(s)| >= |s| && (|LatinAll(s)| == |s| <==> Utf8.Ascii(s))
  {
    if s != [] {
      LatinLength(s[1..]);
      assert Utf8.Ascii(s) <==> s[0] < 0x80 && Utf8.Ascii(s[1..]);
    }
  }

  lemma {:induction false} LatinAscii(s: bytes)
    ensures LatinAll(s) == s <==> Utf8.Ascii(s)
  {
    LatinLength(s);
    if Utf8.Ascii(s) && s != [] {
      LatinAscii(s[1..]);
      assert s == [s[0]] + s[1..];
    }
  }

  predicate AsciiRow(fields: seq<bytes>) { forall i :: 0 <= i < |fields| ==> Utf8.Ascii(fields[i]) }

  predicate AsciiTable(rows: seq<seq<bytes>>) { forall i :: 0 <= i < |rows| ==> AsciiRow(rows[i]) }

  lemma {:induction false} RowAscii(fields: seq<bytes>)
    ensures LatinRow(fields) == fields <==> AsciiRow(fields)
  {
    if fields != [] {
      RowAscii(fields[1..]);
      LatinAscii(fields[0]);
      assert fields == [fields[0]] + fields[1..];
      assert LatinRow(fields)[1..] == LatinRow(fields[1..]) && LatinRow(fields)[0] == LatinAll(fields[0]);
    }
  }

  lemma {:induction false} TableAscii(rows: seq<seq<bytes>>)
    ensures LatinTable(rows) == rows <==> AsciiTable(rows)
  {
    hide LatinRow, AsciiRow;
    if rows != [] {
      TableAscii(rows[1..]);
      RowAscii(rows[0]);
      assert rows == [rows[0]] + rows[1..];
      assert LatinTable(rows)[1..] == LatinTable(rows[1..]) && LatinTable(rows)[0] == LatinRow(rows[0]);
    }
  }

  /**
   Every table with at least one column reads back with the same records, whatever commas, quotes and line
   ends its fields hold; the fields come back themselves if and only if they are all ASCII.
   */
  lemma RoundTrip(rows: seq<seq<bytes>>)
    requires forall i :: 0 <= i < |rows| ==> rows[i] != []
    ensures ReadAll(Table(rows)) == Ok(LatinTable(rows))
    ensures ReadAll(Table(rows)) == Ok(rows) <==> AsciiTable(rows)
  {
    hide Records, Table, LatinTable, AsciiTable;
    TableRead(rows, EndsWithQuote(Table(rows)));
    TableAscii(rows);
  }

  /** No comma, quote or line end: the bytes 44, 34, 13 and 10. */
  predicate Ordinary(s: bytes) { forall i :: 0 <= i < |s| ==> s[i] != 44 && s[i] != 34 && s[i] != 13 && s[i] != 10 }

  /** Fields are written with byte 44 between them and 13, 10 at the end, and read from there. */
  lemma SeparatorBytes(a: bytes, b: bytes)
    requires Ordinary(a) && Ordinary(b) && Utf8.Ascii(a) && Utf8.Ascii(b)
    ensures Table([[a, b]]) == a + ([44] + (b + [13, 10]))
    ensures ReadAll(a + ([44] + (b + [13, 10]))) == Ok([[a, b]])
  {
    hide ReadAll, LatinTable, Records;
    var fields := [a, b];
    assert fields[1..] == [b];
    assert Row([b]) == b + [13, 10] && Row(fields) == a + ([44] + (b + [13, 10]));
    var rows := [fields];
    assert rows[1..] == [] && Table(rows[1..]) == [] && Row(fields) + [] == Row(fields);
    RoundTrip(rows);
  }

  /** A field of one such byte is written between two bytes 34, a quote twice, and read back. */
  lemma QuotedBytes(x: byte)
    requires x == 44 || x == 34 || x == 13 || x == 10
    ensures Table([[[x]]]) == if x == 34 then [34, 34, 34, 34, 13, 10] else [34, x, 34, 13, 10]
    ensures ReadAll(if x == 34 then [34, 34, 34, 34, 13, 10] else [34, x, 34, 13, 10]) == Ok([[[x]]])
  {
    hide ReadAll, LatinTable, Records;
    var rows: seq<seq<bytes>> := [[[x]]];
    assert [x][1..] == [] && Escape([x]) == (if x == 34 then [34, 34] else [x]) + [];
    assert rows[0] == [[x]] && !Plain([x]) by { assert Special([x][0]); }
    assert Row(rows[0]) == ([34] + (Escape([x]) + [34])) + [13, 10];
    assert rows[1..] == [] && Table(rows[1..]) == [] && Row(rows[0]) + [] == Row(rows[0]);
    RoundTrip(rows);
    assert AsciiTable(rows);
  }

  /** A text that ends with a comma loses its last record. */
  lemma TrailingComma()
    ensures ReadAll([97, COMMA]) == Ok([])
  {
    var s: bytes := [97, COMMA];
    assert s[1..] == [COMMA] && [COMMA][1..] == [];
    assert PlainField([COMMA]) == Ok(Field([], [COMMA]));
    assert PlainField(s) == Ok(Field([97] + [], [COMMA])) && [97] + [] == [97];
    assert Records([], false, [] + [[97]] + [[]]) == Ok([]);
  }

  /** A quoted field that is never closed is accepted when the text ends with a doubled quote. */
  lemma UnclosedQuote()
    ensures ReadAll([QUOTE, 97, QUOTE, QUOTE]) == Ok([[[97, QUOTE]]])
  {
    var s: bytes := [QUOTE, 97, QUOTE, QUOTE];
    assert s[1..] == [97, QUOTE, QUOTE] && [97, QUOTE, QUOTE][1..] == [QUOTE, QUOTE] && [QUOTE, QUOTE][2..] == [];
    assert QuotedField([QUOTE, QUOTE]) == Field([QUOTE], []);
    assert QuotedField([97, QUOTE, QUOTE]) == Field([97, QUOTE], []);
    assert ReadField(s, true) == Ok(Field([97, QUOTE], []));
    assert [] + [[97, QUOTE]] == [[97, QUOTE]];
  }

  /** A record without the line break at its end. */
  function Bare(fields: seq<bytes>): bytes {
    if fields == [] then []
    else if |fields| == 1 then Scalar(fields[0])
    else Scalar(fields[0]) + ([COMMA] + Bare(fields[1..]))
  }

  lemma LastField(s: bytes, closed: bool)
    requires s != [] && (closed || Plain(s))
    ensures Scalar(s) != [] && ReadField(Scalar(s), closed) == Ok(Field(LatinAll(s), []))
  {
    if Plain(s) {
      PlainRead(s, []);
      assert s + [] == s;
    } else {
      QuotedEscaped(s, []);
      assert [QUOTE] + [] == [QUOTE];
      assert Scalar(s)[1..] == Escape(s) + [QUOTE];
    }
  }

  lemma {:induction false} BareRead(fields: seq<bytes>, before: seq<bytes>, closed: bool)
    requires fields != [] && (closed || Plain(fields[|fields| - 1]))
    ensures Records(Bare(fields), closed, before)
         == if fields[|fields| - 1] == [] then Ok([]) else Ok([before + LatinRow(fields)])
    decreases |fields|
  {
    hide ReadField, Scalar, LatinAll;
    if |fields| == 1 {
      assert LatinRow(fields) == [LatinAll(fields[0])] + LatinRow(fields[1..]) == [LatinAll(fields[0])];
      if fields[0] == [] {
        ScalarNone();
      } else {
        LastField(fields[0], closed);
      }
    } else {
      var tail := [COMMA] + Bare(fields[1..]);
      FieldRead(fields[0], tail, closed);
      Peel([COMMA], Bare(fields[1..]));
      if Bare(fields[1..]) == [] {
        BareEmpty(fields[1..]);
      } else {
        BareRead(fields[1..], before + [LatinAll(fields[0])], closed);
        Assoc(before, [LatinAll(fields[0])], LatinRow(fields[1..]));
        assert fields[1..][|fields| - 2] == fields[|fields| - 1];
      }
    }
  }

  lemma ScalarNone()
    ensures Scalar([]) == []
  {}

  lemma BareEmpty(fields: seq<bytes>)
    requires fields != [] && Bare(fields) == []
    ensures fields == [[]]
  {
    assert fields == [fields[0]] + fields[1..];
  }

  /** The records of a table come before those of what follows it. */
  lemma {:induction false} TableThen(rows: seq<seq<bytes>>, rest: bytes, closed: bool)
    requires forall i :: 0 <= i < |rows| ==> rows[i] != []
    ensures Records(Table(rows) + rest, closed, []) == Joined(LatinTable(rows), Records(rest, closed, []))
    decreases |rows|
  {
    hide Row, LatinRow, ReadField;
    var last := Records(rest, closed, []);
    if rows == [] {
      assert [] + rest == rest;
      JoinedNothing(last);
    } else {
      Assoc(Row(rows[0]), Table(rows[1..]), rest);
      RowRead(rows[0], [], Table(rows[1..]) + rest, closed);
      TableThen(rows[1..], rest, closed);
      assert [] + LatinRow(rows[0]) == LatinRow(rows[0]);
      if last.Ok? { Assoc([LatinRow(rows[0])], LatinTable(rows[1..]), last.value); }
    }
  }

  lemma BareCloses(fields: seq<bytes>)
    requires fields != []
    ensures Plain(fields[|fields| - 1]) || EndsWithQuote(Bare(fields))
    decreases |fields|
  {
    if |fields| > 1 {
      BareCloses(fields[1..]);
      assert fields[1..][|fields| - 2] == fields[|fields| - 1];
      if Bare(fields[1..]) != [] {
        assert Bare(fields)[|Bare(fields)| - 1] == Bare(fields[1..])[|Bare(fields[1..])| - 1];
      }
    }
  }

  /** A last record without a line break is read if and only if its last field is not empty; otherwise it is lost. */
  lemma LastRecordKept(rows: seq<seq<bytes>>, fields: seq<bytes>)
    requires fields != [] && forall i :: 0 <= i < |rows| ==> rows[i] != []
    ensures ReadAll(Table(rows) + Bare(fields))
         == Ok(if fields[|fields| - 1] == [] then LatinTable(rows) else LatinTable(rows) + [LatinRow(fields)])
  {
    hide Records, Table, LatinTable, LatinRow, Bare, Plain;
    var text := Table(rows) + Bare(fields);
    BareCloses(fields);
    if EndsWithQuote(Bare(fields)) {
      assert text[|text| - 1] == Bare(fields)[|Bare(fields)| - 1];
    }
    BareRead(fields, [], EndsWithQuote(text));
    assert [] + LatinRow(fields) == LatinRow(fields);
    TableThen(rows, Bare(fields), EndsWithQuote(text));
    assert LatinTable(rows) + [] == LatinTable(rows);
  }

  lemma {:induction false} QuotedOpen(s: bytes)
    ensures QuotedField(Escape(s)) == Field(LatinAll(s), [])
    decreases |s|
  {
    if s != [] {
      QuotedOpen(s[1..]);
      Peel(if s[0] == QUOTE then [QUOTE, QUOTE] else [s[0]], Escape(s[1..]));
    }
  }

  lemma {:induction false} EscapeEnds(s: bytes)
    requires s != []
    ensures Escape(s) != [] && Escape(s)[|Escape(s)| - 1] == s[|s| - 1]
    decreases |s|
  {
    if |s| > 1 { EscapeEnds(s[1..]); }
  }

  /** The fields of a record, each with the comma after it. */
  function Begun(fields: seq<bytes>): bytes { if fields == [] then [] else Scalar(fields[0]) + ([COMMA] + Begun(fields[1..])) }

  lemma {:induction false} BegunRead(fields: seq<bytes>, before: seq<bytes>, rest: bytes, closed: bool)
    requires rest != []
    ensures Records(Begun(fields) + rest, closed, before) == Records(rest, closed, before + LatinRow(fields))
    decreases |fields|
  {
    hide ReadField, Scalar, LatinAll;
    if fields == [] {
      assert [] + rest == rest && before + [] == before;
    } else {
      var more := Begun(fields[1..]) + rest;
      FieldRead(fields[0], [COMMA] + more, closed);
      Nest3(Scalar(fields[0]), [COMMA], Begun(fields[1..]), rest);
      Peel([COMMA], more);
      BegunRead(fields[1..], before + [LatinAll(fields[0])], rest, closed);
      Assoc(before, [LatinAll(fields[0])], LatinRow(fields[1..]));
    }
  }

  lemma OpenRead(s: bytes, before: seq<bytes>, closed: bool)
    ensures Records([QUOTE] + Escape(s), closed, before) == if closed then Ok([before + [LatinAll(s)]]) else Err(Parse)
  {
    hide Escape, LatinAll;
    QuotedOpen(s);
    assert ([QUOTE] + Escape(s))[1..] == Escape(s);
  }

  lemma {:induction false} LatinRowMore(fields: seq<bytes>, s: bytes)
    ensures LatinRow(fields + [s]) == LatinRow(fields) + [LatinAll(s)]
    decreases |fields|
  {
    hide LatinAll;
    if fields == [] {
      assert [] + [s] == [s] && LatinRow([s]) == [LatinAll(s)] + LatinRow([s][1..]);
    } else {
      LatinRowMore(fields[1..], s);
      assert (fields + [s])[1..] == fields[1..] + [s];
      Assoc([LatinAll(fields[0])], LatinRow(fields[1..]), [LatinAll(s)]);
    }
  }

  /**
   A table whose last record ends in a quoted field that is never closed is refused if and only if that field holds
   something and does not end with a quote. Otherwise the record is kept with the field as if it had been closed.
   */
  lemma UnclosedAccepted(rows: seq<seq<bytes>>, fields: seq<bytes>, s: bytes)
    requires forall i :: 0 <= i < |rows| ==> rows[i] != []
    ensures ReadAll(Table(rows) + (Begun(fields) + ([QUOTE] + Escape(s))))
         == if s == [] || s[|s| - 1] == QUOTE then Ok(LatinTable(rows) + [LatinRow(fields + [s])]) else Err(Parse)
  {
    hide Escape, LatinAll, Table, Begun, Records, LatinRow, LatinTable;
    var open := [QUOTE] + Escape(s);
    var text := Table(rows) + (Begun(fields) + open);
    assert text[|text| - 1] == open[|open| - 1];
    if s == [] { EscapeNone(); } else { EscapeEnds(s); }
    TableThen(rows, Begun(fields) + open, EndsWithQuote(text));
    BegunRead(fields, [], open, EndsWithQuote(text));
    assert [] + LatinRow(fields) == LatinRow(fields);
    OpenRead(s, LatinRow(fields), EndsWithQuote(text));
    LatinRowMore(fields, s);
  }

  lemma EscapeNone()
    ensures Escape([]) == []
  {}

  /** So a text that ends with a comma and a quote has one more field, which is empty. */
  lemma OpenAtEnd()
    ensures ReadAll([97, COMMA, QUOTE]) == Ok([[[97], []]])
  {
    hide Records;
    UnclosedAccepted([], [[97]], []);
    assert Scalar([97]) == [97];
    assert Begun([[97]]) == [97, COMMA] by { assert Begun([[97]][1..]) == []; }
    assert Table([]) + (Begun([[97]]) + ([QUOTE] + Escape([]))) == [97, COMMA, QUOTE];
    assert LatinRow([[97]] + [[]]) == [[97], []] by {
      assert LatinAll([97]) == [97] && LatinAll([]) == [];
      LatinRowMore([[97]], []);
      assert LatinRow([[97]]) == [[97]] by { assert LatinRow([[97]][1..]) == []; }
    }
    assert LatinTable([]) + [[[97], []]] == [[[97], []]];
  }

  // ----- the loops

  method CsvRecords(text: bytes) returns (r: Result<seq<seq<bytes>>>)
    ensures r == ReadAll(text)
  {
    hide ReadField, Records;
    var records: seq<seq<bytes>> := [];
    var fields: seq<bytes> := [];
    var i := 0;
    ghost var closed := EndsWithQuote(text);
    assert text[0..] == text;
    JoinedNothing(ReadAll(text));
    while i < |text|
      invariant 0 <= i <= |text|
      invariant ReadAll(text) == Joined(records, Records(text[i..], closed, fields))
    {
      var read := NextField(text, i);
      if read.Err? {
        RecordsRefused(text, i, closed, fields);
        return Err(Parse);
      }
      RecordsStep(text, i, closed, fields, read.value.0, read.value.1);
      fields := fields + [read.value.0];
      i := read.value.1;
      if i < |text| && text[i] == COMMA {
        i := i + 1;
        if i == |text| {
          fields := fields + [[]];
        }
        continue;
      }
      if i < |text| && text[i] == CR {
        if i + 1 >= |text| || text[i + 1] != LF {
          return Err(Parse);
        }
        i := i + 2;
      } else if i < |text| && text[i] == LF {
        i := i + 1;
      }
      JoinedMore(records, fields, Records(text[i..], closed, []));
      records := records + [fields];
      fields := [];
    }
    RecordsEnd(text, closed, fields);
    assert records + [] == records;
    return Ok(records);
  }

  lemma RecordsEnd(text: bytes, closed: bool, fields: seq<bytes>)
    ensures Records(text[|text|..], closed, fields) == Ok([])
  {}

  /** One turn of the record loop, by positions. */
  lemma RecordsStep(text: bytes, i: nat, closed: bool, fields: seq<bytes>, field: bytes, next: nat)
    requires i < |text| && i <= next <= |text| && ReadField(text[i..], closed) == Ok(Field(field, text[next..]))
    ensures (var row := fields + [field];
             Records(text[i..], closed, fields)
             == if next == |text| then Cons(row, Records(text[next..], closed, []))
                else if text[next] == COMMA then Records(text[next + 1..], closed, if next + 1 == |text| then row + [[]] else row)
                else if text[next] == CR then
                  if next + 1 >= |text| || text[next + 1] != LF then Err(Parse) else Cons(row, Records(text[next + 2..], closed, []))
                else Cons(row, Records(text[next + 1..], closed, [])))
  {
    hide ReadField;
    var rest := text[next..];
    if next < |text| { assert rest[1..] == text[next + 1..]; }
    if next + 1 < |text| { assert rest[2..] == text[next + 2..]; }
    assert Records([], closed, []) == Ok([]);
    assert [fields + [field]] + [] == [fields + [field]];
  }

  lemma RecordsRefused(text: bytes, i: nat, closed: bool, fields: seq<bytes>)
    requires i < |text| && ReadField(text[i..], closed).Err?
    ensures Records(text[i..], closed, fields) == Err(Parse)
  {
    hide ReadField;
  }

  /** One field from `i` on and where it ends. */
  method NextField(text: bytes, i: nat) returns (r: Result<(bytes, nat)>)
    requires i < |text|
    ensures r.Err? <==> ReadField(text[i..], EndsWithQuote(text)).Err?
    ensures r.Ok? ==> i <= r.value.1 <= |text|
                      && ReadField(text[i..], EndsWithQuote(text)) == Ok(Field(r.value.0, text[r.value.1..]))
  {
    hide QuotedField, PlainField;
    assert text[i..][1..] == text[i + 1..];
    if text[i] == QUOTE {
      var field, next := NextQuoted(text, i + 1);
      if next == |text| && text[|text| - 1] != QUOTE {
        return Err(Parse);
      }
      if next < |text| && text[next] != COMMA && text[next] != CR && text[next] != LF {
        return Err(Parse);
      }
      return Ok((field, next));
    }
    r := NextPlain(text, i);
  }

  method NextQuoted(text: bytes, i: nat) returns (field: bytes, next: nat)
    requires i <= |text|
    ensures i <= next <= |text| && QuotedField(text[i..]) == Field(field, text[next..])
  {
    hide Latin;
    field, next := [], i;
    QuotedNone();
    while next < |text|
      invariant i <= next <= |text|
      invariant QuotedField(text[i..]) == QuotedAfter(field, QuotedField(text[next..]))
    {
      assert text[next..][1..] == text[next + 1..];
      if text[next] == QUOTE {
        if next + 1 < |text| && text[next + 1] == QUOTE {
          assert text[next..][2..] == text[next + 2..];
          Assoc(field, [QUOTE], QuotedField(text[next + 2..]).text);
          field := field + [QUOTE];
          next := next + 2;
        } else {
          next := next + 1;
          assert field + [] == field;
          return;
        }
      } else {
        Assoc(field, Latin(text[next]), QuotedField(text[next + 1..]).text);
        field := field + Latin(text[next]);
        next := next + 1;
      }
    }
    assert text[next..] == [] && field + [] == field;
  }

  ghost function QuotedAfter(before: bytes, f: Field): Field { Field(before + f.text, f.rest) }

  lemma QuotedNone()
    ensures forall f: Field :: QuotedAfter([], f) == f
  {
    forall f: Field ensures QuotedAfter([], f) == f { assert [] + f.text == f.text; }
  }

  method NextPlain(text: bytes, i: nat) returns (r: Result<(bytes, nat)>)
    requires i <= |text|
    ensures r.Err? <==> PlainField(text[i..]).Err?
    ensures r.Ok? ==> i <= r.value.1 <= |text| && PlainField(text[i..]) == Ok(Field(r.value.0, text[r.value.1..]))
  {
    hide Latin;
    var field: bytes, next := [], i;
    PlainNone(PlainField(text[i..]));
    while next < |text| && text[next] != COMMA && text[next] != CR && text[next] != LF
      invariant i <= next <= |text|
      invariant PlainField(text[i..]) == PlainAfter(field, PlainField(text[next..]))
    {
      assert text[next..][1..] == text[next + 1..];
      if text[next] == QUOTE {
        return Err(Parse);
      }
      PlainMore(field, Latin(text[next]), PlainField(text[next + 1..]));
      field := field + Latin(text[next]);
      next := next + 1;
    }
    assert field + [] == field;
    return Ok((field, next));
  }

  ghost function PlainAfter(before: bytes, f: Result<Field>): Result<Field> {
    if f.Ok? then Ok(QuotedAfter(before, f.value)) else f
  }

  lemma PlainNone(f: Result<Field>)
    ensures PlainAfter([], f) == f
  {
    QuotedNone();
  }

  lemma PlainMore(before: bytes, next: bytes, f: Result<Field>)
    ensures f.Ok? ==> PlainAfter(before, Ok(Field(next + f.value.text, f.value.rest))) == PlainAfter(before + next, f)
  {
    if f.Ok? { Assoc(before, next, f.value.text); }
  }

  method WriteScalar(s: bytes) returns (field: bytes)
    ensures field == Scalar(s)
  {
    if forall i :: 0 <= i < |s| ==> !Special(s[i]) {
      return s;
    }
    field := [QUOTE];
    assert s[0..] == s;
    for i := 0 to |s|
      invariant field + Escape(s[i..]) == [QUOTE] + Escape(s)
    {
      assert s[i..][1..] == s[i + 1..];
      ghost var rest := Escape(s[i + 1..]);
      if s[i] == QUOTE {
        assert field + ([QUOTE, QUOTE] + rest) == field + [QUOTE] + [QUOTE] + rest;
        field := field + [QUOTE];
      } else {
        Assoc(field, [s[i]], rest);
      }
      field := field + [s[i]];
    }
    assert field + [] == field;
    Assoc([QUOTE], Escape(s), [QUOTE]);
    return field + [QUOTE];
  }

  // ----- maps

  /** An entry of a row map, its value as the text `csv_scalar` gives it. */
  datatype Entry = Entry(key: bytes, value: bytes)

  function Keys(row: seq<Entry>): (keys: seq<bytes>)
    ensures |keys| == |row| && forall i :: 0 <= i < |row| ==> keys[i] == row[i].key
  {
    if row == [] then [] else [row[0].key] + Keys(row[1..])
  }

  function Values(row: seq<Entry>): (values: seq<bytes>)
    ensures |values| == |row| && forall i :: 0 <= i < |row| ==> values[i] == row[i].value
  {
    if row == [] then [] else [row[0].value] + Values(row[1..])
  }

  function AllValues(rows: seq<seq<Entry>>): (all: seq<seq<bytes>>)
    ensures |all| == |rows| && forall i :: 0 <= i < |rows| ==> all[i] == Values(rows[i])
  {
    if rows == [] then [] else [Values(rows[0])] + AllValues(rows[1..])
  }

  /** Every row has the keys of the first, in the same order. */
  predicate SameKeys(rows: seq<seq<Entry>>) { forall i :: 0 <= i < |rows| ==> Keys(rows[i]) == Keys(rows[0]) }

  function RecordsOf(rows: seq<seq<Entry>>): seq<seq<bytes>>
    requires rows != []
  {
    [Keys(rows[0])] + AllValues(rows)
  }

  method WriteFields(fields: seq<bytes>) returns (out: bytes)
    ensures out == Row(fields)
  {
    hide Scalar;
    out := [];
    assert fields[0..] == fields;
    for i := 0 to |fields|
      invariant i == 0 ==> out == []
      invariant 0 < i < |fields| ==> out + ([COMMA] + Row(fields[i..])) == Row(fields)
      invariant 0 < i == |fields| ==> out + CRLF == Row(fields)
    {
      assert fields[i..][1..] == fields[i + 1..] && fields[i..][0] == fields[i];
      if i > 0 {
        assert out + ([COMMA] + Row(fields[i..])) == out + [COMMA] + Row(fields[i..]);
        out := out + [COMMA];
      }
      var field := WriteScalar(fields[i]);
      ghost var before := out;
      assert before + Row(fields[i..]) == Row(fields);
      if i + 1 < |fields| {
        Assoc(before, Scalar(fields[i]), [COMMA] + Row(fields[i + 1..]));
      } else {
        Assoc(before, Scalar(fields[i]), CRLF);
      }
      out := out + field;
    }
    out := out + CRLF;
  }

  lemma TableStep(rows: seq<seq<bytes>>)
    requires rows != []
    ensures Table(rows) == Row(rows[0]) + Table(rows[1..])
  {}

  lemma TableNone(out: bytes)
    ensures out + Table([]) == out
  {}

  /** The loops of `csv_write`: the keys of the first row, then the values of every row. */
  method CsvWrite(rows: seq<seq<Entry>>) returns (r: Result<bytes>)
    ensures r == if rows == [] || !SameKeys(rows) then Err(Type) else Ok(Table(RecordsOf(rows)))
  {
    hide Row, Table, Keys, AllValues;
    if |rows| == 0 {
      return Err(Type);
    }
    var header := Keys(rows[0]);
    var out := WriteFields(header);
    ghost var values := AllValues(rows);
    assert RecordsOf(rows)[1..] == values && values[0..] == values;
    TableStep(RecordsOf(rows));
    for i := 0 to |rows|
      invariant forall k :: 0 <= k < i ==> Keys(rows[k]) == header
      invariant out + Table(values[i..]) == Table(RecordsOf(rows))
    {
      if Keys(rows[i]) != header {
        return Err(Type);
      }
      ghost var rest := values[i..];
      assert rest[1..] == values[i + 1..] && rest[0] == Values(rows[i]);
      var line := WriteFields(Values(rows[i]));
      TableStep(rest);
      Assoc(out, line, Table(values[i + 1..]));
      out := out + line;
    }
    assert values[|rows|..] == [];
    TableNone(out);
    return Ok(out);
  }

  /** Two fields of one name, or a field without one, make a table unreadable. */
  predicate GoodHeader(header: seq<bytes>) {
    && (forall i :: 0 <= i < |header| ==> header[i] != [])
    && (forall i, j :: 0 <= i < j < |header| ==> header[i] != header[j])
  }

  function Zip(header: seq<bytes>, fields: seq<bytes>): (row: seq<Entry>)
    requires |header| == |fields|
    ensures |row| == |header| && forall i :: 0 <= i < |row| ==> row[i] == Entry(header[i], fields[i])
  {
    if header == [] then [] else [Entry(header[0], fields[0])] + Zip(header[1..], fields[1..])
  }

  const BOM: bytes := [0xEF, 0xBB, 0xBF]

  /** Records that name their fields well and all have as many. */
  predicate Tabular(records: seq<seq<bytes>>) {
    records == [] || (GoodHeader(records[0]) && forall i :: 0 < i < |records| ==> |records[i]| == |records[0]|)
  }

  /** `csv_read`: a byte order mark is dropped, the first record names the fields of the others. */
  method CsvRead(text: bytes) returns (r: Result<seq<seq<Entry>>>)
    ensures var records := ReadAll(if BOM <= text then text[3..] else text);
            && (r.Ok? <==> records.Ok? && Tabular(records.value))
            && (r.Err? ==> r.error == Parse)
            && (r.Ok? && records.value == [] ==> r.value == [])
            && (r.Ok? && records.value != [] ==>
                  && |r.value| == |records.value| - 1
                  && forall i :: 0 <= i < |r.value| ==>
                       |records.value[i + 1]| == |records.value[0]| && r.value[i] == Zip(records.value[0], records.value[i + 1]))
  {
    hide ReadAll;
    var records := CsvRecords(if BOM <= text then text[3..] else text);
    if records.Err? {
      ReadAllErrors(if BOM <= text then text[3..] else text);
      return Err(records.error);
    }
    var all := records.value;
    if |all| == 0 {
      return Ok([]);
    }
    if !GoodHeader(all[0]) {
      return Err(Parse);
    }
    var rows: seq<seq<Entry>> := [];
    for i := 1 to |all|
      invariant |rows| == i - 1 && forall k :: 0 < k < i ==> |all[k]| == |all[0]|
      invariant forall k :: 0 <= k < |rows| ==> rows[k] == Zip(all[0], all[k + 1])
    {
      if |all[i]| != |all[0]| {
        return Err(Parse);
      }
      rows := rows + [Zip(all[0], all[i])];
    }
    return Ok(rows);
  }

  lemma ReadAllErrors(text: bytes)
    ensures ReadAll(text).Err? ==> ReadAll(text).error == Parse
  {}

  predicate AsciiRows(rows: seq<seq<Entry>>) {
    forall i, j :: 0 <= i < |rows| && 0 <= j < |rows[i]| ==> Utf8.Ascii(rows[i][j].key) && Utf8.Ascii(rows[i][j].value)
  }

  /** ASCII rows with the same good keys, at least one, come back as they were written. */
  method WriteThenRead(rows: seq<seq<Entry>>) returns (text: Result<bytes>, again: Result<seq<seq<Entry>>>)
    requires rows != [] && rows[0] != [] && SameKeys(rows) && GoodHeader(Keys(rows[0])) && AsciiRows(rows)
    ensures text == Ok(Table(RecordsOf(rows))) && again == Ok(rows)
  {
    hide Table, ReadAll, GoodHeader;
    text := CsvWrite(rows);
    var records := RecordsOf(rows);
    RecordsAscii(rows);
    RoundTrip(records);
    FirstByte(rows);
    again := CsvRead(text.value);
    assert Tabular(records) by {
      forall i | 0 < i < |records| ensures |records[i]| == |records[0]| { assert records[i] == Values(rows[i - 1]); }
    }
    forall i | 0 <= i < |rows| ensures again.value[i] == rows[i] {
      assert records[i + 1] == Values(rows[i]) && Keys(rows[i]) == Keys(rows[0]);
      assert again.value[i] == Zip(Keys(rows[0]), Values(rows[i]));
      assert forall j :: 0 <= j < |rows[i]| ==> Keys(rows[i])[j] == rows[i][j].key;
    }
    assert again.value == rows;
  }

  lemma RecordsAscii(rows: seq<seq<Entry>>)
    requires rows != [] && rows[0] != [] && SameKeys(rows) && AsciiRows(rows)
    ensures AsciiTable(RecordsOf(rows)) && forall i :: 0 <= i < |RecordsOf(rows)| ==> RecordsOf(rows)[i] != []
    ensures forall i :: 0 <= i < |rows| ==> |rows[i]| == |rows[0]|
  {
    hide Utf8.Ascii;
    forall i | 0 <= i < |rows| ensures |rows[i]| == |rows[0]| {
      assert |Keys(rows[i])| == |Keys(rows[0])|;
    }
    forall i | 0 <= i < |RecordsOf(rows)| ensures AsciiRow(RecordsOf(rows)[i]) && RecordsOf(rows)[i] != [] {
      if i > 0 { assert RecordsOf(rows)[i] == Values(rows[i - 1]); }
    }
  }

  lemma FirstByte(rows: seq<seq<Entry>>)
    requires rows != [] && rows[0] != [] && AsciiRows(rows)
    ensures !(BOM <= Table(RecordsOf(rows)))
  {
    var key := Keys(rows[0])[0];
    assert Utf8.Ascii(rows[0][0].key);
    var row := Row(Keys(rows[0]));
    assert Table(RecordsOf(rows)) == row + Table(RecordsOf(rows)[1..]);
    var fields := Keys(rows[0]);
    if key == [] {
      assert Scalar(key) == [];
      assert row[0] == if |fields| == 1 then CRLF[0] else COMMA;
    } else {
      assert Scalar(key) != [] && Scalar(key)[0] < 0x80;
      assert row[0] == Scalar(key)[0];
    }
    assert Table(RecordsOf(rows))[0] == row[0];
  }
}
