/** The label of a source row, which names its source and its row (`source_row` in `dataset_identity.rs`). */
module SourceLabels {
  import opened Bytes
  import opened Seqs
  import opened Utf8
  import DatasetKeys

  const COLON: byte := ':' as int

  const MAX_NAME := 128

  predicate Numeral(s: bytes) { s != [] && forall i :: 0 <= i < |s| ==> '0' as int <= s[i] <= '9' as int }

  function ValueOf(s: bytes): nat
    requires Numeral(s)
  {
    (if |s| == 1 then 0 else 10 * ValueOf(s[..|s| - 1])) + (s[|s| - 1] - '0' as int)
  }

  lemma {:induction false} DecimalRead(n: nat)
    ensures Numeral(DatasetKeys.Decimal(n)) && ValueOf(DatasetKeys.Decimal(n)) == n
  {
    if n >= 10 {
      DecimalRead(n / 10);
      Peel(DatasetKeys.Decimal(n / 10), ['0' as int + n % 10]);
    }
  }

  /** The place of the first colon, or the end. */
  function ColonAt(s: bytes): (n: nat)
    ensures n <= |s| && (n < |s| ==> s[n] == COLON) && forall i :: 0 <= i < n ==> s[i] != COLON
  {
    if s == [] || s[0] == COLON then 0 else 1 + ColonAt(s[1..])
  }

  datatype Field = Field(text: bytes, rest: bytes)

  /** The closure `field`: a length in canonical decimal, a colon, and that many bytes of UTF-8. */
  function TakeField(s: bytes): Result<Field> {
    var colon := ColonAt(s);
    if colon == |s| || !Numeral(s[..colon]) then Err(Corruption) else
    var (length, after) := (ValueOf(s[..colon]), s[colon + 1..]);
    if DatasetKeys.Decimal(length) != s[..colon] || length == 0 || length > MAX_NAME || length > |after| || !Valid(after[..length])
    then Err(Corruption)
    else Ok(Field(after[..length], after[length..]))
  }

  /** `source_row` */
  function Split(text: bytes): Option<(bytes, bytes)> {
    var source := TakeField(text);
    if source.Err? then None else
    var row := TakeField(source.value.rest);
    if row.Err? || row.value.rest != [] then None else Some((source.value.text, row.value.text))
  }

  predicate Name(s: bytes) { 0 < |s| <= MAX_NAME && Valid(s) }

  function Sized(s: bytes): bytes { DatasetKeys.Decimal(|s|) + ([COLON] + s) }

  /** The label that evaluation gives to a source row. */
  function LabelOf(source: bytes, row: bytes): bytes { Sized(source) + Sized(row) }

  lemma TakeSized(s: bytes, rest: bytes)
    ensures TakeField(Sized(s) + rest) == if Name(s) then Ok(Field(s, rest)) else Err(Corruption)
  {
    hide Valid, DatasetKeys.Decimal, ValueOf;
    var number := DatasetKeys.Decimal(|s|);
    DecimalRead(|s|);
    Nest3(number, [COLON], s, rest);
    var whole := number + ([COLON] + (s + rest));
    Peel(number, [COLON] + (s + rest));
    Peel([COLON], s + rest);
    Peel(s, rest);
    assert whole[|number|] == COLON;
    assert forall i :: 0 <= i < |number| ==> whole[i] == number[i] != COLON;
    assert ColonAt(whole) == |number|;
    assert whole[|number| + 1..] == s + rest;
  }

  lemma TakeOnly(s: bytes)
    requires TakeField(s).Ok?
    ensures var f := TakeField(s).value; Name(f.text) && s == Sized(f.text) + f.rest
  {
    hide Valid, DatasetKeys.Decimal, ValueOf;
    var colon := ColonAt(s);
    var f := TakeField(s).value;
    Rejoin(s, colon);
    assert s[colon..] == [COLON] + s[colon + 1..];
    assert s[colon + 1..] == f.text + f.rest;
    Nest3(DatasetKeys.Decimal(|f.text|), [COLON], f.text, f.rest);
  }

  /** A label reads back as the names it was made of if they are names of 1 to 128 bytes, and is refused otherwise. */
  lemma LabelSplits(source: bytes, row: bytes)
    ensures Split(LabelOf(source, row)) == if Name(source) && Name(row) then Some((source, row)) else None
  {
    hide Sized, Name, TakeField;
    TakeSized(source, Sized(row));
    TakeSized(row, []);
    assert Sized(row) + [] == Sized(row);
  }

  /** A label that splits is the label of what it splits to: no two labels name one row. */
  lemma SplitOnly(text: bytes)
    requires Split(text).Some?
    ensures var (source, row) := Split(text).value; Name(source) && Name(row) && text == LabelOf(source, row)
  {
    hide Sized, Name, TakeField;
    TakeOnly(text);
    var f := TakeField(text).value;
    TakeOnly(f.rest);
    assert Sized(Split(text).value.1) + [] == Sized(Split(text).value.1);
  }
}
