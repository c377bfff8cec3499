/** The records of the inbox as the JSON that `future_messages.rs` stores, and what its `snapshot` and `condition` accept. */
module InboxJson {
  import opened Bytes
  import opened Json
  import opened JsonData
  import opened JsonPut
  import opened JsonStore
  import opened JsonText
  import Conditions
  import Inbox
  import Scan

  // ----- names

  /** The bytes of ASCII text. */
  function Letters(s: string): (r: bytes)
    ensures |r| == |s|
  {
    seq(|s|, i requires 0 <= i < |s| => if s[i] < 128 as char then s[i] as int else 63)
  }

  /** The first difference decides the order of two names. */
  lemma {:induction false} LessAt(a: string, b: string, n: nat)
    requires n <= |a| && n < |b| && a[..n] == b[..n] && (n == |a| || a[n] < b[n] < 128 as char)
    ensures Scan.Less(Letters(a), Letters(b))
  {
    FirstDifference(Letters(a), Letters(b), n) by {
      forall i | 0 <= i < n ensures a[i] == b[i] {
        assert a[..n][i] == b[..n][i];
      }
    }
  }

  lemma {:induction false} FirstDifference(a: bytes, b: bytes, n: nat)
    requires n <= |a| && n < |b| && (forall i :: 0 <= i < n ==> a[i] == b[i]) && (n == |a| || a[n] < b[n])
    ensures Scan.Less(a, b)
  {
    if n > 0 {
      FirstDifference(a[1..], b[1..], n - 1);
    }
  }

  function Lookup(entries: seq<Entry>, name: bytes): (v: Option<Json>)
    ensures v.Some? ==> exists i :: 0 <= i < |entries| && entries[i] == Entry(name, v.value)
  {
    if entries == [] then None else if entries[0].key == name then Some(entries[0].value) else Lookup(entries[1..], name)
  }

  // ----- conditions

  const MAX_ID := 128
  const MAX_COMPARISONS := 16
  const MAX_SCALAR_STRING := 4096

  function BoundedName(v: Json): Result<bytes> {
    if !v.Text? then Err(Schema) else if v.s == [] || |v.s| > MAX_ID then Err(Limit) else Ok(v.s)
  }

  /** Doubles are compared by their places in `order`; zero is at place 0. */
  function Timestamp(order: nat -> int, v: Json): Result<int> {
    if v.Number? && order(v.n) >= 0 then Ok(order(v.n)) else Err(Schema)
  }

  function OperatorOf(s: bytes): Option<Conditions.Operator> {
    if s == Letters("eq") then Some(Conditions.Eq) else if s == Letters("ne") then Some(Conditions.Ne)
    else if s == Letters("lt") then Some(Conditions.Lt) else if s == Letters("le") then Some(Conditions.Le)
    else if s == Letters("gt") then Some(Conditions.Gt) else if s == Letters("ge") then Some(Conditions.Ge)
    else None
  }

  function ScalarOf(order: nat -> int, v: Json): Result<Conditions.Scalar> {
    match v
    case Null => Ok(Conditions.Scalar.Null)
    case Flag(b) => Ok(Conditions.Boolean(b))
    case Number(n) => Ok(Conditions.Scalar.Number(order(n)))
    case Text(s) => if |s| > MAX_SCALAR_STRING then Err(Limit) else Ok(Conditions.String(s))
    case _ => Err(Schema)
  }

  function ComparisonOf(order: nat -> int, v: Json): (r: Result<Conditions.Comparison>)
    ensures r.Ok? ==> v.Object? && forall i :: 0 <= i < |v.entries| ==> !v.entries[i].value.List? && !v.entries[i].value.Object?
  {
    if !v.Object? || |v.entries| != 3 then Err(Schema) else
    var field := Lookup(v.entries, Letters("field"));
    if field.None? then Err(Schema) else
    var name := BoundedName(field.value);
    if name.Err? then Err(name.error) else
    var op := Lookup(v.entries, Letters("op"));
    if op.None? || !op.value.Text? || OperatorOf(op.value.s).None? then Err(Schema) else
    var expected := Lookup(v.entries, Letters("value"));
    if expected.None? then Err(Schema) else
    var scalar := ScalarOf(order, expected.value);
    if scalar.Err? then Err(scalar.error) else
    var operator := OperatorOf(op.value.s).value;
    if operator != Conditions.Eq && operator != Conditions.Ne && !scalar.value.Number? && !scalar.value.String? then Err(Schema)
    else
      ThreeFields(v.entries, field.value, op.value, expected.value);
      Ok(Conditions.Comparison(name.value, operator, scalar.value))
  }

  lemma ThreeFields(entries: seq<Entry>, field: Json, op: Json, value: Json)
    requires |entries| == 3
    requires Lookup(entries, Letters("field")) == Some(field) && Lookup(entries, Letters("op")) == Some(op)
    requires Lookup(entries, Letters("value")) == Some(value)
    ensures forall i :: 0 <= i < 3 ==> entries[i].value == field || entries[i].value == op || entries[i].value == value
  {
    hide Letters, Lookup;
    NamesDiffer();
    var a :| 0 <= a < 3 && entries[a] == Entry(Letters("field"), field);
    var b :| 0 <= b < 3 && entries[b] == Entry(Letters("op"), op);
    var c :| 0 <= c < 3 && entries[c] == Entry(Letters("value"), value);
  }

  lemma NamesDiffer()
    ensures Letters("field") != Letters("op") && Letters("field") != Letters("value") && Letters("op") != Letters("value")
  {
    assert Letters("field")[0] == 'f' as int && Letters("op")[0] == 'o' as int && Letters("value")[0] == 'v' as int;
  }

  function ComparisonsOf(order: nat -> int, items: seq<Json>): (r: Result<seq<Conditions.Comparison>>)
    ensures r.Ok? ==> |r.value| == |items| && DepthItems(items) <= 2
  {
    if items == [] then Ok([]) else
    var first := ComparisonOf(order, items[0]);
    if first.Err? then Err(first.error) else
    var rest := ComparisonsOf(order, items[1..]);
    if rest.Err? then Err(rest.error) else
    FlatDepth(items[0].entries);
    Ok([first.value] + rest.value)
  }

  lemma {:induction false} FlatDepth(entries: seq<Entry>)
    requires forall i :: 0 <= i < |entries| ==> !entries[i].value.List? && !entries[i].value.Object?
    ensures DepthEntries(entries) <= 1
    decreases |entries|
  {
    if entries != [] { FlatDepth(entries[1..]); }
  }

  function Present<T>(r: Result<T>): Result<Option<T>> { if r.Err? then Err(r.error) else Ok(Some(r.value)) }

  /** `condition` */
  function ConditionOf(order: nat -> int, v: Json): Result<Conditions.Condition> {
    if !v.Object? then Err(Schema) else
    if exists i :: 0 <= i < |v.entries| && v.entries[i].key != Letters("not_before_utc") && v.entries[i].key != Letters("event")
                   && v.entries[i].key != Letters("comparisons") then Err(Schema) else
    var time := Lookup(v.entries, Letters("not_before_utc"));
    var notBefore := if time.None? then Ok(None) else Present(Timestamp(order, time.value));
    if notBefore.Err? then Err(notBefore.error) else
    var name := Lookup(v.entries, Letters("event"));
    var event := if name.None? then Ok(None) else Present(BoundedName(name.value));
    if event.Err? then Err(event.error) else
    var list := Lookup(v.entries, Letters("comparisons"));
    if list.Some? && !list.value.List? then Err(Schema) else
    if list.Some? && |list.value.items| > MAX_COMPARISONS then Err(Limit) else
    var comparisons := if list.None? then Ok([]) else ComparisonsOf(order, list.value.items);
    if comparisons.Err? then Err(comparisons.error) else
    if event.value.None? && (notBefore.value.None? || comparisons.value != []) then Err(Schema)
    else Ok(Conditions.Condition(notBefore.value, event.value, comparisons.value))
  }

  /** A condition that is accepted is nested at most three deep. */
  lemma ConditionDepth(order: nat -> int, v: Json)
    requires Good(v) && ConditionOf(order, v).Ok?
    ensures Depth(v) <= 3
  {
    hide ComparisonsOf, Letters, TextOk, Lookup;
    forall i | 0 <= i < |v.entries| ensures Depth(v.entries[i].value) <= 2 {
      LookupOnly(v.entries, i);
      var value := v.entries[i].value;
      if v.entries[i].key == Letters("comparisons") {
        assert value.List? && DepthItems(value.items) <= 2;
      } else {
        assert value.Number? || value.Text?;
      }
    }
    EntriesDepth(v.entries, 2);
  }

  /** With distinct keys each entry is the one its key finds. */
  lemma {:induction false} LookupOnly(entries: seq<Entry>, i: nat)
    requires DistinctKeys(entries) && i < |entries|
    ensures Lookup(entries, entries[i].key) == Some(entries[i].value)
    decreases |entries|
  {
    if i > 0 {
      assert entries[0].key != entries[i].key;
      LookupOnly(entries[1..], i - 1);
    }
  }

  lemma {:induction false} EntriesDepth(entries: seq<Entry>, depth: nat)
    requires forall i :: 0 <= i < |entries| ==> Depth(entries[i].value) <= depth
    ensures DepthEntries(entries) <= depth + 1
    decreases |entries|
  {
    hide Depth;
    if entries != [] { EntriesDepth(entries[1..], depth); }
  }

  // ----- snapshot

  /** `snapshot`, of a value without handles: encoded, bounded, and read again. */
  function Snapshot(p: Printer, heap: Heap, v: Json, limit: nat): Result<Json> {
    var text := Encode(p, v);
    if text.Err? then Err(text.error) else
    if |text.value| > limit then Err(Limit) else
    var read := ParseText(p, text.value);
    if read.Ok? && !heap.value(read.value) then Err(Oom) else read
  }

  /** What `snapshot` returns is in order, holds no large integer, and is nested as deep as it was given, at most 128. */
  lemma SnapshotTaken(rt: Inbox.Runtime, heap: Heap, v: Json, limit: nat)
    requires Lawful(rt.p) && Good(v) && Snapshot(rt.p, heap, v, limit).Ok?
    ensures var taken := Snapshot(rt.p, heap, v, limit).value;
            Inbox.Taken(rt, taken) && Depth(taken) == Depth(v) && taken == Kept(rt.p, Sorted(v))
  {
    hide Encode, ParseText, Sorted, Lawful, Kept, Depth, Good, InOrder, Large;
    PutGet(rt.p, v);
    SortedInOrder(v);
    KeptInOrder(rt.p, Sorted(v));
    SortedDepth(v);
  }

  lemma {:induction false} NestedText(p: Printer, depth: nat)
    ensures |Write(p, Nested(depth))| == 2 * (depth + 1)
  {
    if depth == 0 {
      assert WriteItems(p, []) == [];
    } else {
      NestedText(p, depth - 1);
      assert WriteItems(p, [Nested(depth - 1)]) == Write(p, Nested(depth - 1));
    }
  }

  /** `snapshot` takes a list nested exactly 128 deep as it is. */
  lemma SnapshotOfDeep(p: Printer, heap: Heap, limit: nat)
    requires Lawful(p) && heap.value(Nested(DATA_DEPTH)) && limit >= 64 * 1024
    ensures Snapshot(p, heap, Nested(DATA_DEPTH), limit) == Ok(Nested(DATA_DEPTH))
  {
    hide Encode, ParseText, Sorted, Lawful, Kept, Depth, Good, Write, Large;
    var v := Nested(DATA_DEPTH);
    Puts(p, v);
    PutGet(p, v);
    NestedText(p, DATA_DEPTH);
    NestedSmall(p, DATA_DEPTH);
    KeptSame(p, v);
  }

  lemma {:induction false} NestedSmall(p: Printer, depth: nat)
    ensures !Large(p, Nested(depth))
  {
    if depth > 0 { NestedSmall(p, depth - 1); }
  }
}
