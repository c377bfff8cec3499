/** The JSON of an inbox record, and the proof that the inbox's hypotheses hold of it. */
module InboxRecord {
  import opened Bytes
  import opened Inbox
  import opened InboxJson
  import opened Values = Json
  import opened JsonData
  import opened JsonPut
  import opened JsonStore
  import opened JsonText
  import Payload
  import Scan
  import Snapshots

  // ----- the record

  /** A number's decimal digits. */
  function Decimal(n: nat): (r: bytes)
    ensures r != [] && forall i :: 0 <= i < |r| ==> 48 <= r[i] < 58
  {
    if n < 10 then [48 + n] else Decimal(n / 10) + [48 + n % 10]
  }

  lemma {:induction false} DecimalInjective(a: nat, b: nat)
    requires Decimal(a) == Decimal(b)
    ensures a == b
  {
    if a >= 10 && b >= 10 {
      var (x, y) := (Decimal(a / 10), Decimal(b / 10));
      assert Decimal(a)[..|Decimal(a)| - 1] == x && Decimal(b)[..|Decimal(b)| - 1] == y;
      DecimalInjective(a / 10, b / 10);
      assert Decimal(a)[|x|] == 48 + a % 10 && Decimal(b)[|y|] == 48 + b % 10;
    }
  }

  const NAMES: seq<string> := [
    "acknowledged_receipt", "assumptions", "cancelled_receipt", "condition", "created_at_utc", "creation_receipt", "domain_status",
    "error", "evidence", "exactness", "id", "kind", "metadata", "payload", "provenance_refs", "ready_receipt", "record_schema",
    "schema_version", "status", "transport_status"]

  function NameAt(i: nat): bytes
    requires i < 20
  {
    Letters(NAMES[i])
  }

  function ReceiptJson(status: Status, spec: Spec, receipt: Receipt): Values.Json {
    var revision := Entry(Letters("store_revision"), Text(Decimal(receipt.revision)));
    if status == Ready then
      var context := if receipt.context.Some? then Text(receipt.context.value) else Null;
      Object([Entry(Letters("condition"), spec.condition), Entry(Letters("context_id"), context),
              Entry(Letters("matched_at_utc"), Number(receipt.at)), revision])
    else Object([Entry(Letters("at_utc"), Number(receipt.at)), revision])
  }

  function ReceiptField(r: Record, status: Status): Option<Values.Json> {
    if status in r.receipts then Some(ReceiptJson(status, r.spec, r.receipts[status])) else None
  }

  /** The field of a record that comes at a place in the order of their names; `one` is the number 1. */
  function Field(one: nat, r: Record, i: nat): Option<Values.Json>
    requires i < 20
  {
    match i
    case 0 => ReceiptField(r, Acknowledged)
    case 2 => ReceiptField(r, Cancelled)
    case 3 => Some(r.spec.condition)
    case 4 => Some(Number(r.createdAt))
    case 5 => ReceiptField(r, Pending)
    case 6 => Some(Text(Name(r.status)))
    case 8 => Some(r.spec.provenance)
    case 9 => Some(Text(Letters("exact")))
    case 10 => Some(Text(r.id))
    case 11 => Some(Text(Letters("future_message")))
    case 13 => Some(r.spec.payload)
    case 14 => Some(r.spec.provenance)
    case 15 => ReceiptField(r, Ready)
    case 16 => Some(Number(one))
    case 17 => Some(Number(one))
    case 18 => Some(Text(Name(r.status)))
    case 19 => Some(Text(Letters("stored")))
    case _ => Some(Null)
  }

  function FieldsFrom(one: nat, r: Record, i: nat): seq<Entry>
    requires i <= 20
    decreases 20 - i
  {
    if i == 20 then [] else
    var v := Field(one, r, i);
    if v.None? then FieldsFrom(one, r, i + 1) else [Entry(NameAt(i), v.value)] + FieldsFrom(one, r, i + 1)
  }

  function RecordJson(one: nat, r: Record): Values.Json { Object(FieldsFrom(one, r, 0)) }

  /** The text of a record; `encode_value` refuses a NUL in a name, and other strings than these do not exist. */
  function RecordText(p: Printer, one: nat, r: Record): Result<bytes> {
    if Good(RecordJson(one, r)) then Encode(p, RecordJson(one, r)) else Err(Schema)
  }

  // ----- names ascend

  lemma AdjacentNames(i: nat)
    requires i + 1 < 20
    ensures Scan.Less(NameAt(i), NameAt(i + 1))
  {
    hide NameAt, Scan.Less;
    if i < 5 { FirstNames(i); } else if i < 10 { MiddleNames(i); } else { LastNames(i); }
  }

  lemma FirstNames(i: nat)
    requires i < 5
    ensures Scan.Less(NameAt(i), NameAt(i + 1))
  {
    hide Letters, Scan.Less;
    match i
    case 0 => LessAt("acknowledged_receipt", "assumptions", 1);
    case 1 => LessAt("assumptions", "cancelled_receipt", 0);
    case 2 => LessAt("cancelled_receipt", "condition", 1);
    case 3 => LessAt("condition", "created_at_utc", 1);
    case 4 => LessAt("created_at_utc", "creation_receipt", 5);
  }

  lemma MiddleNames(i: nat)
    requires 5 <= i < 10
    ensures Scan.Less(NameAt(i), NameAt(i + 1))
  {
    hide Letters, Scan.Less;
    match i
    case 5 => LessAt("creation_receipt", "domain_status", 0);
    case 6 => LessAt("domain_status", "error", 0);
    case 7 => LessAt("error", "evidence", 1);
    case 8 => LessAt("evidence", "exactness", 1);
    case 9 => LessAt("exactness", "id", 0);
  }

  lemma LastNames(i: nat)
    requires 10 <= i < 19
    ensures Scan.Less(NameAt(i), NameAt(i + 1))
  {
    hide Letters, Scan.Less;
    match i
    case 10 => LessAt("id", "kind", 0);
    case 11 => LessAt("kind", "metadata", 0);
    case 12 => LessAt("metadata", "payload", 0);
    case 13 => LessAt("payload", "provenance_refs", 1);
    case 14 => LessAt("provenance_refs", "ready_receipt", 0);
    case 15 => LessAt("ready_receipt", "record_schema", 2);
    case 16 => LessAt("record_schema", "schema_version", 0);
    case 17 => LessAt("schema_version", "status", 1);
    case 18 => LessAt("status", "transport_status", 0);
  }

  lemma {:induction false} NamesAscend(i: nat, j: nat)
    requires i < j < 20
    ensures Scan.Less(NameAt(i), NameAt(j))
    decreases j
  {
    hide NameAt, Scan.Less;
    AdjacentNames(j - 1);
    if i < j - 1 {
      NamesAscend(i, j - 1);
      Scan.LessTransitive(NameAt(i), NameAt(j - 1), NameAt(j));
    }
  }

  // ----- the fields

  /** The fields from a place on are in order, and each of their names is one from there on. */
  lemma {:induction false} FieldsAscend(one: nat, r: Record, i: nat)
    requires i <= 20
    ensures Ascending(FieldsFrom(one, r, i))
    ensures forall k :: 0 <= k < |FieldsFrom(one, r, i)| ==>
              exists j :: i <= j < 20 && FieldsFrom(one, r, i)[k].key == NameAt(j) && Field(one, r, j) == Some(FieldsFrom(one, r, i)[k].value)
    decreases 20 - i
  {
    hide NameAt, Scan.Less, Field;
    if i < 20 {
      FieldsAscend(one, r, i + 1);
      var (all, rest) := (FieldsFrom(one, r, i), FieldsFrom(one, r, i + 1));
      forall k | 0 <= k < |rest| ensures Scan.Less(NameAt(i), rest[k].key) {
        var j :| i + 1 <= j < 20 && rest[k].key == NameAt(j) && Field(one, r, j) == Some(rest[k].value);
        NamesAscend(i, j);
      }
      if Field(one, r, i).Some? {
        forall k | 0 <= k < |all|
          ensures exists j :: i <= j < 20 && all[k].key == NameAt(j) && Field(one, r, j) == Some(all[k].value)
        {
          if k > 0 { assert all[k] == rest[k - 1]; } else { assert all[0].key == NameAt(i); }
        }
      } else {
        assert all == rest;
      }
    }
  }

  /** Records with the same fields have the same field at each place. */
  lemma {:induction false} SameFields(one: nat, a: Record, b: Record, i: nat, j: nat)
    requires i <= j < 20 && FieldsFrom(one, a, i) == FieldsFrom(one, b, i)
    ensures Field(one, a, j) == Field(one, b, j)
    decreases j - i
  {
    hide NameAt, Scan.Less, Field;
    FirstField(one, a, b, i);
    FirstField(one, b, a, i);
    if i < j {
      SameRest(one, a, b, i);
      SameFields(one, a, b, i + 1, j);
    }
  }

  lemma FirstField(one: nat, a: Record, b: Record, i: nat)
    requires i < 20 && FieldsFrom(one, a, i) == FieldsFrom(one, b, i)
    ensures Field(one, a, i).Some? ==> Field(one, b, i) == Field(one, a, i)
  {
    hide NameAt, Scan.Less, Field;
    var fields := FieldsFrom(one, a, i);
    if Field(one, a, i).Some? {
      assert fields[0] == Entry(NameAt(i), Field(one, a, i).value);
      if Field(one, b, i).None? {
        FieldsAscend(one, b, i + 1);
        assert fields == FieldsFrom(one, b, i + 1);
        var j :| i + 1 <= j < 20 && fields[0].key == NameAt(j) && Field(one, b, j) == Some(fields[0].value);
        NamesAscend(i, j);
        Scan.LessTotal(NameAt(i), NameAt(j));
        assert false;
      }
    }
  }

  lemma SameRest(one: nat, a: Record, b: Record, i: nat)
    requires i < 20 && FieldsFrom(one, a, i) == FieldsFrom(one, b, i) && Field(one, a, i) == Field(one, b, i)
    ensures FieldsFrom(one, a, i + 1) == FieldsFrom(one, b, i + 1)
  {
    hide NameAt, Field;
    if Field(one, a, i).Some? {
      assert FieldsFrom(one, a, i)[1..] == FieldsFrom(one, a, i + 1);
      assert FieldsFrom(one, b, i)[1..] == FieldsFrom(one, b, i + 1);
    }
  }

  // ----- the text names the record

  lemma NameInjective(a: Status, b: Status)
    requires Name(a) == Name(b)
    ensures a == b
  {
    assert Name(a)[0] == Name(b)[0];
  }

  lemma ReceiptInjective(status: Status, spec: Spec, a: Receipt, b: Receipt)
    requires ReceiptJson(status, spec, a) == ReceiptJson(status, spec, b)
    requires status == Ready || (a.context.None? && b.context.None?)
    ensures a == b
  {
    hide Letters, Decimal;
    var (x, y) := (ReceiptJson(status, spec, a).entries, ReceiptJson(status, spec, b).entries);
    if status == Ready {
      assert x[1] == y[1] && x[2] == y[2] && x[3] == y[3];
    } else {
      assert x[0] == y[0] && x[1] == y[1];
    }
    DecimalInjective(a.revision, b.revision);
  }

  lemma SameReceipt(one: nat, a: Record, b: Record, status: Status)
    requires a.spec == b.spec && ReceiptField(a, status) == ReceiptField(b, status) && Contexts(a) && Contexts(b)
    ensures status in a.receipts <==> status in b.receipts
    ensures status in a.receipts ==> a.receipts[status] == b.receipts[status]
  {
    hide ReceiptJson;
    if status in a.receipts {
      ReceiptInjective(status, a.spec, a.receipts[status], b.receipts[status]);
    }
  }

  predicate Contexts(r: Record) { forall s :: s in r.receipts ==> s == Ready || r.receipts[s].context.None? }

  /** No two records have the same JSON. */
  lemma RecordInjective(one: nat, a: Record, b: Record)
    requires RecordJson(one, a) == RecordJson(one, b) && Contexts(a) && Contexts(b)
    ensures a == b
  {
    hide FieldsFrom, ReceiptField, Letters, Contexts;
    forall i | 0 <= i < 20 ensures Field(one, a, i) == Field(one, b, i) {
      SameFields(one, a, b, 0, i);
    }
    assert Field(one, a, 3) == Field(one, b, 3) && Field(one, a, 4) == Field(one, b, 4) && Field(one, a, 10) == Field(one, b, 10)
           && Field(one, a, 13) == Field(one, b, 13) && Field(one, a, 14) == Field(one, b, 14) && Field(one, a, 18) == Field(one, b, 18)
           && Field(one, a, 0) == Field(one, b, 0) && Field(one, a, 2) == Field(one, b, 2) && Field(one, a, 5) == Field(one, b, 5)
           && Field(one, a, 15) == Field(one, b, 15);
    NameInjective(a.status, b.status);
    forall status ensures status in a.receipts <==> status in b.receipts
                  ensures status in a.receipts ==> a.receipts[status] == b.receipts[status] {
      match status {
        case Pending => assert Field(one, a, 5) == ReceiptField(a, status) && Field(one, b, 5) == ReceiptField(b, status);
        case Ready => assert Field(one, a, 15) == ReceiptField(a, status) && Field(one, b, 15) == ReceiptField(b, status);
        case Acknowledged => assert Field(one, a, 0) == ReceiptField(a, status) && Field(one, b, 0) == ReceiptField(b, status);
        case Cancelled => assert Field(one, a, 2) == ReceiptField(a, status) && Field(one, b, 2) == ReceiptField(b, status);
      }
      SameReceipt(one, a, b, status);
    }
    assert a.receipts == b.receipts;
  }

  // ----- the text is read back

  lemma ReceiptNames()
    ensures Scan.Less(Letters("condition"), Letters("context_id")) && Scan.Less(Letters("context_id"), Letters("matched_at_utc"))
    ensures Scan.Less(Letters("matched_at_utc"), Letters("store_revision")) && Scan.Less(Letters("at_utc"), Letters("store_revision"))
  {
    hide Letters, Scan.Less;
    LessAt("condition", "context_id", 3);
    LessAt("context_id", "matched_at_utc", 0);
    LessAt("matched_at_utc", "store_revision", 0);
    LessAt("at_utc", "store_revision", 0);
  }

  lemma ReceiptTaken(rt: Runtime, status: Status, spec: Spec, receipt: Receipt)
    requires TakenSpec(rt, spec) && Plain(rt, receipt.at) && Good(ReceiptJson(status, spec, receipt)) && Depth(spec.condition) <= 3
    ensures var v := ReceiptJson(status, spec, receipt); InOrder(v) && !Large(rt.p, v) && Depth(v) <= 4
  {
    hide Letters, LargeInteger, TextOk, Decimal, Scan.Less, Ascending;
    var es := ReceiptJson(status, spec, receipt).entries;
    ReceiptAscends(status, spec, receipt);
    EntriesDepth(es, 3);
  }

  lemma ReceiptAscends(status: Status, spec: Spec, receipt: Receipt)
    ensures Ascending(ReceiptJson(status, spec, receipt).entries)
  {
    hide Letters, Decimal, Scan.Less;
    var es := ReceiptJson(status, spec, receipt).entries;
    ReceiptNames();
    if status == Ready {
      Scan.LessTransitive(es[0].key, es[1].key, es[2].key);
      Scan.LessTransitive(es[1].key, es[2].key, es[3].key);
      Scan.LessTransitive(es[0].key, es[1].key, es[3].key);
    }
  }

  /** Every field is in order and holds no large integer, and only the payload can be deep. */
  lemma FieldTaken(rt: Runtime, one: nat, r: Record, i: nat)
    requires TakenRecord(rt, r) && Plain(rt, one) && i < 20 && Depth(r.spec.condition) <= 3
    requires Field(one, r, i).Some? && Good(Field(one, r, i).value)
    ensures var v := Field(one, r, i).value; InOrder(v) && !Large(rt.p, v) && (i == 13 || Depth(v) <= 4)
  {
    hide Letters, LargeInteger, TextOk, ReceiptJson, Name;
    var v := Field(one, r, i).value;
    match i
    case 0 => ReceiptTaken(rt, Acknowledged, r.spec, r.receipts[Acknowledged]);
    case 2 => ReceiptTaken(rt, Cancelled, r.spec, r.receipts[Cancelled]);
    case 5 => ReceiptTaken(rt, Pending, r.spec, r.receipts[Pending]);
    case 15 => ReceiptTaken(rt, Ready, r.spec, r.receipts[Ready]);
    case _ =>
  }

  lemma {:induction false} FieldPresent(one: nat, r: Record, i: nat, j: nat)
    requires i <= j < 20 && Field(one, r, j).Some?
    ensures exists k :: 0 <= k < |FieldsFrom(one, r, i)| && FieldsFrom(one, r, i)[k].value == Field(one, r, j).value
    decreases j - i
  {
    hide NameAt, Field;
    var all := FieldsFrom(one, r, i);
    if i == j {
      assert all[0].value == Field(one, r, j).value;
    } else {
      FieldPresent(one, r, i + 1, j);
      var rest := FieldsFrom(one, r, i + 1);
      var k :| 0 <= k < |rest| && rest[k].value == Field(one, r, j).value;
      if Field(one, r, i).Some? { assert all[k + 1].value == rest[k].value; } else { assert all[k].value == rest[k].value; }
    }
  }

  lemma {:induction false} DepthAtLeast(entries: seq<Entry>, k: nat)
    requires k < |entries|
    ensures DepthEntries(entries) >= 1 + Depth(entries[k].value)
    decreases |entries|
  {
    hide Depth;
    if k > 0 { DepthAtLeast(entries[1..], k - 1); }
  }

  /** A record's JSON is in order, holds no large integer, and is deeper than 128 if and only if it is not readable. */
  lemma RecordTaken(rt: Runtime, one: nat, r: Record)
    requires TakenRecord(rt, r) && Plain(rt, one) && Depth(r.spec.condition) <= 3 && Good(RecordJson(one, r))
    ensures var v := RecordJson(one, r);
            InOrder(v) && !Large(rt.p, v) && (Depth(v) > DATA_DEPTH <==> !Readable(r))
  {
    hide TakenRecord, Field, FieldsFrom, NameAt, Scan.Less, Plain, TextOk, Ascending;
    var es := FieldsFrom(one, r, 0);
    FieldsAscend(one, r, 0);
    var bound := Max(Depth(r.spec.payload), 4);
    PayloadField(one, r);
    forall k | 0 <= k < |es|
      ensures InOrder(es[k].value) && !Large(rt.p, es[k].value) && Depth(es[k].value) <= bound
    {
      var j :| 0 <= j < 20 && es[k].key == NameAt(j) && Field(one, r, j) == Some(es[k].value);
      FieldTaken(rt, one, r, j);
    }
    EntriesDepth(es, bound);
    FieldPresent(one, r, 0, 13);
    var k :| 0 <= k < |es| && es[k].value == r.spec.payload;
    DepthAtLeast(es, k);
  }

  lemma PayloadField(one: nat, r: Record)
    ensures Field(one, r, 13) == Some(r.spec.payload)
  {}

  /** A value whose text is no longer than a record fits the heap it is read on. */
  ghost predicate Roomy(p: Printer, heap: Heap) {
    heap.document(Object([])) && forall v {:trigger heap.value(v)} :: |Values.Write(p, v)| <= MAX_RECORD ==> heap.value(v)
  }

  /** What a value in order without large integers is read as from its own text, deep or not. */
  lemma FormOfTaken(p: Printer, heap: Heap, v: Values.Json)
    requires Values.Lawful(p) && Roomy(p, heap) && InOrder(v) && !Large(p, v) && Encode(p, v).Ok? && |Encode(p, v).value| <= MAX_RECORD
    ensures var t := Encode(p, v).value;
            && Written(p, t) && 0 !in t && Decode(p, t) == Ok(v)
            && Form(p, heap, t) == if Depth(v) > DATA_DEPTH then Err(Limit) else Ok(t)
  {
    hide Values.Lawful, Encode, Decode, Values.Write, Good, InOrder, Large, Depth, Kept, Form, Sorted;
    InOrderGood(v);
    SortedKeeps(v);
    KeptSame(p, v);
    Puts(p, v);
    RoundTrip(p, v);
    EncodedNoNul(p, v);
    FormWritten(p, heap, v);
  }

  // ----- the instance

  function Base(h: Payload.Hash, c: Snapshots.Canon, p: Printer, order: nat -> int, one: nat): Runtime {
    Runtime(h, c, p, order, v => ConditionOf(order, v), r => RecordText(p, one, r), t => None)
  }

  ghost predicate Names(rt: Runtime, r: Record, t: bytes) { TakenRecord(rt, r) && rt.encode(r) == Ok(t) }

  /** The record that a text is of, if it is of any. */
  ghost function Decoded(rt: Runtime, t: bytes): (found: Option<Record>)
    ensures found.Some? ==> Names(rt, found.value, t)
    ensures forall r :: Names(rt, r, t) ==> found.Some?
  {
    if exists r :: Names(rt, r, t) then
      var r :| Names(rt, r, t);
      Some(r)
    else None
  }

  /** The inbox over the store's codec and its own JSON. */
  ghost function JsonRuntime(h: Payload.Hash, p: Printer, heap: Heap, order: nat -> int, one: nat): Runtime {
    var base := Base(h, JsonCanon(p, heap), p, order, one);
    base.(decode := t => Decoded(base, t))
  }

  lemma TakenBase(h: Payload.Hash, p: Printer, heap: Heap, order: nat -> int, one: nat, r: Record)
    ensures TakenRecord(JsonRuntime(h, p, heap, order, one), r)
        <==> TakenRecord(Base(h, JsonCanon(p, heap), p, order, one), r)
    ensures TakenRecord(JsonRuntime(h, p, heap, order, one), r) ==> ConditionOf(order, r.spec.condition).Ok? && Good(r.spec.condition)
  {
    hide ConditionOf, LargeInteger, Large;
    if TakenRecord(JsonRuntime(h, p, heap, order, one), r) {
      InOrderGood(r.spec.condition);
    }
  }

  /** A record that can be stored has a text of its own, which is read back if and only if the record is readable. */
  lemma TextReads(h: Payload.Hash, p: Printer, heap: Heap, order: nat -> int, one: nat, r: Record)
    requires Values.Lawful(p) && Roomy(p, heap) && p.show(one) == [49]
    requires Storable(JsonRuntime(h, p, heap, order, one), r)
    ensures var t := TextOf(JsonRuntime(h, p, heap, order, one), r);
            && Encode(p, RecordJson(one, r)) == Ok(t) && Written(p, t) && 0 !in t && Decode(p, t) == Ok(RecordJson(one, r))
            && Form(p, heap, t) == if Readable(r) then Ok(t) else Err(Limit)
  {
    hide Values.Lawful, Encode, Decode, Good, InOrder, Large, Depth, Form, RecordJson, TakenRecord, Readable, ConditionOf, Roomy, JsonCanon;
    var rt := JsonRuntime(h, p, heap, order, one);
    TakenBase(h, p, heap, order, one, r);
    ConditionDepth(order, r.spec.condition);
    assert Plain(rt, one) by { OneIsPlain(); }
    RecordTaken(rt, one, r);
    FormOfTaken(p, heap, RecordJson(one, r));
  }

  lemma OneIsPlain()
    ensures !LargeInteger([49])
  {
    assert Zeros([49]) == 0;
  }

  lemma TextDecodes(h: Payload.Hash, p: Printer, heap: Heap, order: nat -> int, one: nat, r: Record)
    requires Values.Lawful(p) && Roomy(p, heap) && p.show(one) == [49]
    requires Storable(JsonRuntime(h, p, heap, order, one), r)
    ensures var rt := JsonRuntime(h, p, heap, order, one); rt.decode(TextOf(rt, r)) == Some(r)
  {
    hide Values.Lawful, Encode, Decode, Good, Form, RecordJson, TakenRecord, Readable, ConditionOf, Roomy, JsonCanon;
    var rt := JsonRuntime(h, p, heap, order, one);
    var base := Base(h, JsonCanon(p, heap), p, order, one);
    var t := TextOf(rt, r);
    TextReads(h, p, heap, order, one, r);
    TakenBase(h, p, heap, order, one, r);
    assert Names(base, r, t);
    var other := Decoded(base, t).value;
    TakenBase(h, p, heap, order, one, other);
    assert Storable(rt, other) && TextOf(rt, other) == t;
    TextReads(h, p, heap, order, one, other);
    ContextsOf(rt, r);
    ContextsOf(rt, other);
    RecordInjective(one, r, other);
  }

  lemma ContextsOf(rt: Runtime, r: Record)
    requires TakenRecord(rt, r)
    ensures Contexts(r)
  {
    hide TakenSpec, Plain;
  }

  /** The inbox's hypotheses hold of the JSON it stores, whatever else fits the heap. */
  lemma RecordsLawful(h: Payload.Hash, p: Printer, heap: Heap, order: nat -> int, one: nat)
    requires Values.Lawful(p) && Roomy(p, heap) && p.show(one) == [49]
    ensures Inbox.Lawful(JsonRuntime(h, p, heap, order, one))
  {
    hide Values.Lawful, Form, TakenRecord, Readable, ConditionOf, Roomy, JsonCanon, Snapshots.Faithful, Decoded, Storable, TextOf;
    var rt := JsonRuntime(h, p, heap, order, one);
    JsonFaithful(p, heap) by { RoomForNothing(p, heap); }
    forall r | Storable(rt, r)
      ensures var t := TextOf(rt, r);
              Payload.NulFree(t) && rt.c.written(t) && rt.decode(t) == Some(r) && rt.c.form(t) == if Readable(r) then Ok(t) else Err(Limit)
    {
      TextReads(h, p, heap, order, one, r);
      TextDecodes(h, p, heap, order, one, r);
      CanonOf(p, heap, TextOf(rt, r));
    }
    forall t {:trigger rt.decode(t)} | rt.decode(t).Some? ensures TakenRecord(rt, rt.decode(t).value) {
      TakenBase(h, p, heap, order, one, rt.decode(t).value);
    }
  }

  lemma CanonOf(p: Printer, heap: Heap, t: bytes)
    ensures var c := JsonCanon(p, heap); (c.written(t) <==> Written(p, t)) && c.form(t) == Form(p, heap, t)
  {
    hide Form, Written;
  }

  lemma RoomForNothing(p: Printer, heap: Heap)
    requires Roomy(p, heap)
    ensures heap.document(Object([]))
  {}
}
