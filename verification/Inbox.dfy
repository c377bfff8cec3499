/**
 The durable inbox (`future_messages.rs`): every message lives under one status key and moves
 only forwards, through commits that can fail or crash anywhere.
 */
module Inbox {
  import opened Bytes
  import opened Payload
  import opened Journal
  import opened ReplayTheorems
  import opened Recovery
  import opened RecoveryRuns
  import opened Snapshots
  import opened Durable
  import opened JsonData
  import opened JsonPut
  import Conditions
  import Json
  import Scan

  /** "__future_messages/v1/" */
  const ROOT: bytes := [
    '_' as int, '_' as int, 'f' as int, 'u' as int, 't' as int, 'u' as int, 'r' as int, 'e' as int, '_' as int, 'm' as int, 'e' as int,
    's' as int, 's' as int, 'a' as int, 'g' as int, 'e' as int, 's' as int, '/' as int, 'v' as int, '1' as int, '/' as int]

  const SLASH: bytes := ['/' as int]

  const MAX_PENDING := 1024
  const MAX_RECORD := 128 * 1024

  datatype Status = Pending | Ready | Acknowledged | Cancelled

  function Name(status: Status): bytes {
    match status
    case Pending => ['p' as int, 'e' as int, 'n' as int, 'd' as int, 'i' as int, 'n' as int, 'g' as int]
    case Ready => ['r' as int, 'e' as int, 'a' as int, 'd' as int, 'y' as int]
    case Acknowledged => [
        'a' as int, 'c' as int, 'k' as int, 'n' as int, 'o' as int, 'w' as int,
        'l' as int, 'e' as int, 'd' as int, 'g' as int, 'e' as int, 'd' as int]
    case Cancelled => ['c' as int, 'a' as int, 'n' as int, 'c' as int, 'e' as int, 'l' as int, 'l' as int, 'e' as int, 'd' as int]
  }

  function Prefix(status: Status): bytes { ROOT + (Name(status) + SLASH) }

  function MessageKey(status: Status, id: bytes): bytes { Prefix(status) + id }

  /** What a receipt of a status change records: when, and the revision that committed it. */
  datatype Receipt = Receipt(at: nat, revision: nat, context: Option<bytes>)

  /** What `create` is given besides the id, each part as `snapshot` returns it. */
  datatype Spec = Spec(payload: Json.Json, condition: Json.Json, provenance: Json.Json)

  datatype Record = Record(id: bytes, spec: Spec, status: Status, createdAt: nat, receipts: map<Status, Receipt>)

  /**
   The hash, the value codec, how numbers print and how they compare, what `condition` reads in a value, and the
   record's JSON text with its inverse.
   */
  datatype Runtime = Runtime(
    h: Hash, c: Canon, p: Json.Printer, order: nat -> int, condition: Json.Json -> Result<Conditions.Condition>,
    encode: Record -> Result<bytes>, decode: bytes -> Option<Record>)

  /** A number that is still a number when its text is read. */
  predicate Plain(rt: Runtime, n: nat) { !LargeInteger(rt.p.show(n)) }

  /** A value as `snapshot` returns it: read by `json_parse` from its own encoding. */
  predicate Taken(rt: Runtime, v: Json.Json) { Json.InOrder(v) && Depth(v) <= DATA_DEPTH && !Large(rt.p, v) }

  predicate TakenSpec(rt: Runtime, spec: Spec) {
    Taken(rt, spec.payload) && Taken(rt, spec.condition) && Taken(rt, spec.provenance) && Depth(spec.provenance) <= 1
    && rt.condition(spec.condition).Ok?
  }

  /** Only a release names a context. */
  predicate TakenRecord(rt: Runtime, r: Record) {
    && TakenSpec(rt, r.spec) && Plain(rt, r.createdAt)
    && forall s :: s in r.receipts ==> Plain(rt, r.receipts[s].at) && (s == Ready || r.receipts[s].context.None?)
  }

  /** Why a record cannot be stored, if it cannot: it does not encode, or its text is too long. */
  function TextFault(rt: Runtime, r: Record): Option<Error> {
    var text := rt.encode(r);
    if text.Err? then Some(text.error) else if |text.value| > MAX_RECORD then Some(Limit) else None
  }

  predicate Storable(rt: Runtime, r: Record) { TakenRecord(rt, r) && TextFault(rt, r).None? }

  function TextOf(rt: Runtime, r: Record): bytes {
    var text := rt.encode(r);
    if text.Ok? then text.value else []
  }

  /** A stored record nests its payload one level deeper than it was given. */
  predicate Readable(r: Record) { Depth(r.spec.payload) < DATA_DEPTH }

  /** Records that can be stored have a text, which decodes to them, and is read back if and only if they are readable. */
  ghost predicate Lawful(rt: Runtime) {
    && Faithful(rt.c)
    && (forall r {:trigger rt.encode(r)} :: Storable(rt, r) ==>
          var t := TextOf(rt, r);
          NulFree(t) && rt.c.written(t) && rt.decode(t) == Some(r) && rt.c.form(t) == if Readable(r) then Ok(t) else Err(Limit))
    && (forall t {:trigger rt.decode(t)} :: rt.decode(t).Some? ==> TakenRecord(rt, rt.decode(t).value))
  }

  /** Ids are ASCII letters, digits, `.`, `_` and `-`, at most 128 of them. */
  predicate ValidId(id: bytes) { 0 < |id| <= 128 && forall i :: 0 <= i < |id| ==> IdByte(id[i]) }

  predicate IdByte(b: byte) {
    '0' as int <= b <= '9' as int || 'A' as int <= b <= 'Z' as int || 'a' as int <= b <= 'z' as int
    || b == '.' as int || b == '_' as int || b == '-' as int
  }

  /** Why an id is refused. */
  function IdFault(id: bytes): Error { if 0 < |id| <= 128 then Error.Key else Limit }

  // ----- reading

  const STATUSES: seq<Status> := [Pending, Ready, Acknowledged, Cancelled]

  predicate Held(index: Index, status: Status, id: bytes) { MessageKey(status, id) in index }

  /** `find`: the only status key of `id` whose value is read, or the first error of reading one. */
  function Search(rt: Runtime, index: Index, id: bytes, statuses: seq<Status>, found: Option<Status>): Result<Option<Status>>
    decreases |statuses|
  {
    if statuses == [] then Ok(found) else
    if !Held(index, statuses[0], id) then Search(rt, index, id, statuses[1..], found) else
    var value := rt.c.form(index[MessageKey(statuses[0], id)]);
    if value.Err? then Err(value.error) else
    if found.Some? then Err(Corruption) else Search(rt, index, id, statuses[1..], Some(statuses[0]))
  }

  /** `store_get` and `validate_record`: the record names its own key. */
  function Got(rt: Runtime, index: Index, status: Status, id: bytes): Result<Record> {
    if !Held(index, status, id) then Err(Corruption) else
    var value := rt.c.form(index[MessageKey(status, id)]);
    if value.Err? then Err(value.error) else
    match rt.decode(value.value)
    case None => Err(Corruption)
    case Some(r) => if r.id == id && r.status == status then Ok(r) else Err(Corruption)
  }

  /** The pending messages of `store_scan_page`, at most `limit` of them. */
  function PendingPage(index: Index, limit: nat): seq<bytes> { Scan.Page(Scan.Order(index.Keys), Prefix(Pending), [], limit) }

  /** The first error of decoding a page. */
  function PageFault(rt: Runtime, index: Index, keys: seq<bytes>): Option<Error> {
    if keys == [] then None
    else if keys[0] in index && rt.c.form(index[keys[0]]).Err? then Some(rt.c.form(index[keys[0]]).error)
    else PageFault(rt, index, keys[1..])
  }

  // ----- the batches the inbox writes

  /** A record as `create` first builds it, without the receipt of its creation. */
  function Draft(id: bytes, spec: Spec, now: nat): Record { Record(id, spec, Pending, now, map[]) }

  function Creation(id: bytes, spec: Spec, now: nat, revision: nat): Record {
    Changed(Draft(id, spec, now), Pending, Receipt(now, revision, None))
  }

  /** `changed`: the record under its new status, with the receipt of the change. */
  function Changed(r: Record, status: Status, receipt: Receipt): Record {
    r.(status := status, receipts := r.receipts[status := receipt])
  }

  function PutRecord(rt: Runtime, r: Record): Mutation { Mutation(MessageKey(r.status, r.id), false, TextOf(rt, r)) }

  function Create(rt: Runtime, id: bytes, spec: Spec, now: nat, revision: nat): seq<Mutation> {
    [PutRecord(rt, Creation(id, spec, now, revision))]
  }

  function Move(rt: Runtime, r: Record, to: Status, receipt: Receipt): seq<Mutation> {
    [PutRecord(rt, Changed(r, to, receipt)), Mutation(MessageKey(r.status, r.id), true, [])]
  }

  // ----- the operations

  datatype Write = Write(record: Append, manifest: Publication)

  /** What `create` answers without committing anything, if it does. */
  function CreateAnswer(rt: Runtime, s: System, id: bytes, spec: Spec, now: nat): Option<Result<Record>> {
    if !Clean(s) then Some(Err(InvalidState)) else
    if !ValidId(id) then Some(Err(IdFault(id))) else
    var draft := TextFault(rt, Draft(id, spec, now));
    if draft.Some? then Some(Err(draft.value)) else
    var index := s.memory.value.index;
    var found := Search(rt, index, id, STATUSES, None);
    if found.Err? then Some(Err(found.error)) else
    if found.value.Some? then
      var existing := Got(rt, index, found.value.value, id);
      if existing.Err? then Some(existing) else
      if existing.value.spec == spec then Some(existing) else Some(Err(Conflict))
    else
      var page := PendingPage(index, MAX_PENDING);
      var fault := PageFault(rt, index, page);
      if fault.Some? then Some(Err(fault.value)) else
      if |page| >= MAX_PENDING then Some(Err(Limit)) else
      var text := TextFault(rt, Creation(id, spec, now, s.memory.value.currentRev + 1));
      if text.Some? then Some(Err(text.value)) else None
  }

  function CreateStep(rt: Runtime, s: System, id: bytes, spec: Spec, now: nat, w: Write): (System, Result<Record>) {
    var answer := CreateAnswer(rt, s, id, spec, now);
    if answer.Some? then (s, answer.value) else
    var revision := s.memory.value.currentRev + 1;
    var (n, r) := CommitBatch(rt.h, s, Create(rt, id, spec, now, revision), w.record, w.manifest);
    if r.Err? then (n, Err(r.error)) else (n, Ok(Creation(id, spec, now, revision)))
  }

  predicate Legal(from: Status, to: Status) {
    (from == Pending && (to == Ready || to == Cancelled)) || (from == Ready && (to == Acknowledged || to == Cancelled))
  }

  /** The record that `transition` is to move, or what it answers without committing anything. */
  function TransitionFrom(rt: Runtime, s: System, id: bytes): (r: Result<Record>)
    ensures r.Ok? ==> Clean(s)
  {
    if !Clean(s) then Err(InvalidState) else
    if !ValidId(id) then Err(IdFault(id)) else
    var index := s.memory.value.index;
    var found := Search(rt, index, id, STATUSES, None);
    if found.Err? then Err(found.error) else
    if found.value.None? then Err(NotFound) else Got(rt, index, found.value.value, id)
  }

  /** `transition`, for `acknowledge` and `cancel`. */
  function TransitionStep(rt: Runtime, s: System, id: bytes, target: Status, now: nat, w: Write): (System, Result<Record>)
    requires target == Acknowledged || target == Cancelled
  {
    var existing := TransitionFrom(rt, s, id);
    if existing.Err? then (s, existing) else
    var record := existing.value;
    if record.status == target then (s, existing) else
    if record.status == Acknowledged || record.status == Cancelled
       || (target == Acknowledged && record.status != Ready) then (s, Err(InvalidState)) else
    var receipt := Receipt(now, s.memory.value.currentRev + 1, None);
    var text := TextFault(rt, Changed(record, target, receipt));
    if text.Some? then (s, Err(text.value)) else
    var (n, r) := CommitBatch(rt.h, s, Move(rt, record, target, receipt), w.record, w.manifest);
    if r.Err? then (n, Err(r.error)) else (n, Ok(Changed(record, target, receipt)))
  }

  /** The messages that `check` finds due, in key order, or the first error of its validation pass. */
  function DueRecords(
    rt: Runtime, index: Index, keys: seq<bytes>, context: Option<Conditions.Context>, now: nat)
    : Result<seq<Record>>
  {
    if keys == [] then Ok([]) else
    if |keys[0]| < |Prefix(Pending)| then Err(Corruption) else
    var record := Got(rt, index, Pending, keys[0][|Prefix(Pending)|..]);
    if record.Err? then Err(record.error) else
    var condition := rt.condition(record.value.spec.condition);
    if condition.Err? then Err(condition.error) else
    if Conditions.IllTyped(condition.value, context) then Err(Type) else
    var rest := DueRecords(rt, index, keys[1..], context, now);
    if rest.Err? then rest else
    if Conditions.Due(condition.value, context, rt.order(now)) then Ok([record.value] + rest.value) else rest
  }

  /** The first due record whose released form cannot be stored; the receipts name revisions `first`, `first + 1`, ... */
  function PrepareFault(rt: Runtime, due: seq<Record>, context: Option<bytes>, now: nat, first: nat): Option<Error> {
    if due == [] then None else
    var text := TextFault(rt, Changed(due[0], Ready, Receipt(now, first, context)));
    if text.Some? then text else PrepareFault(rt, due[1..], context, now, first + 1)
  }

  /**
   Release the due records one commit at a time, with receipts for revisions `first`, `first + 1`, ...
   that were prepared before the first commit. A failure closes the handle and stops.
   */
  function Release(
    rt: Runtime, s: System, due: seq<Record>, context: Option<bytes>, now: nat, first: nat, writes: seq<Write>)
    : (System, Result<nat>)
    requires s.memory.Some?
    decreases |due|
  {
    if due == [] then (s, Ok(0)) else
    if writes == [] then (System(s.disk, None), Err(Io)) else
    var receipt := Receipt(now, first, context);
    var (n, r) := CommitBatch(rt.h, s, Move(rt, due[0], Ready, receipt), writes[0].record, writes[0].manifest);
    if r.Err? then (n, r) else Release(rt, n, due[1..], context, now, first + 1, writes[1..])
  }

  /** The messages that `check` is to release, or its error before the first commit. */
  function Prepared(rt: Runtime, s: System, context: Option<Conditions.Context>, now: nat): Result<seq<Record>> {
    if !Clean(s) then Err(InvalidState) else
    var index := s.memory.value.index;
    var pending := PendingPage(index, MAX_PENDING + 1);
    var fault := PageFault(rt, index, pending);
    if fault.Some? then Err(fault.value) else
    if |pending| > MAX_PENDING then Err(Limit) else
    var due := DueRecords(rt, index, pending, context, now);
    if due.Err? then due else
    var text := PrepareFault(rt, due.value, ContextId(context), now, s.memory.value.currentRev + 1);
    if text.Some? then Err(text.value) else due
  }

  function ContextId(context: Option<Conditions.Context>): Option<bytes> { if context.Some? then Some(context.value.id) else None }

  /** `check`. When `writes` runs out before the due records do, the process dies there. */
  function CheckStep(
    rt: Runtime, s: System, context: Option<Conditions.Context>, now: nat, writes: seq<Write>)
    : (System, Result<seq<Record>>)
  {
    var due := Prepared(rt, s, context, now);
    if due.Err? then (s, due) else
    var (n, r) := Release(rt, s, due.value, ContextId(context), now, s.memory.value.currentRev + 1, writes);
    if r.Err? then (n, Err(r.error)) else (n, due)
  }
}
