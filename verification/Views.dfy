/**
 Incremental dataset views (`dataset_source`, `dataset_query`, `dataset_apply` in `host_calls.rs`):
 registered sources, registered queries with a saved result, and batches of row changes that
 refresh every query that reads the changed source.
 */
module Views {
  import opened Bytes
  import opened Payload
  import opened Journal
  import opened ReplayTheorems
  import opened Recovery
  import opened RecoveryRuns
  import opened Durable
  import opened BatchUpdate
  import opened DatasetKeys
  import opened Snapshots
  import Scan

  const MAX_SAFE := 9_007_199_254_740_991
  const MAX_CHANGES := 10_000
  const MAX_PAYLOAD := 64 * 1024 * 1024

  /** A registered query and the revisions its saved result is for and is saved at. */
  datatype Query = Query(
    id: bytes, sources: seq<bytes>, plan: bytes, version: bytes, digest: bytes,
    sourceRevision: nat, snapshotRevision: nat)

  datatype Stored =
    | SourceOf(id: bytes, rows: seq<Entry>)
    | QueryOf(query: Query)
    | SnapshotOf(queryId: bytes, version: bytes, digest: bytes, revision: nat, result: bytes)
    | ReceiptOf(source: bytes, digest: bytes, revision: nat)

  /** A source as a plan reads it. */
  datatype Input = Input(source: bytes, rows: seq<Entry>)

  /**
   The hash, the value codec, the records' canonical JSON text with its inverse, the text of a batch,
   and the evaluation of a program's plan on its inputs.
   */
  datatype Runtime = Runtime(
    h: Hash, c: Canon, encode: Stored -> Result<bytes>, decode: bytes -> Option<Stored>,
    text: seq<Change> -> bytes, run: (bytes, bytes, seq<Input>) -> Result<bytes>)

  ghost predicate Lawful(rt: Runtime) {
    && Faithful(rt.c)
    && (forall r {:trigger rt.encode(r)} :: rt.encode(r).Ok? ==>
          NulFree(rt.encode(r).value) && rt.c.written(rt.encode(r).value) && Read(rt, rt.encode(r).value) == Some(r))
  }

  /** What a stored record is read as: it is decoded as a JSON value first. */
  function Read(rt: Runtime, data: bytes): Option<Stored> {
    var value := rt.c.form(data);
    if value.Ok? then rt.decode(value.value) else None
  }

  /** A process: its store, the queries bound in it, and the linked program it runs, if set. */
  datatype World = World(store: System, bound: map<bytes, Query>, program: Option<bytes>)

  predicate GoodId(id: bytes) { 0 < |id| <= 128 }

  function ToLE(n: nat, width: nat): bytes {
    if width == 0 then [] else [n % 256] + ToLE(n / 256, width - 1)
  }

  /** `dataset_plan_digest`: of the program's bytes and the length-delimited plan name. */
  function PlanDigest(h: Hash, program: bytes, plan: bytes): bytes { Hex(h(program + (ToLE(|plan|, 4) + plan))) }

  // ----- what a store says of datasets

  /** Every key with what its value decodes to. */
  type View = map<bytes, Option<Stored>>

  function Decoded(rt: Runtime, index: Index): View { map k | k in index :: Read(rt, index[k]) }

  predicate Held(view: View, name: Name) { KeyOf(name) in view }

  function At(view: View, name: Name): Option<Stored> { if KeyOf(name) in view then view[KeyOf(name)] else None }

  predicate SoundRows(rows: seq<Entry>) {
    |rows| <= MAX_ROWS && Distinct(rows) && forall i :: 0 <= i < |rows| ==> GoodId(rows[i].id)
  }

  function SourceRows(view: View, id: bytes): Result<seq<Entry>> {
    if !Held(view, SourceName(id)) then Err(NotFound) else
    match At(view, SourceName(id))
    case Some(SourceOf(name, rows)) => if name == id && SoundRows(rows) then Ok(rows) else Err(Corruption)
    case _ => Err(Corruption)
  }

  /** The inputs of a plan, one of them replaced by rows that are not committed yet. */
  function Inputs(view: View, sources: seq<bytes>, replaced: Option<Input>): Result<seq<Input>>
    decreases |sources|
  {
    if sources == [] then Ok([]) else
    var id := sources[0];
    var rows := if replaced.Some? && replaced.value.source == id
                then if SoundRows(replaced.value.rows) then Ok(replaced.value.rows) else Err(Corruption)
                else SourceRows(view, id);
    if rows.Err? then Err(rows.error) else
    var rest := Inputs(view, sources[1..], replaced);
    if rest.Err? then rest else Ok([Input(id, rows.value)] + rest.value)
  }

  predicate GoodQuery(q: Query) {
    && GoodId(q.id) && GoodId(q.plan) && q.version != [] && (forall i :: 0 <= i < |q.sources| ==> GoodId(q.sources[i]))
  }

  /** The saved result of a query's record, if it is the one the record names. */
  predicate Saved(view: View, q: Query) {
    var saved := At(view, SnapshotName(q.id, q.snapshotRevision));
    saved.Some? && saved.value.SnapshotOf? && saved.value.queryId == q.id && saved.value.version == q.version
    && saved.value.digest == q.digest && saved.value.revision == q.sourceRevision
  }

  /** `load_dataset_query_record`. */
  function LoadQuery(view: View, key: bytes, current: nat): Result<Query> {
    if key !in view || view[key].None? || !view[key].value.QueryOf? then Err(Corruption) else
    var q := view[key].value.query;
    if key == KeyOf(QueryName(q.id)) && GoodQuery(q) && q.sourceRevision <= q.snapshotRevision <= current && Saved(view, q)
    then Ok(q) else Err(Corruption)
  }

  // ----- what the operations decide

  datatype Item = Item(name: Name, stored: Stored)

  /** An operation answers at once, or commits items; `bound` is what is bound when that succeeds. */
  datatype Decision =
    | Answer(result: Result<nat>, bound: map<bytes, Query>)
    | Write(items: seq<Item>, bound: map<bytes, Query>)

  function SourceDecision(w: World, view: View, id: bytes): Decision {
    if !GoodId(id) then Answer(Err(InvalidParameters), w.bound) else
    if !Clean(w.store) then Answer(Err(InvalidState), w.bound) else
    if Held(view, SourceName(id)) then
      var saved := At(view, SourceName(id));
      if saved.Some? && saved.value.SourceOf? && saved.value.id == id
      then Answer(Ok(w.store.memory.value.currentRev), w.bound)
      else Answer(Err(Corruption), w.bound)
    else Write([Item(SourceName(id), SourceOf(id, []))], w.bound)
  }

  datatype Registration = Registration(id: bytes, sources: seq<bytes>, plan: bytes, version: bytes)

  function QueryItems(q: Query, result: bytes): seq<Item> {
    [Item(QueryName(q.id), QueryOf(q)),
     Item(SnapshotName(q.id, q.snapshotRevision), SnapshotOf(q.id, q.version, q.digest, q.sourceRevision, result))]
  }

  function QueryDecision(rt: Runtime, w: World, view: View, r: Registration): Decision {
    if !GoodQuery(Query(r.id, r.sources, r.plan, r.version, [], 0, 0)) then Answer(Err(InvalidParameters), w.bound) else
    if w.program.None? || !Clean(w.store) then Answer(Err(InvalidState), w.bound) else
    var digest := PlanDigest(rt.h, w.program.value, r.plan);
    var current := w.store.memory.value.currentRev;
    var held := Held(view, QueryName(r.id));
    var saved := LoadQuery(view, KeyOf(QueryName(r.id)), current);
    if held && saved.Err? then Answer(Err(saved.error), w.bound) else
    if held && saved.value.version == r.version then
      if saved.value.sources != r.sources || saved.value.plan != r.plan || saved.value.digest != digest
      then Answer(Err(Conflict), w.bound)
      else Answer(Ok(current), w.bound[r.id := saved.value])
    else
    if current + 1 >= U64 then Answer(Err(Limit), w.bound) else
    var inputs := Inputs(view, r.sources, None);
    if inputs.Err? then Answer(Err(inputs.error), w.bound) else
    var result := rt.run(w.program.value, r.plan, inputs.value);
    if result.Err? then Answer(Err(result.error), w.bound) else
    var q := Query(r.id, r.sources, r.plan, r.version, digest, current, current + 1);
    Write(QueryItems(q, result.value), w.bound[r.id := q])
  }

  datatype Batched = Batched(source: bytes, expected: nat, id: bytes, changes: seq<Change>)

  predicate GoodBatch(b: Batched) {
    && GoodId(b.source) && GoodId(b.id) && b.expected <= MAX_SAFE && 0 < |b.changes| <= MAX_CHANGES
    && (forall i :: 0 <= i < |b.changes| ==> GoodId(b.changes[i].id)) && DistinctChanges(b.changes)
  }

  function BatchDigest(rt: Runtime, b: Batched): bytes { Hex(rt.h(rt.text(b.changes))) }

  /** A dependent query as it was loaded, and its result on the changed source. */
  datatype Refreshed = Refreshed(query: Query, result: bytes)

  function RefreshOne(rt: Runtime, w: World, view: View, q: Query, changed: Input): Result<Refreshed> {
    if w.program.None? || q.id !in w.bound || w.bound[q.id] != q || PlanDigest(rt.h, w.program.value, q.plan) != q.digest
    then Err(Conflict) else
    var inputs := Inputs(view, q.sources, Some(changed));
    if inputs.Err? then Err(inputs.error) else
    var result := rt.run(w.program.value, q.plan, inputs.value);
    if result.Err? then Err(result.error) else Ok(Refreshed(q, result.value))
  }

  /** Every registered query that reads the changed source, evaluated on it. */
  function Refresh(rt: Runtime, w: World, view: View, keys: seq<bytes>, changed: Input, current: nat): Result<seq<Refreshed>>
    decreases |keys|
  {
    if keys == [] then Ok([]) else
    var q := LoadQuery(view, keys[0], current);
    if q.Err? then Err(q.error) else
    if changed.source !in q.value.sources then Refresh(rt, w, view, keys[1..], changed, current) else
    var one := RefreshOne(rt, w, view, q.value, changed);
    if one.Err? then Err(one.error) else
    var rest := Refresh(rt, w, view, keys[1..], changed, current);
    if rest.Err? then rest else Ok([one.value] + rest.value)
  }

  /** The query's record with its result at `revision`. */
  function Updated(r: Refreshed, revision: nat): Query {
    r.query.(sourceRevision := revision, snapshotRevision := revision)
  }

  function RefreshedItems(rs: seq<Refreshed>, revision: nat): seq<Item> {
    if rs == [] then [] else QueryItems(Updated(rs[0], revision), rs[0].result) + RefreshedItems(rs[1..], revision)
  }

  function Rebind(bound: map<bytes, Query>, rs: seq<Refreshed>, revision: nat): map<bytes, Query>
    decreases |rs|
  {
    if rs == [] then bound else Rebind(bound[rs[0].query.id := Updated(rs[0], revision)], rs[1..], revision)
  }

  function QueryKeysOf(view: View): seq<bytes> { Scan.Matching(Scan.Order(view.Keys), QUERIES, []) }

  function ApplyItems(rt: Runtime, b: Batched, rows: seq<Entry>, rs: seq<Refreshed>, revision: nat): seq<Item> {
    [Item(SourceName(b.source), SourceOf(b.source, rows))] + RefreshedItems(rs, revision)
    + [Item(BatchName(b.source, b.id), ReceiptOf(b.source, BatchDigest(rt, b), revision))]
  }

  /** What a batch that was applied before answers. */
  function Repeated(rt: Runtime, view: View, b: Batched): Result<nat> {
    var saved := At(view, BatchName(b.source, b.id));
    if saved.None? || !saved.value.ReceiptOf? || saved.value.source != b.source then Err(Corruption) else
    if saved.value.digest != BatchDigest(rt, b) then Err(Conflict) else
    if saved.value.revision > MAX_SAFE then Err(Corruption) else Ok(saved.value.revision)
  }

  function ApplyDecision(rt: Runtime, w: World, view: View, b: Batched): Decision {
    if !GoodBatch(b) then Answer(Err(InvalidParameters), w.bound) else
    if |rt.text(b.changes)| > MAX_PAYLOAD then Answer(Err(Limit), w.bound) else
    if !Clean(w.store) then Answer(Err(InvalidState), w.bound) else
    if Held(view, BatchName(b.source, b.id)) then Answer(Repeated(rt, view, b), w.bound) else
    if !Held(view, SourceName(b.source)) then Answer(Err(NotFound), w.bound) else
    var current := w.store.memory.value.currentRev;
    if current != b.expected then Answer(Err(Conflict), w.bound) else
    if current >= MAX_SAFE then Answer(Err(Limit), w.bound) else
    var rows := SourceRows(view, b.source);
    if rows.Err? then Answer(Err(rows.error), w.bound) else
    var changed := RowsAfter(rows.value, b.changes);
    if changed.Err? then Answer(Err(changed.error), w.bound) else
    var refreshed := Refresh(rt, w, view, QueryKeysOf(view), Input(b.source, changed.value), current);
    if refreshed.Err? then Answer(Err(refreshed.error), w.bound) else
    Write(ApplyItems(rt, b, changed.value, refreshed.value, current + 1), Rebind(w.bound, refreshed.value, current + 1))
  }

  // ----- carrying a decision out

  /** The first error of encoding the records that are to be put. */
  function PutFault(rt: Runtime, items: seq<Item>): Option<Error> {
    if items == [] then None else
    var text := rt.encode(items[0].stored);
    if text.Err? then Some(text.error) else PutFault(rt, items[1..])
  }

  function Puts(rt: Runtime, items: seq<Item>): seq<Mutation>
    requires PutFault(rt, items).None?
  {
    if items == [] then []
    else [Mutation(KeyOf(items[0].name), false, rt.encode(items[0].stored).value)] + Puts(rt, items[1..])
  }

  datatype Outcome = Outcome(record: Append, manifest: Publication)

  predicate Commits(rt: Runtime, w: World, d: Decision) { d.Write? && w.store.memory.Some? && PutFault(rt, d.items).None? }

  function Carry(rt: Runtime, w: World, d: Decision, o: Outcome): (World, Result<nat>) {
    if d.Answer? then (w.(bound := d.bound), d.result) else
    if w.store.memory.None? then (w, Err(InvalidState)) else
    var fault := PutFault(rt, d.items);
    if fault.Some? then (w, Err(fault.value)) else
    var (s, r) := CommitBatch(rt.h, w.store, Puts(rt, d.items), o.record, o.manifest);
    if r.Err? then (w.(store := s), r) else (w.(store := s, bound := d.bound), r)
  }

  function CarryHistory(rt: Runtime, w: World, hist: History, d: Decision, o: Outcome): History {
    if !Commits(rt, w, d) then hist else BatchHistory(rt.h, rt.c, w.store, hist, Puts(rt, d.items), o.record, o.manifest)
  }

  function ViewOf(rt: Runtime, s: System): View {
    if s.memory.Some? then Decoded(rt, s.memory.value.index) else map[]
  }

  datatype Event =
    | SourceEvent(id: bytes, outcome: Outcome)
    | QueryEvent(registration: Registration, outcome: Outcome)
    | ApplyEvent(batch: Batched, outcome: Outcome)
    | Restart(program: Option<bytes>)
    | Other(op: Op)

  predicate Dataset(e: Event) { e.SourceEvent? || e.QueryEvent? || e.ApplyEvent? }

  function Decide(rt: Runtime, w: World, e: Event): Decision
    requires Dataset(e)
  {
    var view := ViewOf(rt, w.store);
    match e
    case SourceEvent(id, _) => SourceDecision(w, view, id)
    case QueryEvent(r, _) => QueryDecision(rt, w, view, r)
    case ApplyEvent(b, _) => ApplyDecision(rt, w, view, b)
  }

  /** One event: a dataset operation, a new process with its program, or another use of the store. */
  function Step(rt: Runtime, w: World, e: Event): (World, Result<nat>) {
    match e
    case Restart(program) => (World(System(w.store.disk, None), map[], program), Ok(0))
    case Other(op) => var (s, r) := Next(rt.h, rt.c, w.store, op); (w.(store := s), r)
    case _ => Carry(rt, w, Decide(rt, w, e), e.outcome)
  }

  function StepHistory(rt: Runtime, w: World, hist: History, e: Event): History {
    match e
    case Restart(_) => hist
    case Other(op) => NextHistory(rt.h, rt.c, w.store, hist, op)
    case _ => CarryHistory(rt, w, hist, Decide(rt, w, e), e.outcome)
  }

  function Run(rt: Runtime, w: World, events: seq<Event>): World
    decreases |events|
  {
    if events == [] then w else Run(rt, Step(rt, w, events[0]).0, events[1..])
  }

  function RunHistory(rt: Runtime, w: World, hist: History, events: seq<Event>): History
    decreases |events|
  {
    if events == [] then hist
    else RunHistory(rt, Step(rt, w, events[0]).0, StepHistory(rt, w, hist, events[0]), events[1..])
  }

  /** Nothing else writes the dataset keys; otherwise other users do what they like. */
  predicate Fair(rt: Runtime, e: Event) { e.Other? ==> Typed(rt.c, e.op) && ForeignOp(e.op, ROOT) }

  predicate AllFair(rt: Runtime, events: seq<Event>) { forall i :: 0 <= i < |events| ==> Fair(rt, events[i]) }
}
