/** What the contents of a store say of its sources and queries, and what one commit does to that. */
module ViewLog {
  import opened Bytes
  import opened Payload
  import opened Journal
  import opened ReplayTheorems
  import opened Recovery
  import opened Durable
  import opened BatchUpdate
  import opened DatasetKeys
  import opened Views
  import Scan

  // ----- puts on decoded contents

  function Written(view: View, items: seq<Item>): View
    decreases |items|
  {
    if items == [] then view else Written(view[KeyOf(items[0].name) := Some(items[0].stored)], items[1..])
  }

  lemma {:induction false} DecodedWritten(rt: Runtime, index: Index, items: seq<Item>)
    requires Lawful(rt) && PutFault(rt, items).None?
    ensures Decoded(rt, Apply(index, Puts(rt, items))) == Written(Decoded(rt, index), items)
    decreases |items|
  {
    hide KeyOf;
    if items != [] {
      var ms := Puts(rt, items);
      var next := ApplyOne(index, ms[0]);
      assert ms[1..] == Puts(rt, items[1..]);
      assert Decoded(rt, next) == Decoded(rt, index)[KeyOf(items[0].name) := Some(items[0].stored)];
      DecodedWritten(rt, next, items[1..]);
    }
  }

  /** The last item with a name. */
  function Lookup(items: seq<Item>, name: Name): Option<Stored> {
    if items == [] then None else
    var rest := Lookup(items[1..], name);
    if rest.Some? then rest else if items[0].name == name then Some(items[0].stored) else None
  }

  lemma {:induction false} WrittenAt(view: View, items: seq<Item>, name: Name)
    ensures var put := Lookup(items, name);
            && At(Written(view, items), name) == (if put.Some? then put else At(view, name))
            && Held(Written(view, items), name) == (put.Some? || Held(view, name))
    decreases |items|
  {
    hide KeyOf;
    if items != [] {
      Keys();
      WrittenAt(view[KeyOf(items[0].name) := Some(items[0].stored)], items[1..], name);
    }
  }

  lemma {:induction false} LookupAppend(a: seq<Item>, b: seq<Item>, name: Name)
    ensures Lookup(a + b, name) == if Lookup(b, name).Some? then Lookup(b, name) else Lookup(a, name)
    decreases |a|
  {
    if a == [] {
      assert a + b == b;
    } else {
      assert (a + b)[1..] == a[1..] + b;
      LookupAppend(a[1..], b, name);
    }
  }

  /** The last refreshed record of a query. */
  function Last(rs: seq<Refreshed>, id: bytes): Option<Refreshed> {
    if rs == [] then None else
    var rest := Last(rs[1..], id);
    if rest.Some? then rest else if rs[0].query.id == id then Some(rs[0]) else None
  }

  function SnapshotItem(q: Query, result: bytes): Stored {
    SnapshotOf(q.id, q.version, q.digest, q.sourceRevision, result)
  }

  lemma LookupQuery(q: Query, result: bytes, name: Name)
    ensures Lookup(QueryItems(q, result), name)
         == (if name == QueryName(q.id) then Some(QueryOf(q))
             else if name == SnapshotName(q.id, q.snapshotRevision) then Some(SnapshotItem(q, result))
             else None)
  {
    var items := QueryItems(q, result);
    assert items[1..] == [items[1]] && items[1..][1..] == [];
    assert Lookup([items[1]], name) == if items[1].name == name then Some(items[1].stored) else None;
  }

  lemma {:induction false} LookupRefreshed(rs: seq<Refreshed>, revision: nat, name: Name)
    ensures Lookup(RefreshedItems(rs, revision), name)
         == (if name.QueryName? && Last(rs, name.id).Some? then Some(QueryOf(Updated(Last(rs, name.id).value, revision)))
             else if name.SnapshotName? && name.revision == revision && Last(rs, name.id).Some?
             then Some(SnapshotItem(Updated(Last(rs, name.id).value, revision), Last(rs, name.id).value.result))
             else None)
    decreases |rs|
  {
    hide QueryItems;
    if rs != [] {
      LookupRefreshed(rs[1..], revision, name);
      LookupQuery(Updated(rs[0], revision), rs[0].result, name);
      LookupAppend(QueryItems(Updated(rs[0], revision), rs[0].result), RefreshedItems(rs[1..], revision), name);
    }
  }

  // ----- what is always true of the contents

  /** Some program with this digest gives this result on these inputs. */
  ghost predicate Evaluated(rt: Runtime, q: Query, inputs: seq<Input>, result: bytes) {
    exists program {:trigger PlanDigest(rt.h, program, q.plan)} ::
      PlanDigest(rt.h, program, q.plan) == q.digest && rt.run(program, q.plan, inputs) == Ok(result)
  }

  ghost predicate SourceOk(view: View, id: bytes) { SourceRows(view, id).Ok? }

  /** The record of a query loads, and its saved result is what its plan gives on the sources as they are now. */
  ghost predicate QueryOk(rt: Runtime, view: View, current: nat, id: bytes) {
    var q := LoadQuery(view, KeyOf(QueryName(id)), current);
    && q.Ok?
    && Inputs(view, q.value.sources, None).Ok?
    && Evaluated(rt, q.value, Inputs(view, q.value.sources, None).value, SavedResult(view, q.value))
  }

  /** The saved result of a query, wherever its record says it is. */
  function SavedResult(view: View, q: Query): bytes {
    var saved := At(view, SnapshotName(q.id, q.snapshotRevision));
    if saved.Some? && saved.value.SnapshotOf? then saved.value.result else []
  }

  ghost predicate Consistent(rt: Runtime, view: View, current: nat) {
    && (forall id :: Held(view, SourceName(id)) ==> SourceOk(view, id))
    && (forall id :: Held(view, QueryName(id)) ==> QueryOk(rt, view, current, id))
  }

  // ----- views that agree where it matters

  ghost predicate SameAt(a: View, b: View, name: Name) { Held(a, name) == Held(b, name) && At(a, name) == At(b, name) }

  lemma {:induction false} InputsSame(a: View, b: View, sources: seq<bytes>, replaced: Option<Input>)
    requires forall i :: 0 <= i < |sources| ==> SameAt(a, b, SourceName(sources[i]))
    ensures Inputs(a, sources, replaced) == Inputs(b, sources, replaced)
    decreases |sources|
  {
    hide KeyOf, SoundRows, Held, At;
    if sources != [] {
      assert SameAt(a, b, SourceName(sources[0]));
      assert forall i :: 0 <= i < |sources[1..]| ==> sources[1..][i] == sources[i + 1];
      InputsSame(a, b, sources[1..], replaced);
    }
  }

  /** Reading a source as it now is, or as the replacement says it will be, is the same once it is written. */
  lemma {:induction false} InputsReplaced(a: View, b: View, sources: seq<bytes>, changed: Input)
    requires Held(b, SourceName(changed.source))
    requires At(b, SourceName(changed.source)) == Some(SourceOf(changed.source, changed.rows))
    requires forall i :: 0 <= i < |sources| && sources[i] != changed.source ==> SameAt(a, b, SourceName(sources[i]))
    ensures Inputs(a, sources, Some(changed)) == Inputs(b, sources, None)
    decreases |sources|
  {
    hide KeyOf, SoundRows, Held, At;
    if sources != [] {
      assert sources[0] != changed.source ==> SameAt(a, b, SourceName(sources[0]));
      assert forall i :: 0 <= i < |sources[1..]| ==> sources[1..][i] == sources[i + 1];
      InputsReplaced(a, b, sources[1..], changed);
    }
  }

  lemma {:induction false} InputsHeld(view: View, sources: seq<bytes>, id: bytes)
    requires Inputs(view, sources, None).Ok? && id in sources
    ensures Held(view, SourceName(id))
    decreases |sources|
  {
    hide KeyOf, SoundRows, Held, At;
    if id != sources[0] {
      InputsHeld(view, sources[1..], id);
    }
  }

  lemma LoadSame(a: View, b: View, current: nat, later: nat, id: bytes)
    requires current <= later && LoadQuery(a, KeyOf(QueryName(id)), current).Ok?
    requires var q := LoadQuery(a, KeyOf(QueryName(id)), current).value;
             SameAt(a, b, QueryName(id)) && SameAt(a, b, SnapshotName(q.id, q.snapshotRevision))
    ensures LoadQuery(b, KeyOf(QueryName(id)), later) == LoadQuery(a, KeyOf(QueryName(id)), current)
    ensures SavedResult(b, LoadQuery(a, KeyOf(QueryName(id)), current).value)
         == SavedResult(a, LoadQuery(a, KeyOf(QueryName(id)), current).value)
  {
    hide KeyOf;
  }

  /** A query whose record, result and sources are untouched stays consistent. */
  lemma QueryKept(rt: Runtime, a: View, b: View, current: nat, later: nat, id: bytes)
    requires current <= later && QueryOk(rt, a, current, id)
    requires var q := LoadQuery(a, KeyOf(QueryName(id)), current).value;
             && SameAt(a, b, QueryName(id)) && SameAt(a, b, SnapshotName(q.id, q.snapshotRevision))
             && forall i :: 0 <= i < |q.sources| ==> SameAt(a, b, SourceName(q.sources[i]))
    ensures QueryOk(rt, b, later, id)
  {
    hide KeyOf, LoadQuery, Inputs, Evaluated, Held, At, SavedResult;
    var q := LoadQuery(a, KeyOf(QueryName(id)), current).value;
    LoadSame(a, b, current, later, id);
    InputsSame(a, b, q.sources, None);
  }

  lemma LoadedId(view: View, current: nat, id: bytes)
    requires LoadQuery(view, KeyOf(QueryName(id)), current).Ok?
    ensures var q := LoadQuery(view, KeyOf(QueryName(id)), current).value;
            && q.id == id && GoodQuery(q) && q.snapshotRevision <= current && q.sourceRevision <= q.snapshotRevision
            && Held(view, QueryName(id)) && At(view, QueryName(id)) == Some(QueryOf(q))
  {
    Keys();
    hide KeyOf;
  }

  /** Writing elsewhere keeps everything. */
  lemma SameKeeps(rt: Runtime, a: View, b: View, current: nat, later: nat)
    requires Consistent(rt, a, current) && current <= later && forall name :: SameAt(a, b, name)
    ensures Consistent(rt, b, later)
  {
    hide KeyOf, LoadQuery, Inputs, Evaluated, Held, At, SavedResult, QueryOk, SoundRows;
    forall id | Held(b, SourceName(id)) ensures SourceOk(b, id) {
      assert SameAt(a, b, SourceName(id)) && SourceOk(a, id);
    }
    forall id | Held(b, QueryName(id)) ensures QueryOk(rt, b, later, id) {
      assert SameAt(a, b, QueryName(id));
      Untouched(rt, a, b, current, later, id);
    }
  }

  lemma Untouched(rt: Runtime, a: View, b: View, current: nat, later: nat, id: bytes)
    requires QueryOk(rt, a, current, id) && current <= later && forall name :: SameAt(a, b, name)
    ensures QueryOk(rt, b, later, id)
  {
    hide KeyOf, LoadQuery, Inputs, Evaluated, Held, At, SavedResult, SameAt;
    QueryKept(rt, a, b, current, later, id);
  }

  // ----- registering a source

  lemma SourceEffect(rt: Runtime, view: View, current: nat, id: bytes)
    requires Consistent(rt, view, current) && !Held(view, SourceName(id)) && GoodId(id)
    ensures Consistent(rt, Written(view, [Item(SourceName(id), SourceOf(id, []))]), current + 1)
  {
    hide KeyOf, LoadQuery, Inputs, Evaluated, Held, At, SavedResult, QueryOk, Written;
    var items := [Item(SourceName(id), SourceOf(id, []))];
    var after := Written(view, items);
    forall name ensures name == SourceName(id) || SameAt(view, after, name) {
      WrittenAt(view, items, name);
    }
    WrittenAt(view, items, SourceName(id));
    forall other | Held(after, SourceName(other)) ensures SourceOk(after, other) {
      if other != id {
        assert SameAt(view, after, SourceName(other)) && SourceOk(view, other);
      }
    }
    forall query | Held(after, QueryName(query)) ensures QueryOk(rt, after, current + 1, query) {
      assert SameAt(view, after, QueryName(query));
      NewSource(rt, view, after, current, id, query);
    }
  }

  lemma NewSource(rt: Runtime, view: View, after: View, current: nat, id: bytes, query: bytes)
    requires QueryOk(rt, view, current, query) && !Held(view, SourceName(id))
    requires forall name :: name == SourceName(id) || SameAt(view, after, name)
    ensures QueryOk(rt, after, current + 1, query)
  {
    hide KeyOf, LoadQuery, Inputs, Evaluated, Held, At, SavedResult, SameAt;
    var q := LoadQuery(view, KeyOf(QueryName(query)), current).value;
    forall i | 0 <= i < |q.sources| ensures SameAt(view, after, SourceName(q.sources[i])) {
      InputsHeld(view, q.sources, q.sources[i]);
    }
    QueryKept(rt, view, after, current, current + 1, query);
  }

  // ----- registering a query, or registering it again for another version

  lemma QueryEffect(rt: Runtime, view: View, current: nat, program: bytes, q: Query, inputs: seq<Input>, result: bytes)
    requires Consistent(rt, view, current) && GoodQuery(q)
    requires q.sourceRevision == current && q.snapshotRevision == current + 1
    requires PlanDigest(rt.h, program, q.plan) == q.digest
    requires Inputs(view, q.sources, None) == Ok(inputs) && rt.run(program, q.plan, inputs) == Ok(result)
    ensures Consistent(rt, Written(view, QueryItems(q, result)), current + 1)
  {
    hide KeyOf, LoadQuery, Inputs, Held, At, SavedResult, QueryOk, Written, QueryItems, GoodQuery;
    var items := QueryItems(q, result);
    var after := Written(view, items);
    forall name
      ensures name == QueryName(q.id) || name == SnapshotName(q.id, q.snapshotRevision) || SameAt(view, after, name)
    {
      WrittenAt(view, items, name);
      LookupQuery(q, result, name);
    }
    forall other | Held(after, SourceName(other)) ensures SourceOk(after, other) {
      assert SameAt(view, after, SourceName(other)) && SourceOk(view, other);
    }
    forall other | Held(after, QueryName(other)) ensures QueryOk(rt, after, current + 1, other) {
      if other != q.id {
        assert SameAt(view, after, QueryName(other)) && QueryOk(rt, view, current, other);
        OtherQuery(rt, view, after, current, q, other);
      } else {
        WrittenAt(view, items, QueryName(q.id));
        LookupQuery(q, result, QueryName(q.id));
        WrittenAt(view, items, SnapshotName(q.id, q.snapshotRevision));
        LookupQuery(q, result, SnapshotName(q.id, q.snapshotRevision));
        InputsSame(view, after, q.sources, None);
        Registered(rt, after, current + 1, q, inputs, result, program);
      }
    }
  }

  lemma OtherQuery(rt: Runtime, view: View, after: View, current: nat, q: Query, other: bytes)
    requires QueryOk(rt, view, current, other) && other != q.id
    requires forall name :: name == QueryName(q.id) || name == SnapshotName(q.id, q.snapshotRevision) || SameAt(view, after, name)
    ensures QueryOk(rt, after, current + 1, other)
  {
    hide KeyOf, LoadQuery, Inputs, Evaluated, Held, At, SavedResult, SameAt;
    LoadedId(view, current, other);
    QueryKept(rt, view, after, current, current + 1, other);
  }

  /** A record just written with its result is consistent. */
  lemma Registered(rt: Runtime, view: View, current: nat, q: Query, inputs: seq<Input>, result: bytes, program: bytes)
    requires GoodQuery(q) && q.sourceRevision <= q.snapshotRevision <= current
    requires Held(view, QueryName(q.id)) && At(view, QueryName(q.id)) == Some(QueryOf(q))
    requires At(view, SnapshotName(q.id, q.snapshotRevision)) == Some(SnapshotItem(q, result))
    requires PlanDigest(rt.h, program, q.plan) == q.digest
    requires Inputs(view, q.sources, None) == Ok(inputs) && rt.run(program, q.plan, inputs) == Ok(result)
    ensures LoadQuery(view, KeyOf(QueryName(q.id)), current) == Ok(q) && SavedResult(view, q) == result
    ensures QueryOk(rt, view, current, q.id)
  {
    hide KeyOf, Inputs, GoodQuery, PlanDigest;
    assert Evaluated(rt, q, inputs, result);
  }

  // ----- applying a batch

  /** A query that `dataset_apply` evaluated again: it was bound, unchanged, to the running program. */
  ghost predicate Reran(rt: Runtime, w: World, view: View, changed: Input, current: nat, r: Refreshed) {
    && LoadQuery(view, KeyOf(QueryName(r.query.id)), current) == Ok(r.query)
    && changed.source in r.query.sources
    && RefreshOne(rt, w, view, r.query, changed) == Ok(r)
  }

  /** Every scanned query was loaded; those that read the source, and only those, were evaluated again. */
  lemma {:induction false} RefreshAll(
    rt: Runtime, w: World, view: View, keys: seq<bytes>, changed: Input, current: nat, id: bytes)
    requires Refresh(rt, w, view, keys, changed, current).Ok?
    ensures var rs := Refresh(rt, w, view, keys, changed, current).value;
            && (Last(rs, id).Some? ==> Last(rs, id).value.query.id == id && Reran(rt, w, view, changed, current, Last(rs, id).value))
            && (KeyOf(QueryName(id)) in keys ==>
                  var q := LoadQuery(view, KeyOf(QueryName(id)), current);
                  q.Ok? && (changed.source in q.value.sources ==> Last(rs, id).Some?))
    decreases |keys|
  {
    hide KeyOf, RefreshOne, Saved, GoodQuery;
    if keys != [] {
      RefreshAll(rt, w, view, keys[1..], changed, current, id);
      var q := LoadQuery(view, keys[0], current).value;
      if KeyOf(QueryName(id)) == keys[0] {
        LoadedId(view, current, id);
      }
      if changed.source in q.sources {
        RefreshedQuery(rt, w, view, q, changed);
      }
    }
  }

  lemma RefreshedQuery(rt: Runtime, w: World, view: View, q: Query, changed: Input)
    requires RefreshOne(rt, w, view, q, changed).Ok?
    ensures RefreshOne(rt, w, view, q, changed).value.query == q
  {
    hide PlanDigest, Inputs;
  }

  lemma Scanned(view: View, id: bytes)
    requires Held(view, QueryName(id))
    ensures KeyOf(QueryName(id)) in QueryKeysOf(view)
  {
    hide KeyOf, QUERIES;
    var order := Scan.Order(view.Keys);
    Scan.OrderAscending(view.Keys);
    Scan.MatchingProperties(order, QUERIES, []);
    QueryKeys(id);
    KeyWritable(QueryName(id));
  }

  /** What a committed batch leaves at every name. */
  lemma AppliedAt(rt: Runtime, view: View, b: Batched, rows: seq<Entry>, rs: seq<Refreshed>, revision: nat, name: Name)
    ensures var after := Written(view, ApplyItems(rt, b, rows, rs, revision));
            var put := (
              if name == SourceName(b.source) then Some(SourceOf(b.source, rows))
              else if name == BatchName(b.source, b.id) then Some(ReceiptOf(b.source, BatchDigest(rt, b), revision))
              else Lookup(RefreshedItems(rs, revision), name));
            && At(after, name) == (if put.Some? then put else At(view, name))
            && Held(after, name) == (put.Some? || Held(view, name))
  {
    hide KeyOf, Held, At, Written, BatchDigest, RefreshedItems;
    var source := [Item(SourceName(b.source), SourceOf(b.source, rows))];
    var receipt := [Item(BatchName(b.source, b.id), ReceiptOf(b.source, BatchDigest(rt, b), revision))];
    var refreshed := RefreshedItems(rs, revision);
    WrittenAt(view, ApplyItems(rt, b, rows, rs, revision), name);
    LookupAppend(source + refreshed, receipt, name);
    LookupAppend(source, refreshed, name);
    assert Lookup(source, name) == if name == SourceName(b.source) then Some(SourceOf(b.source, rows)) else None;
    LookupRefreshed(rs, revision, name);
  }

  lemma ApplyEffect(
    rt: Runtime, w: World, view: View, b: Batched, rows: seq<Entry>, rs: seq<Refreshed>, current: nat)
    requires Consistent(rt, view, current) && SoundRows(rows)
    requires Refresh(rt, w, view, QueryKeysOf(view), Input(b.source, rows), current) == Ok(rs)
    ensures Consistent(rt, Written(view, ApplyItems(rt, b, rows, rs, current + 1)), current + 1)
  {
    hide KeyOf, LoadQuery, Inputs, Evaluated, Held, At, SavedResult, QueryOk, Written, ApplyItems, Refresh, QueryKeysOf, SoundRows, RefreshedItems;
    var after := Written(view, ApplyItems(rt, b, rows, rs, current + 1));
    forall id | Held(after, SourceName(id)) ensures SourceOk(after, id) {
      AppliedAt(rt, view, b, rows, rs, current + 1, SourceName(id));
      LookupRefreshed(rs, current + 1, SourceName(id));
      if id != b.source {
        assert SourceOk(view, id);
      }
    }
    forall id | Held(after, QueryName(id)) ensures QueryOk(rt, after, current + 1, id) {
      AppliedQuery(rt, w, view, b, rows, rs, current, id);
    }
  }

  lemma AppliedQuery(
    rt: Runtime, w: World, view: View, b: Batched, rows: seq<Entry>, rs: seq<Refreshed>, current: nat, id: bytes)
    requires Consistent(rt, view, current) && SoundRows(rows)
    requires Refresh(rt, w, view, QueryKeysOf(view), Input(b.source, rows), current) == Ok(rs)
    requires Held(Written(view, ApplyItems(rt, b, rows, rs, current + 1)), QueryName(id))
    ensures QueryOk(rt, Written(view, ApplyItems(rt, b, rows, rs, current + 1)), current + 1, id)
  {
    hide KeyOf, LoadQuery, Inputs, Evaluated, Held, At, SavedResult, QueryOk, Written, ApplyItems, Refresh, QueryKeysOf, SoundRows,
         RefreshedItems, Reran;
    var changed := Input(b.source, rows);
    var after := Written(view, ApplyItems(rt, b, rows, rs, current + 1));
    RefreshAll(rt, w, view, QueryKeysOf(view), changed, current, id);
    AppliedAt(rt, view, b, rows, rs, current + 1, QueryName(id));
    LookupRefreshed(rs, current + 1, QueryName(id));
    forall source | source != b.source ensures SameAt(view, after, SourceName(source)) {
      AppliedAt(rt, view, b, rows, rs, current + 1, SourceName(source));
      LookupRefreshed(rs, current + 1, SourceName(source));
    }
    if Last(rs, id).Some? {
      AppliedAt(rt, view, b, rows, rs, current + 1, SnapshotName(id, current + 1));
      LookupRefreshed(rs, current + 1, SnapshotName(id, current + 1));
      AppliedAt(rt, view, b, rows, rs, current + 1, SourceName(b.source));
      RerunConsistent(rt, w, view, after, changed, current, Last(rs, id).value);
    } else {
      assert QueryOk(rt, view, current, id);
      Scanned(view, id);
      var q := LoadedQuery(rt, view, current, id);
      AppliedAt(rt, view, b, rows, rs, current + 1, SnapshotName(id, q.snapshotRevision));
      LookupRefreshed(rs, current + 1, SnapshotName(id, q.snapshotRevision));
      QueryKept(rt, view, after, current, current + 1, id);
    }
  }

  lemma LoadedQuery(rt: Runtime, view: View, current: nat, id: bytes) returns (q: Query)
    requires QueryOk(rt, view, current, id)
    ensures LoadQuery(view, KeyOf(QueryName(id)), current) == Ok(q) && q.id == id
  {
    hide KeyOf, LoadQuery, Inputs, Evaluated, SavedResult;
    q := LoadQuery(view, KeyOf(QueryName(id)), current).value;
    LoadedId(view, current, id);
  }

  lemma RerunConsistent(rt: Runtime, w: World, view: View, after: View, changed: Input, current: nat, r: Refreshed)
    requires Reran(rt, w, view, changed, current, r)
    requires var q := Updated(r, current + 1);
             && Held(after, QueryName(q.id)) && At(after, QueryName(q.id)) == Some(QueryOf(q))
             && At(after, SnapshotName(q.id, current + 1)) == Some(SnapshotItem(q, r.result))
    requires Held(after, SourceName(changed.source))
    requires At(after, SourceName(changed.source)) == Some(SourceOf(changed.source, changed.rows))
    requires forall source :: source != changed.source ==> SameAt(view, after, SourceName(source))
    ensures QueryOk(rt, after, current + 1, r.query.id)
  {
    hide KeyOf, LoadQuery, Inputs, Evaluated, Held, At, SavedResult, QueryOk, PlanDigest, GoodId;
    LoadedId(view, current, r.query.id);
    InputsReplaced(view, after, r.query.sources, changed);
    var q := Updated(r, current + 1);
    Registered(rt, after, current + 1, q, Inputs(after, q.sources, None).value, r.result, w.program.value);
  }

  // ----- the rows of a source stay sound

  lemma {:induction false} UpdateAllGood(rows: seq<Entry>, changes: seq<Change>)
    requires UpdateAll(rows, changes).Ok?
    requires forall i :: 0 <= i < |rows| ==> GoodId(rows[i].id)
    requires forall i :: 0 <= i < |changes| ==> GoodId(changes[i].id)
    ensures var after := UpdateAll(rows, changes).value; forall i :: 0 <= i < |after| ==> GoodId(after[i].id)
    decreases |changes|
  {
    hide GoodId;
    if changes != [] {
      var next := Update(rows, changes[0]).value;
      match changes[0] {
        case Add(id, row) =>
        case Correct(id, row) => ReplaceIds(rows, id, row);
        case Delete(id) =>
          RemoveIds(rows, id);
          forall i | 0 <= i < |next| ensures GoodId(next[i].id) {
            assert next[i] in next && next[i] in rows;
          }
      }
      assert forall i :: 0 <= i < |changes[1..]| ==> changes[1..][i] == changes[i + 1];
      UpdateAllGood(next, changes[1..]);
    }
  }

  lemma BatchSound(rows: seq<Entry>, b: Batched)
    requires SoundRows(rows) && GoodBatch(b) && RowsAfter(rows, b.changes).Ok?
    ensures SoundRows(RowsAfter(rows, b.changes).value)
  {
    hide UpdateAll, Distinct, GoodId;
    UpdateAllDistinct(rows, b.changes);
    UpdateAllGood(rows, b.changes);
  }
}
