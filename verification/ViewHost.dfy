/** The dataset operations of the host, updating its store and its bound queries, proved to take the steps of `Views`. */
module ViewHost {
  import opened Bytes
  import opened Payload
  import opened Journal
  import opened ReplayTheorems
  import opened Recovery
  import opened Durable
  import opened BatchUpdate
  import opened DatasetKeys
  import opened Views
  import opened Seqs
  import Store
  import Utf8

  /** The loop of `evaluate_dataset_plan_at` over the sources of a query. */
  method ReadInputs(view: View, sources: seq<bytes>, replaced: Option<Input>) returns (r: Result<seq<Input>>)
    ensures r == Inputs(view, sources, replaced)
  {
    hide SoundRows, SourceRows;
    var inputs: seq<Input> := [];
    assert sources[0..] == sources;
    JoinedNothing(Inputs(view, sources, replaced));
    for i := 0 to |sources|
      invariant Inputs(view, sources, replaced) == Joined(inputs, Inputs(view, sources[i..], replaced))
    {
      assert sources[i..][1..] == sources[i + 1..];
      var rows: Result<seq<Entry>>;
      if replaced.Some? && replaced.value.source == sources[i] {
        rows := if SoundRows(replaced.value.rows) then Ok(replaced.value.rows) else Err(Corruption);
      } else {
        rows := SourceRows(view, sources[i]);
      }
      if rows.Err? {
        return Err(rows.error);
      }
      JoinedMore(inputs, Input(sources[i], rows.value), Inputs(view, sources[i + 1..], replaced));
      inputs := inputs + [Input(sources[i], rows.value)];
    }
    assert inputs + [] == inputs;
    return Ok(inputs);
  }

  class DatasetHost {
    const rt: Runtime
    const store: Store.Handle
    var bound: map<bytes, Query>
    var program: Option<bytes>

    ghost function State(): World
      reads this, store, store.files
    {
      World(store.System(), bound, program)
    }

    ghost predicate Ready()
      reads this, store
    {
      store.h == rt.h && store.c == rt.c && Lawful(rt)
    }

    constructor (rt: Runtime, store: Store.Handle, program: Option<bytes>)
      ensures this.rt == rt && this.store == store && bound == map[] && this.program == program
    {
      this.rt, this.store, this.program := rt, store, program;
      bound := map[];
    }

    method StageItem(item: Item) returns (fault: Option<Error>)
      requires Ready() && store.open && AllStaged(store.staged)
      modifies store`staged
      ensures AllStaged(store.staged)
      ensures fault == if rt.encode(item.stored).Err? then Some(rt.encode(item.stored).error) else None
      ensures fault.None? ==> store.staged == old(store.staged) + [Mutation(KeyOf(item.name), false, rt.encode(item.stored).value)]
      ensures store.System() == WithStaged(old(store.System()), store.staged)
    {
      hide Utf8.Valid, KeyOf, AllStaged;
      var text := rt.encode(item.stored);
      if text.Err? {
        return Some(text.error);
      }
      KeyWritable(item.name);
      var _ := store.Stage(KeyOf(item.name), Some(text.value));
      return None;
    }

    /** Put the items in order, or discard those put so far when one does not encode. */
    method StageItems(items: seq<Item>) returns (fault: Option<Error>)
      requires Ready() && store.open && store.staged == []
      modifies store`staged
      ensures fault == PutFault(rt, items) && AllStaged(store.staged)
      ensures store.staged == if fault.None? then Puts(rt, items) else []
      ensures store.System() == WithStaged(old(store.System()), store.staged)
    {
      hide KeyOf, AllStaged, Lawful, Puts;
      ghost var before := store.System();
      assert items[0..] == items;
      NothingStaged();
      for i := 0 to |items|
        invariant AllStaged(store.staged) && store.System() == WithStaged(before, store.staged)
        invariant PutFault(rt, items) == PutFault(rt, items[i..])
        invariant PutFault(rt, items).None? ==> store.staged + Puts(rt, items[i..]) == Puts(rt, items)
      {
        ghost var rest := items[i..];
        assert rest[1..] == items[i + 1..] && rest[0] == items[i];
        ghost var staged := store.staged;
        fault := StageItem(items[i]);
        if fault.Some? {
          var _ := store.DiscardStaged();
          return;
        }
        if PutFault(rt, items).None? {
          PutsStep(rt, rest);
          Assoc(staged, [Mutation(KeyOf(items[i].name), false, rt.encode(items[i].stored).value)], Puts(rt, items[i + 1..]));
        }
      }
      PutsNone(rt, store.staged);
      return None;
    }

    /** Put the items in order, commit, and close the store on failure. */
    method CommitItems(items: seq<Item>, o: Outcome) returns (r: Result<nat>)
      requires Ready() && store.open && store.staged == []
      modifies store, store.files
      ensures var fault := PutFault(rt, items);
              (store.System(), r) == if fault.Some? then (old(store.System()), Err(fault.value))
                                     else CommitBatch(rt.h, old(store.System()), Puts(rt, items), o.record, o.manifest)
    {
      hide CommitStep, KeyOf, AllStaged, Lawful, Puts, PutFault;
      var fault := StageItems(items);
      if fault.Some? {
        return Err(fault.value);
      }
      r := store.Commit(o.record, o.manifest);
      if r.Err? {
        var _ := store.Close();
      }
    }

    /** `dataset_source`. */
    method RegisterSource(id: bytes, o: Outcome) returns (r: Result<nat>)
      requires Ready()
      modifies this, store, store.files
      ensures (State(), r) == Step(rt, old(State()), SourceEvent(id, o))
    {
      hide CommitBatch, Lawful, KeyOf, Puts, GoodId;
      if !GoodId(id) {
        return Err(InvalidParameters);
      }
      if !store.open || store.staged != [] {
        return Err(InvalidState);
      }
      var view := Decoded(rt, store.index);
      if Held(view, SourceName(id)) {
        var saved := At(view, SourceName(id));
        if saved.None? || !saved.value.SourceOf? || saved.value.id != id {
          return Err(Corruption);
        }
        return Ok(store.currentRev);
      }
      r := CommitItems([Item(SourceName(id), SourceOf(id, []))], o);
    }

    /** `dataset_query`. */
    method RegisterQuery(q: Registration, o: Outcome) returns (r: Result<nat>)
      requires Ready()
      modifies this, store, store.files
      ensures (State(), r) == Step(rt, old(State()), QueryEvent(q, o))
    {
      hide CommitBatch, Lawful, KeyOf, Puts, GoodQuery, LoadQuery, Inputs, Decoded, Held, PlanDigest, QueryItems;
      if !GoodQuery(Query(q.id, q.sources, q.plan, q.version, [], 0, 0)) {
        return Err(InvalidParameters);
      }
      if program.None? || !store.open || store.staged != [] {
        return Err(InvalidState);
      }
      var digest := PlanDigest(rt.h, program.value, q.plan);
      var view, current := Decoded(rt, store.index), store.currentRev;
      if Held(view, QueryName(q.id)) {
        var saved := LoadQuery(view, KeyOf(QueryName(q.id)), current);
        if saved.Err? {
          return Err(saved.error);
        }
        if saved.value.version == q.version {
          if saved.value.sources != q.sources || saved.value.plan != q.plan || saved.value.digest != digest {
            return Err(Conflict);
          }
          bound := bound[q.id := saved.value];
          return Ok(current);
        }
      }
      if current + 1 >= U64 {
        return Err(Limit);
      }
      var inputs := ReadInputs(view, q.sources, None);
      if inputs.Err? {
        return Err(inputs.error);
      }
      var result := rt.run(program.value, q.plan, inputs.value);
      if result.Err? {
        return Err(result.error);
      }
      var record := Query(q.id, q.sources, q.plan, q.version, digest, current, current + 1);
      r := CommitItems(QueryItems(record, result.value), o);
      if r.Ok? {
        bound := bound[q.id := record];
      }
    }

    /** The loop of `dataset_apply` over the registered queries. */
    method RefreshQueries(view: View, keys: seq<bytes>, changed: Input, current: nat) returns (r: Result<seq<Refreshed>>)
      ensures r == Refresh(rt, State(), view, keys, changed, current)
    {
      hide LoadQuery, PlanDigest, Inputs;
      var affected: seq<Refreshed> := [];
      assert keys[0..] == keys;
      JoinedNothing(Refresh(rt, State(), view, keys, changed, current));
      for i := 0 to |keys|
        invariant Refresh(rt, State(), view, keys, changed, current)
               == Joined(affected, Refresh(rt, State(), view, keys[i..], changed, current))
      {
        assert keys[i..][1..] == keys[i + 1..];
        var q := LoadQuery(view, keys[i], current);
        if q.Err? {
          return Err(q.error);
        }
        if changed.source !in q.value.sources {
          continue;
        }
        if q.value.id !in bound || bound[q.value.id] != q.value || program.None?
           || PlanDigest(rt.h, program.value, q.value.plan) != q.value.digest {
          return Err(Conflict);
        }
        var inputs := ReadInputs(view, q.value.sources, Some(changed));
        if inputs.Err? {
          return Err(inputs.error);
        }
        var result := rt.run(program.value, q.value.plan, inputs.value);
        if result.Err? {
          return Err(result.error);
        }
        JoinedMore(affected, Refreshed(q.value, result.value), Refresh(rt, State(), view, keys[i + 1..], changed, current));
        affected := affected + [Refreshed(q.value, result.value)];
      }
      assert affected + [] == affected;
      return Ok(affected);
    }

    method BindAll(rs: seq<Refreshed>, revision: nat)
      modifies this
      ensures bound == Rebind(old(bound), rs, revision) && program == old(program)
    {
      assert rs[0..] == rs;
      for i := 0 to |rs|
        invariant Rebind(old(bound), rs, revision) == Rebind(bound, rs[i..], revision) && program == old(program)
      {
        assert rs[i..][1..] == rs[i + 1..];
        bound := bound[rs[i].query.id := Updated(rs[i], revision)];
      }
    }

    /** What `dataset_apply` makes of a batch before it writes anything: its answer, or the rows and results to write. */
    method PlanBatch(b: Batched) returns (answer: Option<Result<nat>>, rows: seq<Entry>, affected: seq<Refreshed>)
      requires Ready()
      ensures answer.None? ==> store.open && store.staged == []
      ensures ApplyDecision(rt, State(), ViewOf(rt, store.System()), b)
           == if answer.Some? then Answer(answer.value, bound)
              else Write(ApplyItems(rt, b, rows, affected, store.currentRev + 1), Rebind(bound, affected, store.currentRev + 1))
    {
      hide Lawful, KeyOf, GoodBatch, Refresh, Decoded, Held, SourceRows, RowsAfter, QueryKeysOf, ApplyItems, Repeated, Rebind;
      rows, affected := [], [];
      if !GoodBatch(b) {
        return Some(Err(InvalidParameters)), rows, affected;
      }
      if |rt.text(b.changes)| > MAX_PAYLOAD {
        return Some(Err(Limit)), rows, affected;
      }
      if !store.open || store.staged != [] {
        return Some(Err(InvalidState)), rows, affected;
      }
      var view, current := Decoded(rt, store.index), store.currentRev;
      if Held(view, BatchName(b.source, b.id)) {
        return Some(Repeated(rt, view, b)), rows, affected;
      }
      if !Held(view, SourceName(b.source)) {
        return Some(Err(NotFound)), rows, affected;
      }
      if current != b.expected {
        return Some(Err(Conflict)), rows, affected;
      }
      if current >= MAX_SAFE {
        return Some(Err(Limit)), rows, affected;
      }
      var before := SourceRows(view, b.source);
      if before.Err? {
        return Some(Err(before.error)), rows, affected;
      }
      DistinctRows(view, b.source);
      var changed := ApplyChanges(before.value, b.changes);
      if changed.Err? {
        return Some(Err(changed.error)), rows, affected;
      }
      var refreshed := RefreshQueries(view, QueryKeysOf(view), Input(b.source, changed.value), current);
      if refreshed.Err? {
        return Some(Err(refreshed.error)), rows, affected;
      }
      return None, changed.value, refreshed.value;
    }

    /** `dataset_apply`. */
    method ApplyBatch(b: Batched, o: Outcome) returns (r: Result<nat>)
      requires Ready()
      modifies this, store, store.files
      ensures (State(), r) == Step(rt, old(State()), ApplyEvent(b, o))
    {
      hide CommitBatch, Lawful, ApplyDecision, Puts, PutFault, ApplyItems, Rebind, ViewOf;
      var answer, rows, affected := PlanBatch(b);
      if answer.Some? {
        return answer.value;
      }
      var next := store.currentRev + 1;
      r := CommitItems(ApplyItems(rt, b, rows, affected, next), o);
      if r.Ok? {
        BindAll(affected, next);
      }
    }
  }

  lemma DistinctRows(view: View, id: bytes)
    requires SourceRows(view, id).Ok?
    ensures Distinct(SourceRows(view, id).value)
  {
    hide Distinct;
  }

  lemma PutsStep(rt: Runtime, items: seq<Item>)
    requires items != [] && PutFault(rt, items).None?
    ensures PutFault(rt, items[1..]).None?
    ensures Puts(rt, items) == [Mutation(KeyOf(items[0].name), false, rt.encode(items[0].stored).value)] + Puts(rt, items[1..])
  {}

  lemma PutsNone(rt: Runtime, staged: seq<Mutation>)
    ensures staged + Puts(rt, []) == staged
  {}
}
