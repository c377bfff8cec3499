/**
 What `dataset_source`, `dataset_query` and `dataset_apply` answer, and when they commit: said of the
 contents before and after the event, not of the decisions that `Views` takes.
 */
module ViewAnswers {
  import opened Bytes
  import opened Payload
  import opened Journal
  import opened ReplayTheorems
  import opened Recovery
  import opened Durable
  import opened BatchUpdate
  import opened DatasetKeys
  import opened Views
  import opened ViewLog
  import opened ViewRuns
  import Scan

  // ----- batches

  /** What `dataset_apply` asks of its arguments. */
  predicate WellFormed(b: Batched) {
    && 0 < |b.source| <= 128 && 0 < |b.id| <= 128 && b.expected <= 9_007_199_254_740_991
    && 0 < |b.changes| <= 10_000
    && (forall k :: 0 <= k < |b.changes| ==> 0 < |b.changes[k].id| <= 128)
    && (forall j, k :: 0 <= j < k < |b.changes| ==> b.changes[j].id != b.changes[k].id)
  }

  /** A registered query loads and, if it reads the changed source, is bound as stored to the running program and evaluates. */
  predicate Refreshable(rt: Runtime, w: World, view: View, current: nat, key: bytes, changed: Input) {
    var q := LoadQuery(view, key, current);
    && q.Ok?
    && (changed.source in q.value.sources ==>
          && w.program.Some? && q.value.id in w.bound && w.bound[q.value.id] == q.value
          && PlanDigest(rt.h, w.program.value, q.value.plan) == q.value.digest
          && Inputs(view, q.value.sources, Some(changed)).Ok?
          && rt.run(w.program.value, q.value.plan, Inputs(view, q.value.sources, Some(changed)).value).Ok?)
  }

  ghost predicate AllRefreshable(rt: Runtime, w: World, view: View, current: nat, changed: Input) {
    forall key :: key in view && QUERIES <= key ==> Refreshable(rt, w, view, current, key, changed)
  }

  /** The changes fit the rows, and the queries can follow. */
  ghost predicate Follows(rt: Runtime, w: World, view: View, current: nat, b: Batched) {
    var rows := SourceRows(view, b.source);
    && rows.Ok?
    && (forall k :: 0 <= k < |b.changes| ==> FitsRows(rows.value, b.changes[k]))
    && |Surviving(Ids(rows.value), b.changes) + AddedIds(b.changes)| <= 10_000
    && forall after :: RowsAfter(rows.value, b.changes) == Ok(after) ==> AllRefreshable(rt, w, view, current, Input(b.source, after))
  }

  /** Everything that must hold before a batch without a receipt is committed. */
  ghost predicate Ready(rt: Runtime, w: World, view: View, current: nat, b: Batched) {
    && WellFormed(b) && |rt.text(b.changes)| <= 64 * 1024 * 1024
    && w.store.memory.Some? && w.store.memory.value.staged == []
    && b.expected == current < 9_007_199_254_740_991
    && Follows(rt, w, view, current, b)
  }

  lemma FormExact(b: Batched)
    ensures WellFormed(b) <==> GoodBatch(b)
  {}

  lemma RefreshOneExact(rt: Runtime, w: World, view: View, q: Query, changed: Input)
    ensures RefreshOne(rt, w, view, q, changed).Ok? <==>
            && w.program.Some? && q.id in w.bound && w.bound[q.id] == q
            && PlanDigest(rt.h, w.program.value, q.plan) == q.digest
            && Inputs(view, q.sources, Some(changed)).Ok?
            && rt.run(w.program.value, q.plan, Inputs(view, q.sources, Some(changed)).value).Ok?
  {
    hide PlanDigest, Inputs;
  }

  lemma HeadExact(rt: Runtime, w: World, view: View, key: bytes, changed: Input, current: nat)
    ensures var q := LoadQuery(view, key, current);
            Refreshable(rt, w, view, current, key, changed)
            <==> q.Ok? && (changed.source in q.value.sources ==> RefreshOne(rt, w, view, q.value, changed).Ok?)
  {
    hide LoadQuery, RefreshOne, Inputs, PlanDigest;
    var q := LoadQuery(view, key, current);
    if q.Ok? {
      RefreshOneExact(rt, w, view, q.value, changed);
    }
  }

  lemma {:induction false} RefreshExact(rt: Runtime, w: World, view: View, keys: seq<bytes>, changed: Input, current: nat)
    ensures Refresh(rt, w, view, keys, changed, current).Ok? <==>
              forall key :: key in keys ==> Refreshable(rt, w, view, current, key, changed)
    decreases |keys|
  {
    hide LoadQuery, RefreshOne, Refreshable;
    if keys != [] {
      RefreshExact(rt, w, view, keys[1..], changed, current);
      HeadExact(rt, w, view, keys[0], changed, current);
      assert forall key :: key in keys <==> key == keys[0] || key in keys[1..];
      var all := forall key :: key in keys ==> Refreshable(rt, w, view, current, key, changed);
      assert all <==> Refreshable(rt, w, view, current, keys[0], changed)
                      && forall key :: key in keys[1..] ==> Refreshable(rt, w, view, current, key, changed);
    }
  }

  /** The keys that are scanned are those of the registered queries. */
  lemma ScannedKeys(view: View, key: bytes)
    ensures key in QueryKeysOf(view) <==> key in view && QUERIES <= key
  {
    hide QUERIES, Scan.Matching;
    var order := Scan.Order(view.Keys);
    Scan.OrderAscending(view.Keys);
    Scan.MatchingProperties(order, QUERIES, []);
    QueriesLong();
    assert key in order <==> key in view.Keys;
    if QUERIES <= key {
      assert key != [];
    }
  }

  lemma QueriesLong()
    ensures |QUERIES| > 0
  {}

  /** A batch without a receipt is decided to be written just when everything holds. */
  lemma ApplyExact(rt: Runtime, w: World, view: View, current: nat, b: Batched)
    requires w.store.memory.Some? ==> w.store.memory.value.currentRev == current
    requires !Held(view, BatchName(b.source, b.id))
    ensures ApplyDecision(rt, w, view, b).Write? <==> Ready(rt, w, view, current, b)
    ensures ApplyDecision(rt, w, view, b).Answer? ==>
              ApplyDecision(rt, w, view, b).bound == w.bound && ApplyDecision(rt, w, view, b).result.Err?
  {
    hide WellFormed, GoodBatch, Held, SourceRows, RowsAfter, Refresh, QueryKeysOf, ApplyItems, Rebind, Follows, KeyOf, BatchDigest;
    FormExact(b);
    if GoodBatch(b) {
      FollowsExact(rt, w, view, current, b);
      if SourceRows(view, b.source).Ok? {
        HeldRows(view, b.source);
      }
    }
  }

  lemma HeldRows(view: View, id: bytes)
    requires SourceRows(view, id).Ok?
    ensures Held(view, SourceName(id))
  {
    hide Held, At, SoundRows;
  }

  lemma FollowsExact(rt: Runtime, w: World, view: View, current: nat, b: Batched)
    requires GoodBatch(b)
    ensures Follows(rt, w, view, current, b) <==>
              var rows := SourceRows(view, b.source);
              && rows.Ok?
              && RowsAfter(rows.value, b.changes).Ok?
              && Refresh(rt, w, view, QueryKeysOf(view), Input(b.source, RowsAfter(rows.value, b.changes).value), current).Ok?
  {
    hide SourceRows, RowsAfter, Refresh, QueryKeysOf, Refreshable, FitsRows, Surviving, AddedIds, Ids, Distinct, GoodId;
    var rows := SourceRows(view, b.source);
    if rows.Ok? {
      SourceSound(view, b.source);
      BatchMade(rows.value, b.changes);
      var after := RowsAfter(rows.value, b.changes);
      if after.Ok? {
        MadeSize(rows.value, b.changes, after.value);
        RefreshExact(rt, w, view, QueryKeysOf(view), Input(b.source, after.value), current);
        forall key ensures key in QueryKeysOf(view) <==> key in view && QUERIES <= key {
          ScannedKeys(view, key);
        }
      }
    }
  }

  lemma MadeSize(rows: seq<Entry>, changes: seq<Change>, after: seq<Entry>)
    requires ChangesMade(rows, changes, after)
    ensures |Surviving(Ids(rows), changes) + AddedIds(changes)| == |after|
  {
    hide Surviving, Ids, AddedIds, Distinct;
    IdsLength(after);
  }

  /** What a commit attempt leaves: nothing, or the records; and surely the records when it reports success. */
  lemma WriteLands(rt: Runtime, w: World, hist: History, e: Event)
    requires Lawful(rt) && WorldInv(rt, w, hist) && Dataset(e) && Decide(rt, w, e).Write?
    ensures var (n, r) := Step(rt, w, e);
            var next := StepHistory(rt, w, hist, e);
            && (r.Ok? ==> next.log != hist.log && r.value == |next.log|)
            && (next.log != hist.log ==>
                  && |next.log| == |hist.log| + 1
                  && ViewAfter(rt, next) == Written(ViewAfter(rt, hist), Decide(rt, w, e).items))
            && (r.Ok? ==> n.bound == Decide(rt, w, e).bound)
            && (r.Err? ==> n.bound == w.bound)
  {
    hide Decide, Inv, Lawful, Consistent, StagedForeign, Written, CommitBatch, BatchHistory, ViewAfter;
    WriteNeedsOpen(rt, w, e);
    var d := Decide(rt, w, e);
    if Commits(rt, w, d) {
      var ms := Puts(rt, d.items);
      PutsWritable(rt, d.items);
      FaithfulOf(rt);
      BatchKeeps(rt.h, rt.c, w.store, hist, ms, e.outcome.record, e.outcome.manifest);
      var next := StepHistory(rt, w, hist, e);
      if next.log != hist.log {
        WrittenContents(rt, hist, next, d.items);
      }
    }
  }

  /** What is answered at once leaves the log, and all but the bindings, as they were. */
  lemma AnswerKeeps(rt: Runtime, w: World, hist: History, e: Event)
    requires Dataset(e) && Decide(rt, w, e).Answer?
    ensures Step(rt, w, e) == (w.(bound := Decide(rt, w, e).bound), Decide(rt, w, e).result)
    ensures StepHistory(rt, w, hist, e) == hist
  {
    hide Decide, CommitBatch, BatchHistory;
  }

  /**
   A batch that has no receipt yet is committed just for the revision it expects. If everything is `Ready`
   it lands whole or not at all, at the next revision, with its changes made to the rows of its source;
   otherwise, for a stale revision among others, the world and the log stay as they were and the answer is an error.
   */
  lemma BatchTakesItsTurn(rt: Runtime, w: World, hist: History, b: Batched, o: Outcome)
    requires Lawful(rt) && WorldInv(rt, w, hist) && !Held(ViewAfter(rt, hist), BatchName(b.source, b.id))
    ensures var (n, r) := Step(rt, w, ApplyEvent(b, o));
            var next := StepHistory(rt, w, hist, ApplyEvent(b, o));
            var before, after := SourceRows(ViewAfter(rt, hist), b.source), SourceRows(ViewAfter(rt, next), b.source);
            && (!Ready(rt, w, ViewAfter(rt, hist), |hist.log|, b) ==> n == w && next == hist && r.Err?)
            && (b.expected != |hist.log| ==> n == w && next == hist && r.Err?)
            && (r.Ok? ==> next.log != hist.log && r.value == |next.log|)
            && (next.log != hist.log ==>
                  && b.expected == |hist.log| && |next.log| == b.expected + 1
                  && before.Ok? && after.Ok? && ChangesMade(before.value, b.changes, after.value))
            && (Ready(rt, w, ViewAfter(rt, hist), |hist.log|, b) <==> Decide(rt, w, ApplyEvent(b, o)).Write?)
  {
    hide WorldInv, Lawful, Decide, Step, StepHistory, SourceRows, ViewAfter, Held, Ready, KeyOf, ChangesMade;
    var e := ApplyEvent(b, o);
    var view, current := ViewAfter(rt, hist), |hist.log|;
    DecisionExact(rt, w, hist, b, o);
    if Decide(rt, w, e).Answer? {
      AnswerKeeps(rt, w, hist, e);
    } else {
      WriteLands(rt, w, hist, e);
      if StepHistory(rt, w, hist, e).log != hist.log {
        RowsMade(rt, w, hist, b, o);
      }
    }
  }

  lemma DecisionExact(rt: Runtime, w: World, hist: History, b: Batched, o: Outcome)
    requires Lawful(rt) && WorldInv(rt, w, hist) && !Held(ViewAfter(rt, hist), BatchName(b.source, b.id))
    ensures var d := Decide(rt, w, ApplyEvent(b, o));
            var ready := Ready(rt, w, ViewAfter(rt, hist), |hist.log|, b);
            && (ready <==> d.Write?) && (ready ==> b.expected == |hist.log|)
            && (d.Answer? ==> d.bound == w.bound && d.result.Err?)
  {
    hide Inv, Lawful, Consistent, StagedForeign, ViewAfter, ViewOf, ApplyDecision, Follows, Held, WellFormed;
    if w.store.memory.Some? {
      SameView(rt, w.store, hist);
      ApplyExact(rt, w, ViewAfter(rt, hist), |hist.log|, b);
    } else {
      ClosedAnswers(rt, w, b);
    }
  }

  lemma ClosedAnswers(rt: Runtime, w: World, b: Batched)
    requires w.store.memory.None?
    ensures var d := ApplyDecision(rt, w, ViewOf(rt, w.store), b); d.Answer? && d.bound == w.bound && d.result.Err?
  {
    hide GoodBatch;
  }

  lemma RowsMade(rt: Runtime, w: World, hist: History, b: Batched, o: Outcome)
    requires Lawful(rt) && WorldInv(rt, w, hist) && Decide(rt, w, ApplyEvent(b, o)).Write?
    ensures var before, after := SourceRows(ViewAfter(rt, hist), b.source),
                                 SourceRows(Written(ViewAfter(rt, hist), Decide(rt, w, ApplyEvent(b, o)).items), b.source);
            before.Ok? && after.Ok? && ChangesMade(before.value, b.changes, after.value)
  {
    hide Inv, Lawful, Consistent, StagedForeign, ViewAfter, ViewOf, KeyOf, Refresh, QueryKeysOf, ApplyItems, Inputs, Held, At,
         GoodBatch, RowsAfter, SoundRows, Written, BatchDigest, ChangesMade, SourceRows, Rebind;
    var view, current := ViewAfter(rt, hist), |hist.log|;
    WriteNeedsOpen(rt, w, ApplyEvent(b, o));
    SameView(rt, w.store, hist);
    var rows := SourceRows(view, b.source).value;
    var changed := RowsAfter(rows, b.changes).value;
    var rs := Refresh(rt, w, view, QueryKeysOf(view), Input(b.source, changed), current).value;
    SourceSound(view, b.source);
    BatchSound(rows, b);
    GoodDistinct(rows, b);
    BatchMade(rows, b.changes);
    AppliedAt(rt, view, b, changed, rs, current + 1, SourceName(b.source));
    RowsRead(Written(view, ApplyItems(rt, b, changed, rs, current + 1)), b.source, changed);
  }

  lemma GoodDistinct(rows: seq<Entry>, b: Batched)
    requires SoundRows(rows) && GoodBatch(b)
    ensures Distinct(rows) && DistinctChanges(b.changes)
  {}

  lemma RowsRead(view: View, id: bytes, rows: seq<Entry>)
    requires Held(view, SourceName(id)) && At(view, SourceName(id)) == Some(SourceOf(id, rows)) && SoundRows(rows)
    ensures SourceRows(view, id) == Ok(rows)
  {
    hide Held, At, SoundRows;
  }

  /** The world and the log as they were: what every answer but `Ok` of an operation that asks first leaves. */
  predicate Unmoved(rt: Runtime, w: World, hist: History, e: Event) {
    Step(rt, w, e).0 == w && StepHistory(rt, w, hist, e) == hist
  }

  predicate Quiet(w: World) { w.store.memory.Some? && w.store.memory.value.staged == [] }

  /** A stale batch, and one with a change that does not fit, are conflicts; too many rows are over the limit. */
  lemma BatchConflicts(rt: Runtime, w: World, hist: History, b: Batched, o: Outcome)
    requires Lawful(rt) && WorldInv(rt, w, hist) && !Held(ViewAfter(rt, hist), BatchName(b.source, b.id))
    requires WellFormed(b) && |rt.text(b.changes)| <= 64 * 1024 * 1024 && Quiet(w)
    ensures var r := Step(rt, w, ApplyEvent(b, o)).1;
            var rows := SourceRows(ViewAfter(rt, hist), b.source);
            && (!Held(ViewAfter(rt, hist), SourceName(b.source)) ==> r == Err(NotFound))
            && (Held(ViewAfter(rt, hist), SourceName(b.source)) && b.expected != |hist.log| ==> r == Err(Conflict))
            && (rows.Ok? && b.expected == |hist.log| < 9_007_199_254_740_991 ==>
                  && ((exists k :: 0 <= k < |b.changes| && !FitsRows(rows.value, b.changes[k])) ==> r == Err(Conflict))
                  && (((forall k :: 0 <= k < |b.changes| ==> FitsRows(rows.value, b.changes[k]))
                       && |Surviving(Ids(rows.value), b.changes) + AddedIds(b.changes)| > 10_000) ==> r == Err(Limit)))
  {
    hide Inv, Lawful, Consistent, StagedForeign, ViewAfter, ViewOf, KeyOf, Refresh, QueryKeysOf, ApplyItems, Held,
         GoodBatch, WellFormed, RowsAfter, SoundRows, FitsRows, Surviving, AddedIds, Ids, SourceRows, Rebind, CommitBatch, ChangesMade;
    SameView(rt, w.store, hist);
    FormExact(b);
    var rows := SourceRows(ViewAfter(rt, hist), b.source);
    if rows.Ok? {
      SourceSound(ViewAfter(rt, hist), b.source);
      HeldRows(ViewAfter(rt, hist), b.source);
      GoodDistinct(rows.value, b);
      BatchMade(rows.value, b.changes);
      var after := RowsAfter(rows.value, b.changes);
      if after.Ok? {
        MadeSize(rows.value, b.changes, after.value);
      }
    }
  }

  /** A batch with a receipt changes nothing: it answers the receipt's revision when its changes are the same, and is a conflict otherwise. */
  lemma BatchRepeated(rt: Runtime, w: World, hist: History, b: Batched, o: Outcome)
    requires Lawful(rt) && WorldInv(rt, w, hist) && Held(ViewAfter(rt, hist), BatchName(b.source, b.id))
    ensures var r := Step(rt, w, ApplyEvent(b, o)).1;
            var saved := At(ViewAfter(rt, hist), BatchName(b.source, b.id));
            && Unmoved(rt, w, hist, ApplyEvent(b, o))
            && (r.Ok? ==> saved == Some(ReceiptOf(b.source, Hex(rt.h(rt.text(b.changes))), r.value)))
            && ((WellFormed(b) && |rt.text(b.changes)| <= 64 * 1024 * 1024 && Quiet(w) && saved.Some?
                 && saved.value.ReceiptOf? && saved.value.source == b.source && saved.value.revision <= 9_007_199_254_740_991) ==>
                  r == if saved.value.digest == Hex(rt.h(rt.text(b.changes))) then Ok(saved.value.revision) else Err(Conflict))
  {
    hide Inv, Lawful, Consistent, StagedForeign, ViewAfter, ViewOf, KeyOf, Refresh, QueryKeysOf, ApplyItems, Held, At, Hex,
         GoodBatch, WellFormed, RowsAfter, SoundRows, SourceRows, Rebind, CommitBatch, BatchHistory;
    FormExact(b);
    if w.store.memory.Some? {
      SameView(rt, w.store, hist);
    } else {
      ClosedAnswers(rt, w, b);
    }
  }

  // ----- sources

  /** Registering a source twice changes nothing; the first time it has no rows, at the next revision. */
  lemma SourceAnswers(rt: Runtime, w: World, hist: History, id: bytes, o: Outcome)
    requires Lawful(rt) && WorldInv(rt, w, hist)
    ensures var e := SourceEvent(id, o);
            var (n, r) := Step(rt, w, e);
            var view, after := ViewAfter(rt, hist), ViewAfter(rt, StepHistory(rt, w, hist, e));
            && n.bound == w.bound
            && (!Quiet(w) || |id| == 0 || |id| > 128 || Held(view, SourceName(id)) ==> Unmoved(rt, w, hist, e))
            && (r.Ok? ==> SourceRows(after, id).Ok?)
            && (r.Ok? && !Held(view, SourceName(id)) ==> SourceRows(after, id) == Ok([]) && r.value == |hist.log| + 1)
            && (Quiet(w) && 0 < |id| <= 128 && Held(view, SourceName(id)) ==> r == Ok(|hist.log|))
            && (Quiet(w) && 0 < |id| <= 128 && !Held(view, SourceName(id)) ==>
                  Decide(rt, w, e).Write? && Decide(rt, w, e).items == [Item(SourceName(id), SourceOf(id, []))])
  {
    hide WorldInv, Lawful, ViewAfter, KeyOf, Held, At, Written, SourceRows, Step, StepHistory, Decide;
    var e := SourceEvent(id, o);
    var view := ViewAfter(rt, hist);
    SourceDecided(rt, w, hist, id, o);
    if Decide(rt, w, e).Answer? {
      AnswerKeeps(rt, w, hist, e);
      assert w.(bound := w.bound) == w;
    } else {
      WriteLands(rt, w, hist, e);
      NewRows(view, id);
      assert Step(rt, w, e).1.Ok? ==> SourceRows(ViewAfter(rt, StepHistory(rt, w, hist, e)), id) == Ok([]);
    }
  }

  lemma NewRows(view: View, id: bytes)
    ensures SourceRows(Written(view, [Item(SourceName(id), SourceOf(id, []))]), id) == Ok([])
  {
    hide Held, At, SourceRows, Written;
    var items := [Item(SourceName(id), SourceOf(id, []))];
    WrittenAt(view, items, SourceName(id));
    assert items[1..] == [] && Lookup(items, SourceName(id)) == Some(SourceOf(id, []));
    RowsRead(Written(view, items), id, []);
  }

  lemma SourceDecided(rt: Runtime, w: World, hist: History, id: bytes, o: Outcome)
    requires Lawful(rt) && WorldInv(rt, w, hist)
    ensures var d := Decide(rt, w, SourceEvent(id, o));
            var view := ViewAfter(rt, hist);
            var asked := Quiet(w) && 0 < |id| <= 128;
            && (!asked || Held(view, SourceName(id)) ==> d.Answer? && d.bound == w.bound)
            && (!asked ==> d.result.Err?)
            && (asked && Held(view, SourceName(id)) ==> d.result == Ok(|hist.log|) && SourceRows(view, id).Ok?)
            && (asked && !Held(view, SourceName(id)) ==> d == Write([Item(SourceName(id), SourceOf(id, []))], w.bound))
  {
    hide Inv, Lawful, Consistent, StagedForeign, ViewAfter, ViewOf, KeyOf, Held, At, SourceRows;
    var view := ViewAfter(rt, hist);
    if Quiet(w) {
      SameView(rt, w.store, hist);
      if Held(view, SourceName(id)) {
        SourceConsistent(rt, view, |hist.log|, id);
        RowsHeld(view, id);
      }
    }
  }

  lemma SourceConsistent(rt: Runtime, view: View, current: nat, id: bytes)
    requires Consistent(rt, view, current) && Held(view, SourceName(id))
    ensures SourceOk(view, id)
  {
    hide Held, SourceOk, QueryOk;
  }

  lemma RowsHeld(view: View, id: bytes)
    requires SourceRows(view, id).Ok?
    ensures Held(view, SourceName(id))
    ensures At(view, SourceName(id)).Some? && At(view, SourceName(id)).value.SourceOf? && At(view, SourceName(id)).value.id == id
  {
    hide Held, At, SoundRows;
  }

  // ----- queries

  /** The inputs of a plan are the rows of its sources, in the order it names them; every one must be registered. */
  lemma {:induction false} InputsRead(view: View, sources: seq<bytes>)
    requires forall id :: Held(view, SourceName(id)) ==> SourceOk(view, id)
    ensures Inputs(view, sources, None).Ok? <==> forall i :: 0 <= i < |sources| ==> Held(view, SourceName(sources[i]))
    ensures Inputs(view, sources, None).Ok? ==>
              && |Inputs(view, sources, None).value| == |sources|
              && forall i :: 0 <= i < |sources| ==>
                   && SourceRows(view, sources[i]).Ok?
                   && Inputs(view, sources, None).value[i] == Input(sources[i], SourceRows(view, sources[i]).value)
    decreases |sources|
  {
    hide Held, SourceRows, SoundRows, At;
    if sources != [] {
      InputsRead(view, sources[1..]);
      assert forall i :: 0 <= i < |sources[1..]| ==> sources[1..][i] == sources[i + 1];
      assert Held(view, SourceName(sources[0])) ==> SourceOk(view, sources[0]);
      if SourceRows(view, sources[0]).Ok? {
        HeldRows(view, sources[0]);
      }
    }
  }

  /** What `dataset_query` asks of its arguments. */
  predicate WellNamed(r: Registration) {
    && 0 < |r.id| <= 128 && 0 < |r.plan| <= 128 && |r.version| > 0
    && forall i :: 0 <= i < |r.sources| ==> 0 < |r.sources[i]| <= 128
  }

  /** The stored query is the one that is registered, for the running program. */
  predicate Registers(rt: Runtime, w: World, q: Query, r: Registration) {
    && q.id == r.id && q.sources == r.sources && q.plan == r.plan && q.version == r.version
    && w.program.Some? && q.digest == PlanDigest(rt.h, w.program.value, r.plan)
  }

  lemma QueryDecided(rt: Runtime, w: World, hist: History, r: Registration, o: Outcome)
    requires Lawful(rt) && WorldInv(rt, w, hist)
    ensures var d := Decide(rt, w, QueryEvent(r, o));
            var view, current := ViewAfter(rt, hist), |hist.log|;
            var saved := LoadQuery(view, KeyOf(QueryName(r.id)), current);
            && (d.Answer? && d.result.Err? ==> d.bound == w.bound)
            && (!WellNamed(r) || !Quiet(w) || w.program.None? ==> d.Answer? && d.result.Err?)
            && (d.Answer? && d.result.Ok? ==>
                  saved.Ok? && Registers(rt, w, saved.value, r) && d.bound == w.bound[r.id := saved.value] && d.result == Ok(current))
            && ((WellNamed(r) && Quiet(w) && w.program.Some? && saved.Ok? && saved.value.version == r.version) ==>
                  d.Answer? && d.result == if Registers(rt, w, saved.value, r) then Ok(current) else Err(Conflict))
  {
    hide Inv, Lawful, StagedForeign, ViewAfter, ViewOf, KeyOf, LoadQuery, Inputs, PlanDigest, QueryItems, QueryOk, SourceOk;
    var view := ViewAfter(rt, hist);
    var saved := LoadQuery(view, KeyOf(QueryName(r.id)), |hist.log|);
    if Quiet(w) {
      SameView(rt, w.store, hist);
      if saved.Ok? {
        LoadedId(view, |hist.log|, r.id);
      }
    }
  }

  /** `result` is what the registered plan gives on the rows of its sources, which all are registered. */
  predicate Computes(rt: Runtime, w: World, view: View, r: Registration, result: bytes) {
    var inputs := Inputs(view, r.sources, None);
    w.program.Some? && inputs.Ok? && rt.run(w.program.value, r.plan, inputs.value) == Ok(result)
  }

  /** The query as it is stored when it is registered at the revision after `current`. */
  function Fresh(rt: Runtime, program: bytes, r: Registration, current: nat): Query {
    Query(r.id, r.sources, r.plan, r.version, PlanDigest(rt.h, program, r.plan), current, current + 1)
  }

  ghost predicate Anew(view: View, current: nat, r: Registration) {
    var saved := LoadQuery(view, KeyOf(QueryName(r.id)), current);
    saved.Ok? ==> saved.value.version != r.version
  }

  /** The stored query, and nothing else, when it is registered afresh or for another version. */
  lemma QueryWritten(rt: Runtime, w: World, hist: History, r: Registration, o: Outcome)
    requires Lawful(rt) && WorldInv(rt, w, hist) && WellNamed(r) && Quiet(w) && w.program.Some?
    requires Anew(ViewAfter(rt, hist), |hist.log|, r)
    ensures var d := Decide(rt, w, QueryEvent(r, o));
            var view, current := ViewAfter(rt, hist), |hist.log|;
            && (d.Write? <==> current + 1 < 0x1_0000_0000_0000_0000 && exists result :: Computes(rt, w, view, r, result))
            && (d.Write? ==> forall result :: Computes(rt, w, view, r, result) ==>
                  && d.items == QueryItems(Fresh(rt, w.program.value, r, current), result)
                  && d.bound == w.bound[r.id := Fresh(rt, w.program.value, r, current)])
  {
    hide Inv, Lawful, StagedForeign, ViewAfter, ViewOf, KeyOf, LoadQuery, Inputs, PlanDigest, QueryItems, QueryOk, SourceOk, Held;
    var view := ViewAfter(rt, hist);
    SameView(rt, w.store, hist);
    if Held(view, QueryName(r.id)) {
      QueryConsistent(rt, view, |hist.log|, r.id);
    }
    var inputs := Inputs(view, r.sources, None);
    if inputs.Ok? && rt.run(w.program.value, r.plan, inputs.value).Ok? {
      assert Computes(rt, w, view, r, rt.run(w.program.value, r.plan, inputs.value).value);
    }
  }

  lemma QueryConsistent(rt: Runtime, view: View, current: nat, id: bytes)
    requires Consistent(rt, view, current) && Held(view, QueryName(id))
    ensures LoadQuery(view, KeyOf(QueryName(id)), current).Ok?
  {
    hide Held, SourceOk, LoadQuery, Inputs, Evaluated, KeyOf;
    assert QueryOk(rt, view, current, id);
  }

  /** What is read of a query after it was written. */
  lemma QueryReads(view: View, current: nat, q: Query, result: bytes)
    requires GoodQuery(q) && q.sourceRevision == current && q.snapshotRevision == current + 1
    ensures var after := Written(view, QueryItems(q, result));
            && LoadQuery(after, KeyOf(QueryName(q.id)), current + 1) == Ok(q) && SavedResult(after, q) == result
  {
    hide KeyOf, Held, At, Written, QueryItems, GoodQuery;
    var items := QueryItems(q, result);
    var after := Written(view, items);
    WrittenAt(view, items, QueryName(q.id));
    LookupQuery(q, result, QueryName(q.id));
    WrittenAt(view, items, SnapshotName(q.id, q.snapshotRevision));
    LookupQuery(q, result, SnapshotName(q.id, q.snapshotRevision));
    QueryLoads(after, current + 1, q, result);
  }

  lemma QueryLoads(view: View, current: nat, q: Query, result: bytes)
    requires GoodQuery(q) && q.sourceRevision <= q.snapshotRevision <= current
    requires Held(view, QueryName(q.id)) && At(view, QueryName(q.id)) == Some(QueryOf(q))
    requires At(view, SnapshotName(q.id, q.snapshotRevision)) == Some(SnapshotItem(q, result))
    ensures LoadQuery(view, KeyOf(QueryName(q.id)), current) == Ok(q) && SavedResult(view, q) == result
  {
    hide KeyOf, GoodQuery;
  }

  /** The query is stored as registered, with what its plan gives on the rows as they are. */
  ghost predicate Stores(rt: Runtime, w: World, view: View, after: View, current: nat, r: Registration) {
    var q := LoadQuery(after, KeyOf(QueryName(r.id)), current + 1);
    && q.Ok? && Registers(rt, w, q.value, r)
    && q.value.sourceRevision == current && q.value.snapshotRevision == current + 1
    && Computes(rt, w, view, r, SavedResult(after, q.value))
  }

  /** The query loads, as registered, and is bound in the process. */
  predicate Bound(rt: Runtime, w: World, n: World, after: View, current: nat, r: Registration) {
    var q := LoadQuery(after, KeyOf(QueryName(r.id)), current);
    q.Ok? && Registers(rt, w, q.value, r) && n.bound == w.bound[r.id := q.value]
  }

  /**
   A version that is stored already is left alone: it is bound if it names the same sources, plan and program, and is a
   conflict otherwise.
   */
  lemma QueryAgain(rt: Runtime, w: World, hist: History, r: Registration, o: Outcome)
    requires Lawful(rt) && WorldInv(rt, w, hist) && !Anew(ViewAfter(rt, hist), |hist.log|, r)
    ensures var e := QueryEvent(r, o);
            var (n, answer) := Step(rt, w, e);
            var q := LoadQuery(ViewAfter(rt, hist), KeyOf(QueryName(r.id)), |hist.log|).value;
            && StepHistory(rt, w, hist, e) == hist && n.store == w.store
            && (WellNamed(r) && Quiet(w) && w.program.Some? ==>
                  answer == if Registers(rt, w, q, r) then Ok(|hist.log|) else Err(Conflict))
            && (answer.Ok? ==> Bound(rt, w, n, ViewAfter(rt, hist), |hist.log|, r))
            && (answer.Err? ==> n == w)
  {
    hide WorldInv, Lawful, Decide, Step, StepHistory, LoadQuery, ViewAfter, KeyOf, Registers, WellNamed;
    var e := QueryEvent(r, o);
    QueryDecided(rt, w, hist, r, o);
    AnswerKeeps(rt, w, hist, e);
    assert w.(bound := w.bound) == w;
  }

  /**
   Any other version is evaluated on the rows of its sources and stored at the next revision with its result, or not at
   all; it is bound when that succeeds.
   */
  lemma QueryAnew(rt: Runtime, w: World, hist: History, r: Registration, o: Outcome)
    requires Lawful(rt) && WorldInv(rt, w, hist) && Anew(ViewAfter(rt, hist), |hist.log|, r)
    ensures var e := QueryEvent(r, o);
            var (n, answer) := Step(rt, w, e);
            var view, current, next := ViewAfter(rt, hist), |hist.log|, StepHistory(rt, w, hist, e);
            && (answer.Ok? ==> next.log != hist.log && answer.value == |next.log|)
            && (answer.Ok? ==> Bound(rt, w, n, ViewAfter(rt, next), |next.log|, r))
            && (answer.Err? ==> n.bound == w.bound)
            && (next.log != hist.log ==> |next.log| == current + 1 && Stores(rt, w, view, ViewAfter(rt, next), current, r))
  {
    hide WorldInv, Lawful, Decide, Step, StepHistory, LoadQuery, ViewAfter, KeyOf, PlanDigest, WellNamed, Written, Computes, Stores, Fresh;
    var e := QueryEvent(r, o);
    var view, current := ViewAfter(rt, hist), |hist.log|;
    QueryDecided(rt, w, hist, r, o);
    if Decide(rt, w, e).Answer? {
      AnswerKeeps(rt, w, hist, e);
      assert w.(bound := w.bound) == w;
    } else {
      WriteLands(rt, w, hist, e);
      QueryWritten(rt, w, hist, r, o);
      var result :| Computes(rt, w, view, r, result);
      FreshStored(rt, w, view, current, r, result);
    }
  }

  lemma FreshStored(rt: Runtime, w: World, view: View, current: nat, r: Registration, result: bytes)
    requires WellNamed(r) && Computes(rt, w, view, r, result)
    ensures var q := Fresh(rt, w.program.value, r, current);
            var after := Written(view, QueryItems(q, result));
            Stores(rt, w, view, after, current, r) && LoadQuery(after, KeyOf(QueryName(r.id)), current + 1) == Ok(q)
            && Registers(rt, w, q, r)
  {
    hide LoadQuery, KeyOf, Written, QueryItems, Inputs, PlanDigest, SavedResult;
    var q := Fresh(rt, w.program.value, r, current);
    QueryReads(view, current, q, result);
  }
}
