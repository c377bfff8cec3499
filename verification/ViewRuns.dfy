/** Dataset views over whole runs: every saved query result is a fresh evaluation, and batches apply once. */
module ViewRuns {
  import opened Bytes
  import opened Payload
  import opened Journal
  import opened ReplayTheorems
  import opened Recovery
  import RecoveryRuns
  import opened Durable
  import opened BatchUpdate
  import opened DatasetKeys
  import opened Snapshots
  import opened Views
  import opened ViewLog

  function ViewAfter(rt: Runtime, hist: History): View { Decoded(rt, Contents(hist)) }

  ghost predicate WorldInv(rt: Runtime, w: World, hist: History) {
    && Inv(rt.h, rt.c, w.store, hist) && StagedForeign(w.store, ROOT)
    && Consistent(rt, ViewAfter(rt, hist), |hist.log|)
  }

  /** What an open store reads is what its log says. */
  lemma SameView(rt: Runtime, s: System, hist: History)
    requires Lawful(rt) && Inv(rt.h, rt.c, s, hist) && s.memory.Some?
    ensures ViewOf(rt, s) == ViewAfter(rt, hist) && s.memory.value.currentRev == |hist.log|
  {
    hide Inv, Contents, Faithful;
    IndexIsContents(rt.h, rt.c, s, hist);
  }

  lemma WriteNeedsOpen(rt: Runtime, w: World, e: Event)
    requires Dataset(e) && Decide(rt, w, e).Write?
    ensures Clean(w.store)
  {
    hide KeyOf, LoadQuery, Inputs, Refresh, GoodBatch, GoodQuery, GoodId, RowsAfter, QueryKeysOf, PlanDigest, ApplyItems, ViewOf;
  }

  // ----- each decision keeps the contents consistent

  lemma SourceKeeps(rt: Runtime, w: World, view: View, current: nat, id: bytes)
    requires Consistent(rt, view, current) && SourceDecision(w, view, id).Write?
    ensures Consistent(rt, Written(view, SourceDecision(w, view, id).items), current + 1)
  {
    hide KeyOf, Consistent, Written, GoodId;
    SourceEffect(rt, view, current, id);
  }

  lemma QueryKeeps(rt: Runtime, w: World, view: View, current: nat, r: Registration)
    requires Consistent(rt, view, current) && QueryDecision(rt, w, view, r).Write?
    requires w.store.memory.Some? && w.store.memory.value.currentRev == current
    ensures Consistent(rt, Written(view, QueryDecision(rt, w, view, r).items), current + 1)
  {
    hide KeyOf, Consistent, Written, GoodId, LoadQuery, Inputs, PlanDigest, QueryItems, Held;
    var digest := PlanDigest(rt.h, w.program.value, r.plan);
    var inputs := Inputs(view, r.sources, None).value;
    var result := rt.run(w.program.value, r.plan, inputs).value;
    var q := Query(r.id, r.sources, r.plan, r.version, digest, current, current + 1);
    QueryEffect(rt, view, current, w.program.value, q, inputs, result);
  }

  lemma ApplyKeeps(rt: Runtime, w: World, view: View, current: nat, b: Batched)
    requires Consistent(rt, view, current) && ApplyDecision(rt, w, view, b).Write?
    requires w.store.memory.Some? && w.store.memory.value.currentRev == current
    ensures Consistent(rt, Written(view, ApplyDecision(rt, w, view, b).items), current + 1)
  {
    hide KeyOf, Consistent, Written, GoodBatch, Refresh, QueryKeysOf, ApplyItems, RowsAfter, SoundRows, Held;
    var rows := SourceRows(view, b.source).value;
    var changed := RowsAfter(rows, b.changes).value;
    SourceSound(view, b.source);
    BatchSound(rows, b);
    ApplyEffect(rt, w, view, b, changed, Refresh(rt, w, view, QueryKeysOf(view), Input(b.source, changed), current).value, current);
  }

  lemma SourceSound(view: View, id: bytes)
    requires SourceRows(view, id).Ok?
    ensures SoundRows(SourceRows(view, id).value)
  {
    hide SoundRows;
  }

  lemma DecisionKeeps(rt: Runtime, w: World, hist: History, e: Event)
    requires Lawful(rt) && WorldInv(rt, w, hist) && Dataset(e) && Decide(rt, w, e).Write?
    ensures Clean(w.store)
    ensures Consistent(rt, Written(ViewAfter(rt, hist), Decide(rt, w, e).items), |hist.log| + 1)
  {
    hide Inv, StagedForeign, Consistent, Written, Lawful, SourceDecision, QueryDecision, ApplyDecision, ViewAfter, ViewOf;
    WriteNeedsOpen(rt, w, e);
    SameView(rt, w.store, hist);
    var (view, current) := (ViewAfter(rt, hist), |hist.log|);
    match e {
      case SourceEvent(id, _) => SourceKeeps(rt, w, view, current, id);
      case QueryEvent(r, _) => QueryKeeps(rt, w, view, current, r);
      case ApplyEvent(b, _) => ApplyKeeps(rt, w, view, current, b);
    }
  }

  // ----- carrying decisions out

  lemma {:induction false} PutsWritable(rt: Runtime, items: seq<Item>)
    requires Lawful(rt) && PutFault(rt, items).None?
    ensures Writable(rt.c, Puts(rt, items))
  {
    hide KeyOf;
    if items != [] {
      PutsWritable(rt, items[1..]);
      KeyWritable(items[0].name);
    }
  }

  lemma WrittenContents(rt: Runtime, hist: History, next: History, items: seq<Item>)
    requires Lawful(rt) && PutFault(rt, items).None? && next.log == hist.log + [Puts(rt, items)]
    ensures ViewAfter(rt, next) == Written(ViewAfter(rt, hist), items)
  {
    hide Contents, Lawful, Written;
    ContentsGrow(hist, next, Puts(rt, items));
    DecodedWritten(rt, Contents(hist), items);
  }

  /** A dataset operation keeps everything, whether its commit lands or not. */
  lemma CarryKeeps(rt: Runtime, w: World, hist: History, e: Event)
    requires Lawful(rt) && WorldInv(rt, w, hist) && Dataset(e)
    ensures var d := Decide(rt, w, e);
            && WorldInv(rt, Carry(rt, w, d, e.outcome).0, CarryHistory(rt, w, hist, d, e.outcome))
            && hist.log <= CarryHistory(rt, w, hist, d, e.outcome).log
  {
    hide Inv, Consistent, Written, Lawful, Decide, CommitBatch, BatchHistory, Contents, Decoded, Foreign;
    var d := Decide(rt, w, e);
    if d.Write? {
      DecisionKeeps(rt, w, hist, e);
    }
    if Commits(rt, w, d) {
      var ms := Puts(rt, d.items);
      PutsWritable(rt, d.items);
      FaithfulOf(rt);
      BatchKeeps(rt.h, rt.c, w.store, hist, ms, e.outcome.record, e.outcome.manifest);
      var next := BatchHistory(rt.h, rt.c, w.store, hist, ms, e.outcome.record, e.outcome.manifest);
      if next.log == hist.log + [ms] {
        WrittenContents(rt, hist, next, d.items);
      } else {
        SameContentsOf(rt, hist, next);
      }
      NothingForeign();
    }
  }

  lemma SameContentsOf(rt: Runtime, hist: History, next: History)
    requires next.log == hist.log
    ensures ViewAfter(rt, next) == ViewAfter(rt, hist)
  {
    hide Fold, Decoded;
  }

  lemma FaithfulOf(rt: Runtime)
    requires Lawful(rt)
    ensures Faithful(rt.c)
  {}

  lemma NothingForeign()
    ensures Foreign([], ROOT)
  {}

  lemma OwnedSame(rt: Runtime, a: Index, b: Index)
    requires SameOwned(a, b, ROOT)
    ensures forall name :: ViewLog.SameAt(Decoded(rt, a), Decoded(rt, b), name)
  {
    hide KeyOf, ROOT;
    forall name ensures ViewLog.SameAt(Decoded(rt, a), Decoded(rt, b), name) {
      KeyOwned(name);
    }
  }

  lemma OtherKeeps(rt: Runtime, w: World, hist: History, op: Op)
    requires Lawful(rt) && WorldInv(rt, w, hist) && Fair(rt, Other(op))
    ensures var next := NextHistory(rt.h, rt.c, w.store, hist, op);
            && WorldInv(rt, w.(store := Next(rt.h, rt.c, w.store, op).0), next)
            && hist.log <= next.log
            && (forall name :: ViewLog.SameAt(ViewAfter(rt, hist), ViewAfter(rt, next), name))
  {
    hide Inv, Next, NextHistory, Typed, ForeignOp, ROOT, Consistent, Contents, Lawful, SameOwned, StagedForeign, Decoded, ViewLog.SameAt;
    FaithfulOf(rt);
    ForeignStep(rt.h, rt.c, w.store, hist, op, ROOT);
    var next := NextHistory(rt.h, rt.c, w.store, hist, op);
    OwnedSame(rt, Contents(hist), Contents(next));
    SameKeeps(rt, ViewAfter(rt, hist), ViewAfter(rt, next), |hist.log|, |next.log|);
  }

  lemma RestartKeeps(rt: Runtime, w: World, hist: History, program: Option<bytes>)
    requires WorldInv(rt, w, hist)
    ensures WorldInv(rt, World(System(w.store.disk, None), map[], program), hist)
  {
    hide DiskInv, MemoryInv, Consistent, ViewAfter;
  }

  lemma StepKeeps(rt: Runtime, w: World, hist: History, e: Event)
    requires Lawful(rt) && WorldInv(rt, w, hist)
    requires Fair(rt, e)
    ensures WorldInv(rt, Step(rt, w, e).0, StepHistory(rt, w, hist, e))
    ensures hist.log <= StepHistory(rt, w, hist, e).log
  {
    hide WorldInv, Decide, Carry, CarryHistory, Next, NextHistory, Typed, ForeignOp, Lawful;
    match e
    case Restart(program) => RestartKeeps(rt, w, hist, program);
    case Other(op) => OtherKeeps(rt, w, hist, op);
    case _ => CarryKeeps(rt, w, hist, e);
  }

  lemma {:induction false} RunKeeps(rt: Runtime, w: World, hist: History, events: seq<Event>)
    requires Lawful(rt) && WorldInv(rt, w, hist) && AllFair(rt, events)
    ensures WorldInv(rt, Run(rt, w, events), RunHistory(rt, w, hist, events))
    ensures hist.log <= RunHistory(rt, w, hist, events).log
    decreases |events|
  {
    hide WorldInv, Step, StepHistory, Lawful, Typed, ForeignOp;
    if events != [] {
      assert Fair(rt, events[0]) && forall i :: 0 <= i < |events[1..]| ==> events[1..][i] == events[i + 1];
      StepKeeps(rt, w, hist, events[0]);
      RunKeeps(rt, Step(rt, w, events[0]).0, StepHistory(rt, w, hist, events[0]), events[1..]);
    }
  }

  lemma StartInv(rt: Runtime, w: World)
    requires w.store == EMPTY
    ensures WorldInv(rt, w, NOTHING)
  {
    hide Inv;
    RecoveryRuns.EmptyInv(rt.h, rt.c);
  }

  // ----- the theorems

  /** No other program has this program's digest for the plan. */
  ghost predicate SoleProgram(h: Hash, program: bytes, plan: bytes) {
    forall other {:trigger PlanDigest(h, other, plan)} :: PlanDigest(h, other, plan) == PlanDigest(h, program, plan) ==> other == program
  }

  /**
   View consistency. After any run from empty files (registrations, rebindings, batches, new processes
   with other programs, crashes and failed commits anywhere), the record of every query in the store
   loads, and its saved result is what its plan, run afresh on the current contents of its sources, gives.
   */
  lemma ViewConsistency(rt: Runtime, start: World, events: seq<Event>, id: bytes, program: bytes)
    requires Lawful(rt) && start.store == EMPTY && AllFair(rt, events)
    requires Held(ViewAfter(rt, RunHistory(rt, start, NOTHING, events)), QueryName(id))
    ensures var hist := RunHistory(rt, start, NOTHING, events);
            var view := ViewAfter(rt, hist);
            var q := LoadQuery(view, KeyOf(QueryName(id)), |hist.log|);
            && q.Ok? && q.value.id == id && q.value.snapshotRevision <= |hist.log|
            && Inputs(view, q.value.sources, None).Ok?
            && (PlanDigest(rt.h, program, q.value.plan) == q.value.digest && SoleProgram(rt.h, program, q.value.plan) ==>
                  rt.run(program, q.value.plan, Inputs(view, q.value.sources, None).value) == Ok(SavedResult(view, q.value)))
  {
    hide Inv, AllFair, Lawful, Run, RunHistory, LoadQuery, Inputs, Evaluated, Held, PlanDigest, SavedResult, KeyOf, ViewAfter, StagedForeign;
    StartInv(rt, start);
    RunKeeps(rt, start, NOTHING, events);
    var hist := RunHistory(rt, start, NOTHING, events);
    var view := ViewAfter(rt, hist);
    assert QueryOk(rt, view, |hist.log|, id);
    LoadedId(view, |hist.log|, id);
    var q := LoadQuery(view, KeyOf(QueryName(id)), |hist.log|).value;
    SoleEvaluated(rt, q, Inputs(view, q.sources, None).value, SavedResult(view, q), program);
  }

  lemma SoleEvaluated(rt: Runtime, q: Query, inputs: seq<Input>, result: bytes, program: bytes)
    requires Evaluated(rt, q, inputs, result)
    ensures PlanDigest(rt.h, program, q.plan) == q.digest && SoleProgram(rt.h, program, q.plan) ==>
              rt.run(program, q.plan, inputs) == Ok(result)
  {
    hide PlanDigest;
  }

  /**
   Nothing is left stale: when a batch commits, every registered query that reads the source was bound, with
   the record in the store, in this process and to the running program, and its record moves to the new revision.
   */
  lemma NothingStale(rt: Runtime, w: World, hist: History, b: Batched, o: Outcome, id: bytes)
    requires Lawful(rt) && WorldInv(rt, w, hist) && Held(ViewAfter(rt, hist), QueryName(id))
    requires Decide(rt, w, ApplyEvent(b, o)).Write? && Step(rt, w, ApplyEvent(b, o)).1.Ok?
    ensures var q := LoadQuery(ViewAfter(rt, hist), KeyOf(QueryName(id)), |hist.log|);
            && q.Ok?
            && (b.source in q.value.sources ==>
                  && id in w.bound && w.bound[id] == q.value
                  && w.program.Some? && PlanDigest(rt.h, w.program.value, q.value.plan) == q.value.digest
                  && Step(rt, w, ApplyEvent(b, o)).1 == Ok(|hist.log| + 1)
                  && At(ViewAfter(rt, StepHistory(rt, w, hist, ApplyEvent(b, o))), QueryName(id))
                     == Some(QueryOf(q.value.(sourceRevision := |hist.log| + 1, snapshotRevision := |hist.log| + 1))))
  {
    hide Inv, Lawful, Consistent, LoadQuery, Inputs, Held, PlanDigest, KeyOf, StagedForeign, Refresh, QueryKeysOf, ApplyItems,
         GoodBatch, CommitBatch, BatchHistory, RowsAfter, SoundRows, Written, At, ViewAfter, ViewOf, SourceRows;
    var e := ApplyEvent(b, o);
    var view, current := ViewAfter(rt, hist), |hist.log|;
    WriteNeedsOpen(rt, w, e);
    SameView(rt, w.store, hist);
    var changed := RowsAfter(SourceRows(view, b.source).value, b.changes).value;
    var rs := Refresh(rt, w, view, QueryKeysOf(view), Input(b.source, changed), current).value;
    var items := ApplyItems(rt, b, changed, rs, current + 1);
    assert Decide(rt, w, e) == Write(items, Rebind(w.bound, rs, current + 1));
    Scanned(view, id);
    RefreshAll(rt, w, view, QueryKeysOf(view), Input(b.source, changed), current, id);
    LoadedId(view, current, id);
    Landed(rt, w, hist, items, o);
    AppliedAt(rt, view, b, changed, rs, current + 1, QueryName(id));
    LookupRefreshed(rs, current + 1, QueryName(id));
  }

  /** What a commit that reports success leaves. */
  lemma Landed(rt: Runtime, w: World, hist: History, items: seq<Item>, o: Outcome)
    requires Lawful(rt) && Inv(rt.h, rt.c, w.store, hist) && w.store.memory.Some?
    requires PutFault(rt, items).None? && CommitBatch(rt.h, w.store, Puts(rt, items), o.record, o.manifest).1.Ok?
    ensures CommitBatch(rt.h, w.store, Puts(rt, items), o.record, o.manifest).1 == Ok(|hist.log| + 1)
    ensures ViewAfter(rt, BatchHistory(rt.h, rt.c, w.store, hist, Puts(rt, items), o.record, o.manifest))
         == Written(ViewAfter(rt, hist), items)
  {
    hide Inv, Lawful, Written, CommitBatch, BatchHistory, ViewAfter;
    PutsWritable(rt, items);
    FaithfulOf(rt);
    BatchKeeps(rt.h, rt.c, w.store, hist, Puts(rt, items), o.record, o.manifest);
    WrittenContents(rt, hist, BatchHistory(rt.h, rt.c, w.store, hist, Puts(rt, items), o.record, o.manifest), items);
  }

  // ----- batches apply once

  /** No operation writes a batch receipt that is already there. */
  lemma DecisionKeepsReceipts(rt: Runtime, w: World, view: View, e: Event, name: Name)
    requires Dataset(e) && name.BatchName? && Held(view, name)
    requires view == ViewOf(rt, w.store) && Decide(rt, w, e).Write?
    ensures ViewLog.SameAt(view, Written(view, Decide(rt, w, e).items), name)
  {
    hide KeyOf, LoadQuery, Inputs, Held, At, Written, PlanDigest, Refresh, QueryKeysOf, ApplyItems, RowsAfter, SoundRows, GoodBatch, GoodId,
         ViewOf, QueryItems, SourceRows;
    WrittenAt(view, Decide(rt, w, e).items, name);
    match e {
      case SourceEvent(id, _) =>
      case QueryEvent(r, _) =>
        var current := w.store.memory.value.currentRev;
        var q := Query(r.id, r.sources, r.plan, r.version, PlanDigest(rt.h, w.program.value, r.plan), current, current + 1);
        LookupQuery(q, rt.run(w.program.value, r.plan, Inputs(view, r.sources, None).value).value, name);
      case ApplyEvent(b, _) =>
        var current := w.store.memory.value.currentRev;
        var rows := RowsAfter(SourceRows(view, b.source).value, b.changes).value;
        var rs := Refresh(rt, w, view, QueryKeysOf(view), Input(b.source, rows), current).value;
        AppliedAt(rt, view, b, rows, rs, current + 1, name);
        LookupRefreshed(rs, current + 1, name);
    }
  }

  lemma StepKeepsReceipts(rt: Runtime, w: World, hist: History, e: Event, name: Name)
    requires Lawful(rt) && WorldInv(rt, w, hist) && name.BatchName? && Held(ViewAfter(rt, hist), name)
    requires Fair(rt, e)
    ensures ViewLog.SameAt(ViewAfter(rt, hist), ViewAfter(rt, StepHistory(rt, w, hist, e)), name)
  {
    hide Inv, Lawful, Consistent, StagedForeign, Typed, ForeignOp, Next, NextHistory, CommitBatch, BatchHistory, Held, At,
         ViewAfter, ViewOf, SourceDecision, QueryDecision, ApplyDecision, Written;
    match e
    case Restart(_) =>
    case Other(op) => OtherKeeps(rt, w, hist, op);
    case _ =>
      var d := Decide(rt, w, e);
      if Commits(rt, w, d) {
        SameView(rt, w.store, hist);
        DecisionKeepsReceipts(rt, w, ViewAfter(rt, hist), e, name);
        PutsWritable(rt, d.items);
        FaithfulOf(rt);
        BatchKeeps(rt.h, rt.c, w.store, hist, Puts(rt, d.items), e.outcome.record, e.outcome.manifest);
        var next := CarryHistory(rt, w, hist, d, e.outcome);
        if next.log == hist.log {
          SameContentsOf(rt, hist, next);
        } else {
          WrittenContents(rt, hist, next, d.items);
        }
      }
  }

  lemma {:induction false} ReceiptStays(rt: Runtime, w: World, hist: History, events: seq<Event>, name: Name)
    requires Lawful(rt) && WorldInv(rt, w, hist) && AllFair(rt, events)
    requires name.BatchName? && Held(ViewAfter(rt, hist), name)
    ensures ViewLog.SameAt(ViewAfter(rt, hist), ViewAfter(rt, RunHistory(rt, w, hist, events)), name)
    decreases |events|
  {
    hide WorldInv, Step, StepHistory, Lawful, Typed, ForeignOp, Held, At, ViewAfter;
    if events != [] {
      assert Fair(rt, events[0]) && forall i :: 0 <= i < |events[1..]| ==> events[1..][i] == events[i + 1];
      StepKeeps(rt, w, hist, events[0]);
      StepKeepsReceipts(rt, w, hist, events[0], name);
      ReceiptStays(rt, Step(rt, w, events[0]).0, StepHistory(rt, w, hist, events[0]), events[1..], name);
    }
  }

  /** A batch that was answered `Ok` has a receipt that says what it was and at which revision it was applied. */
  lemma AppliedReceipt(rt: Runtime, w: World, hist: History, b: Batched, o: Outcome)
    requires Lawful(rt) && WorldInv(rt, w, hist) && Step(rt, w, ApplyEvent(b, o)).1.Ok?
    ensures var r := Step(rt, w, ApplyEvent(b, o)).1.value;
            var view := ViewAfter(rt, StepHistory(rt, w, hist, ApplyEvent(b, o)));
            && r <= MAX_SAFE && Held(view, BatchName(b.source, b.id))
            && At(view, BatchName(b.source, b.id)) == Some(ReceiptOf(b.source, BatchDigest(rt, b), r))
  {
    hide Inv, Lawful, Consistent, StagedForeign, Held, At, PlanDigest, KeyOf, Refresh, QueryKeysOf, ApplyItems, Inputs,
         GoodBatch, CommitBatch, BatchHistory, RowsAfter, SoundRows, Written, ViewAfter, ViewOf, SourceRows, BatchDigest;
    var e := ApplyEvent(b, o);
    assert w.store.memory.Some?;
    SameView(rt, w.store, hist);
    var view, current := ViewAfter(rt, hist), |hist.log|;
    if Decide(rt, w, e).Write? {
      var rows := RowsAfter(SourceRows(view, b.source).value, b.changes).value;
      var rs := Refresh(rt, w, view, QueryKeysOf(view), Input(b.source, rows), current).value;
      var items := ApplyItems(rt, b, rows, rs, current + 1);
      assert Decide(rt, w, e) == Write(items, Rebind(w.bound, rs, current + 1));
      Landed(rt, w, hist, items, o);
      AppliedAt(rt, view, b, rows, rs, current + 1, BatchName(b.source, b.id));
    }
  }

  /**
   A batch applies once: after it was answered with a revision, the same batch, sent again after any
   run of other operations, crashes and restarts, answers that same revision and changes nothing.
   */
  lemma AppliedOnce(
    rt: Runtime, w: World, hist: History, b: Batched, o: Outcome, events: seq<Event>, expected: nat, again: Outcome)
    requires Lawful(rt) && WorldInv(rt, w, hist) && Step(rt, w, ApplyEvent(b, o)).1.Ok? && GoodBatch(b.(expected := expected))
    requires AllFair(rt, events)
    requires Clean(Run(rt, Step(rt, w, ApplyEvent(b, o)).0, events).store)
    ensures var after := Run(rt, Step(rt, w, ApplyEvent(b, o)).0, events);
            Step(rt, after, ApplyEvent(b.(expected := expected), again)) == (after, Step(rt, w, ApplyEvent(b, o)).1)
  {
    hide WorldInv, Lawful, Decide, Carry, CarryHistory, Held, At, AllFair, Run, RunHistory, ViewAfter, GoodBatch;
    var e := ApplyEvent(b, o);
    var w1, h1 := Step(rt, w, e).0, StepHistory(rt, w, hist, e);
    StepKeeps(rt, w, hist, e);
    AppliedReceipt(rt, w, hist, b, o);
    ReceiptStays(rt, w1, h1, events, BatchName(b.source, b.id));
    RunKeeps(rt, w1, h1, events);
    TextFits(rt, w, b, o);
    Again(rt, Run(rt, w1, events), RunHistory(rt, w1, h1, events), b.(expected := expected), again, Step(rt, w, e).1.value);
  }

  lemma TextFits(rt: Runtime, w: World, b: Batched, o: Outcome)
    requires Step(rt, w, ApplyEvent(b, o)).1.Ok?
    ensures |rt.text(b.changes)| <= MAX_PAYLOAD
  {
    hide ViewOf, Held, Refresh, Inputs, SourceRows, RowsAfter, GoodBatch, QueryKeysOf, CommitBatch, Repeated;
  }

  lemma Again(rt: Runtime, w: World, hist: History, b: Batched, o: Outcome, r: nat)
    requires Lawful(rt) && WorldInv(rt, w, hist) && Clean(w.store) && GoodBatch(b) && r <= MAX_SAFE
    requires |rt.text(b.changes)| <= MAX_PAYLOAD && Held(ViewAfter(rt, hist), BatchName(b.source, b.id))
    requires At(ViewAfter(rt, hist), BatchName(b.source, b.id)) == Some(ReceiptOf(b.source, BatchDigest(rt, b), r))
    ensures Step(rt, w, ApplyEvent(b, o)) == (w, Ok(r))
  {
    hide Inv, Lawful, Consistent, StagedForeign, Held, At, GoodBatch, Refresh, Inputs, SourceRows, RowsAfter, QueryKeysOf, ApplyItems,
         CommitBatch, ViewAfter, ViewOf, BatchDigest;
    SameView(rt, w.store, hist);
  }
}
