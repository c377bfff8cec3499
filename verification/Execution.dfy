/**
 Webhook execution (`execution.rs`): a durable Pending receipt, at most one transport call,
 a final receipt. A run interleaves executions, crashes at any point of them, reopens, and
 every other operation on the same store.
 */
module Execution {
  import opened Bytes
  import opened Payload
  import opened Journal
  import opened ReplayTheorems
  import opened Recovery
  import opened RecoveryRuns
  import opened Snapshots
  import opened Durable
  import opened Seqs
  import Store
  import Utf8

  /** "execution-receipt/" */
  const ROOT: bytes := [
    'e' as int, 'x' as int, 'e' as int, 'c' as int, 'u' as int, 't' as int, 'i' as int, 'o' as int, 'n' as int,
    '-' as int, 'r' as int, 'e' as int, 'c' as int, 'e' as int, 'i' as int, 'p' as int, 't' as int, '/' as int]

  datatype Status = Pending | Succeeded | Failed | Unknown

  datatype Authorization = Authorization(decision: nat, capability: bytes, digest: bytes, authorized: bool)

  datatype Receipt = Receipt(status: Status, decision: nat, capability: bytes, digest: bytes, httpStatus: nat)

  /** The canonical JSON text of a receipt. */
  type Encoder = Receipt -> bytes

  ghost predicate JsonText(c: Canon, encode: Encoder) { forall r :: NulFree(encode(r)) && c.written(encode(r)) }

  /** The plan, already validated, by its digest: 64 hexadecimal characters. */
  datatype Request = Request(
    capability: bytes, authorization: Authorization, digest: bytes, validPlan: bool, pathMatches: bool)

  function ReceiptKey(capability: bytes, digest: bytes): bytes { ROOT + (capability + (['/' as int] + digest)) }

  /** Capability ids hold no control character, and digests are hexadecimal. */
  predicate WellFormed(q: Request) {
    |q.digest| == 64 && NulFree(ReceiptKey(q.capability, q.digest)) && Utf8.Valid(ReceiptKey(q.capability, q.digest))
  }

  /** What the transport answers: an HTTP status, or an error. */
  datatype Reply = Code(code: nat) | NoReply

  /** Where the process dies, if it does. */
  datatype Death = Alive | BeforeCall | AfterCall

  datatype Outcome = Outcome(
    pending: Append, pendingManifest: Publication, reply: Reply, death: Death,
    final: Append, finalManifest: Publication)

  /** A call the transport received: its key and the revision that was current. */
  datatype Call = Call(key: bytes, revision: nat)

  datatype World = World(store: System, calls: seq<Call>)

  function StatusOf(reply: Reply): (Status, nat) {
    match reply
    case Code(code) => (if 200 <= code < 300 then Succeeded else Status.Failed, code)
    case NoReply => (Unknown, 0)
  }

  function ReceiptPut(encode: Encoder, q: Request, status: Status, httpStatus: nat): seq<Mutation> {
    [Mutation(ReceiptKey(q.capability, q.digest), false,
              encode(Receipt(status, q.authorization.decision, q.capability, q.digest, httpStatus)))]
  }

  /** The checks `execute` makes before it writes anything. */
  function Refusal(c: Canon, s: System, q: Request): Option<Error> {
    if !Clean(s) then Some(InvalidState) else
    if !q.validPlan then Some(Schema) else
    if !q.authorization.authorized || q.authorization.capability != q.capability
       || q.authorization.digest != q.digest || !q.pathMatches then Some(Error.Capability) else
    var (index, key) := (s.memory.value.index, ReceiptKey(q.capability, q.digest));
    if key !in index then None else if c.form(index[key]).Ok? then Some(Conflict) else Some(c.form(index[key]).error)
  }

  function ExecuteStep(h: Hash, c: Canon, encode: Encoder, w: World, q: Request, o: Outcome): (World, Result<Status>) {
    var refusal := Refusal(c, w.store, q);
    if refusal.Some? then (w, Err(refusal.value)) else
    var (s, committed) := CommitBatch(h, w.store, ReceiptPut(encode, q, Pending, 0), o.pending, o.pendingManifest);
    if committed.Err? then (World(s, w.calls), Err(committed.error)) else
    if o.death.BeforeCall? then (World(System(s.disk, None), w.calls), Err(Io)) else
    var calls := w.calls + [Call(ReceiptKey(q.capability, q.digest), s.memory.value.currentRev)];
    if o.death.AfterCall? then (World(System(s.disk, None), calls), Err(Io)) else
    var (status, code) := StatusOf(o.reply);
    var (t, final) := CommitBatch(h, s, ReceiptPut(encode, q, status, code), o.final, o.finalManifest);
    if final.Err? then (World(t, calls), Err(final.error)) else (World(t, calls), Ok(status))
  }

  function ExecuteHistory(h: Hash, c: Canon, encode: Encoder, w: World, hist: History, q: Request, o: Outcome): History {
    if Refusal(c, w.store, q).Some? then hist else
    var ms := ReceiptPut(encode, q, Pending, 0);
    var (s, committed) := CommitBatch(h, w.store, ms, o.pending, o.pendingManifest);
    var next := BatchHistory(h, c, w.store, hist, ms, o.pending, o.pendingManifest);
    if committed.Err? || !o.death.Alive? then next else
    var (status, code) := StatusOf(o.reply);
    BatchHistory(h, c, s, next, ReceiptPut(encode, q, status, code), o.final, o.finalManifest)
  }

  // ----- runs

  datatype Event = Execute(request: Request, outcome: Outcome) | Other(op: Op)

  function Step(h: Hash, c: Canon, encode: Encoder, w: World, e: Event): World {
    match e
    case Execute(q, o) => ExecuteStep(h, c, encode, w, q, o).0
    case Other(op) => World(Next(h, c, w.store, op).0, w.calls)
  }

  function StepHistory(h: Hash, c: Canon, encode: Encoder, w: World, hist: History, e: Event): History {
    match e
    case Execute(q, o) => ExecuteHistory(h, c, encode, w, hist, q, o)
    case Other(op) => NextHistory(h, c, w.store, hist, op)
  }

  function Run(h: Hash, c: Canon, encode: Encoder, w: World, events: seq<Event>): World
    decreases |events|
  {
    if events == [] then w else Run(h, c, encode, Step(h, c, encode, w, events[0]), events[1..])
  }

  function RunHistory(h: Hash, c: Canon, encode: Encoder, w: World, hist: History, events: seq<Event>): History
    decreases |events|
  {
    if events == [] then hist
    else RunHistory(h, c, encode, Step(h, c, encode, w, events[0]), StepHistory(h, c, encode, w, hist, events[0]), events[1..])
  }

  /** Nothing else writes the receipts; otherwise other users do what they like. */
  predicate Fair(c: Canon, e: Event) {
    match e
    case Execute(q, _) => WellFormed(q)
    case Other(op) => Typed(c, op) && ForeignOp(op, ROOT)
  }

  predicate AllFair(c: Canon, events: seq<Event>) { forall i :: 0 <= i < |events| ==> Fair(c, events[i]) }

  // ----- what every run keeps

  /** The revision a call was made at put its Pending receipt, and nothing else. */
  ghost predicate Announced(encode: Encoder, call: Call, log: Log) {
    && 0 < call.revision <= |log|
    && exists q: Request ::
         call.key == ReceiptKey(q.capability, q.digest) && log[call.revision - 1] == ReceiptPut(encode, q, Pending, 0)
  }

  ghost predicate WorldInv(h: Hash, c: Canon, encode: Encoder, w: World, hist: History) {
    && Inv(h, c, w.store, hist)
    && StagedForeign(w.store, ROOT)
    && (forall i :: 0 <= i < |w.calls| ==>
          w.calls[i].key in Contents(hist) && ROOT <= w.calls[i].key && Announced(encode, w.calls[i], hist.log))
    && (forall i, j :: 0 <= i < j < |w.calls| ==> w.calls[i].key != w.calls[j].key)
  }

  lemma CallsKept(encode: Encoder, calls: seq<Call>, hist: History, next: History)
    requires hist.log <= next.log
    requires forall i :: 0 <= i < |calls| ==>
               calls[i].key in Contents(hist) && ROOT <= calls[i].key && Announced(encode, calls[i], hist.log)
    requires SameOwned(Contents(hist), Contents(next), ROOT) || Contents(hist).Keys <= Contents(next).Keys
    ensures forall i :: 0 <= i < |calls| ==>
              calls[i].key in Contents(next) && ROOT <= calls[i].key && Announced(encode, calls[i], next.log)
  {
    hide Contents, ReceiptPut, ReceiptKey, ROOT;
    forall i | 0 <= i < |calls|
      ensures calls[i].key in Contents(next) && Announced(encode, calls[i], next.log)
    {
      assert next.log[calls[i].revision - 1] == hist.log[calls[i].revision - 1];
    }
  }

  /** Putting one receipt keeps every key and adds its own. */
  lemma PutContents(encode: Encoder, hist: History, next: History, q: Request, status: Status, code: nat)
    requires next.log == hist.log || next.log == hist.log + [ReceiptPut(encode, q, status, code)]
    ensures Contents(hist).Keys <= Contents(next).Keys
    ensures next.log != hist.log ==> ReceiptKey(q.capability, q.digest) in Contents(next)
    ensures hist.log <= next.log
  {
    hide ReceiptKey, Fold;
    if next.log != hist.log {
      var ms := ReceiptPut(encode, q, status, code);
      ContentsGrow(hist, next, ms);
      assert Apply(Contents(hist), ms) == Apply(ApplyOne(Contents(hist), ms[0]), ms[1..]);
    }
  }

  lemma ReceiptWritable(c: Canon, encode: Encoder, q: Request, status: Status, code: nat)
    requires WellFormed(q) && JsonText(c, encode)
    ensures Writable(c, ReceiptPut(encode, q, status, code))
  {
    hide Utf8.Valid, ROOT;
  }

  lemma KeyOwned(capability: bytes, digest: bytes)
    ensures ROOT <= ReceiptKey(capability, digest)
  {
    hide ROOT;
  }

  /** An execution makes at most one call, after its Pending receipt is durable and for a key that had none. */
  lemma ExecuteKeeps(h: Hash, c: Canon, encode: Encoder, w: World, hist: History, q: Request, o: Outcome)
    requires WorldInv(h, c, encode, w, hist) && WellFormed(q) && JsonText(c, encode) && Faithful(c)
    ensures WorldInv(h, c, encode, ExecuteStep(h, c, encode, w, q, o).0, ExecuteHistory(h, c, encode, w, hist, q, o))
    ensures hist.log <= ExecuteHistory(h, c, encode, w, hist, q, o).log
  {
    hide Inv, CommitBatch, BatchHistory, Contents, ReceiptPut, ReceiptKey, ROOT, JsonText, WellFormed, Writable, Announced,
         SameOwned, StatusOf, Foreign, Faithful, Openable;
    if Refusal(c, w.store, q).None? {
      var key := ReceiptKey(q.capability, q.digest);
      var ms := ReceiptPut(encode, q, Pending, 0);
      var (s, committed) := CommitBatch(h, w.store, ms, o.pending, o.pendingManifest);
      var next := BatchHistory(h, c, w.store, hist, ms, o.pending, o.pendingManifest);
      ReceiptWritable(c, encode, q, Pending, 0);
      BatchKeeps(h, c, w.store, hist, ms, o.pending, o.pendingManifest);
      PutContents(encode, hist, next, q, Pending, 0);
      CallsKept(encode, w.calls, hist, next);
      if committed.Ok? {
        IndexIsContents(h, c, w.store, hist);
        IndexIsContents(h, c, s, next);
        var call := Call(key, s.memory.value.currentRev);
        assert Announced(encode, call, next.log) by { CallAnnounced(encode, q, hist.log, next.log); }
        KeyOwned(q.capability, q.digest);
        NothingForeign();
        Disconnected(h, c, s, next);
        if o.death.Alive? {
          var (status, code) := StatusOf(o.reply);
          var last := BatchHistory(h, c, s, next, ReceiptPut(encode, q, status, code), o.final, o.finalManifest);
          ReceiptWritable(c, encode, q, status, code);
          BatchKeeps(h, c, s, next, ReceiptPut(encode, q, status, code), o.final, o.finalManifest);
          PutContents(encode, next, last, q, status, code);
          CallsKept(encode, w.calls + [call], next, last);
        }
      }
    }
  }

  lemma CallAnnounced(encode: Encoder, q: Request, log: Log, next: Log)
    requires next == log + [ReceiptPut(encode, q, Pending, 0)]
    ensures Announced(encode, Call(ReceiptKey(q.capability, q.digest), |next|), next)
  {
    hide ReceiptKey, ReceiptPut;
  }

  lemma NothingForeign()
    ensures Foreign([], ROOT)
  {}

  /** The process dies: the handle goes, the files stay. */
  lemma Disconnected(h: Hash, c: Canon, s: System, hist: History)
    requires Inv(h, c, s, hist)
    ensures Inv(h, c, System(s.disk, None), hist)
  {
    hide DiskInv, MemoryInv;
  }

  lemma OtherKeeps(h: Hash, c: Canon, encode: Encoder, w: World, hist: History, op: Op)
    requires WorldInv(h, c, encode, w, hist) && Typed(c, op) && ForeignOp(op, ROOT) && Faithful(c)
    ensures WorldInv(h, c, encode, World(Next(h, c, w.store, op).0, w.calls), NextHistory(h, c, w.store, hist, op))
    ensures hist.log <= NextHistory(h, c, w.store, hist, op).log
  {
    hide Inv, Next, NextHistory, Contents, Typed, ForeignOp, Faithful, ROOT, Announced, SameOwned, StagedForeign;
    ForeignStep(h, c, w.store, hist, op, ROOT);
    CallsKept(encode, w.calls, hist, NextHistory(h, c, w.store, hist, op));
  }

  lemma {:induction false} RunKeeps(h: Hash, c: Canon, encode: Encoder, w: World, hist: History, events: seq<Event>)
    requires WorldInv(h, c, encode, w, hist) && AllFair(c, events) && Faithful(c) && JsonText(c, encode)
    ensures WorldInv(h, c, encode, Run(h, c, encode, w, events), RunHistory(h, c, encode, w, hist, events))
    ensures hist.log <= RunHistory(h, c, encode, w, hist, events).log
    decreases |events|
  {
    hide WorldInv, ExecuteStep, ExecuteHistory, Next, NextHistory, Typed, ForeignOp, WellFormed, Faithful, JsonText;
    assert forall i :: 0 <= i < |events| - 1 ==> events[1..][i] == events[i + 1];
    if events != [] {
      match events[0] {
        case Execute(q, o) => ExecuteKeeps(h, c, encode, w, hist, q, o);
        case Other(op) => OtherKeeps(h, c, encode, w, hist, op);
      }
      RunKeeps(h, c, encode, Step(h, c, encode, w, events[0]), StepHistory(h, c, encode, w, hist, events[0]), events[1..]);
    }
  }

  /** A key names one capability and one plan digest. */
  lemma KeyInjective(q: Request, r: Request)
    requires |q.digest| == |r.digest| && ReceiptKey(q.capability, q.digest) == ReceiptKey(r.capability, r.digest)
    ensures q.capability == r.capability && q.digest == r.digest
  {
    hide ROOT;
    var a := q.capability + (['/' as int] + q.digest);
    var b := r.capability + (['/' as int] + r.digest);
    Peel(ROOT, a);
    Peel(ROOT, b);
    assert a == b && |q.capability| == |r.capability|;
    Peel(q.capability, ['/' as int] + q.digest);
    Peel(r.capability, ['/' as int] + r.digest);
    Peel(['/' as int], q.digest);
    Peel(['/' as int], r.digest);
  }

  /**
   At most one delivery. Over every run from empty files, whatever crashes and fails, no two calls
   are for the same receipt, each was made at the revision that put its Pending receipt, and
   every execution of a plan that was called is refused from then on without a call.
   */
  lemma AtMostOnce(h: Hash, c: Canon, encode: Encoder, events: seq<Event>)
    requires AllFair(c, events) && Faithful(c) && JsonText(c, encode)
    ensures var w := Run(h, c, encode, World(EMPTY, []), events);
            var log := RunHistory(h, c, encode, World(EMPTY, []), NOTHING, events).log;
            && (forall i, j :: 0 <= i < j < |w.calls| ==> w.calls[i].key != w.calls[j].key)
            && (forall i :: 0 <= i < |w.calls| ==> Announced(encode, w.calls[i], log))
  {
    hide Inv, Contents, Announced, Run, RunHistory;
    var w := World(EMPTY, []);
    EmptyInv(h, c);
    RunKeeps(h, c, encode, w, NOTHING, events);
  }

  /** A plan whose receipt is in the store, in any state, is refused and nothing changes. */
  lemma ReceiptRefuses(h: Hash, c: Canon, encode: Encoder, w: World, hist: History, q: Request, o: Outcome)
    requires WorldInv(h, c, encode, w, hist) && ReceiptKey(q.capability, q.digest) in Contents(hist) && Faithful(c)
    ensures var (n, r) := ExecuteStep(h, c, encode, w, q, o);
            n == w && r.Err? && (r.error == InvalidState || r.error == Schema || r.error == Error.Capability || r.error == Conflict
                                 || c.form(Contents(hist)[ReceiptKey(q.capability, q.digest)]) == Err(r.error))
  {
    hide Inv, Contents, ReceiptKey, CommitBatch, Announced;
    if w.store.memory.Some? {
      IndexIsContents(h, c, w.store, hist);
    }
  }

  /** Once committed, a receipt stays in the store through every later run. */
  lemma {:induction false} ReceiptStays(h: Hash, c: Canon, encode: Encoder, w: World, hist: History, events: seq<Event>, key: bytes)
    requires WorldInv(h, c, encode, w, hist) && AllFair(c, events) && Faithful(c) && JsonText(c, encode)
    requires ROOT <= key && key in Contents(hist)
    ensures key in Contents(RunHistory(h, c, encode, w, hist, events))
    decreases |events|
  {
    hide WorldInv, ExecuteStep, ExecuteHistory, Next, NextHistory, Typed, ForeignOp, WellFormed, Faithful, JsonText,
         Contents, ROOT;
    assert forall i :: 0 <= i < |events| - 1 ==> events[1..][i] == events[i + 1];
    if events != [] {
      assert Fair(c, events[0]);
      match events[0] {
        case Execute(q, o) =>
          ExecuteKeeps(h, c, encode, w, hist, q, o);
          ExecuteKeepsKeys(h, c, encode, w, hist, q, o);
        case Other(op) =>
          OtherKeeps(h, c, encode, w, hist, op);
          OtherKeepsKey(h, c, encode, w, hist, op, key);
      }
      ReceiptStays(h, c, encode, Step(h, c, encode, w, events[0]), StepHistory(h, c, encode, w, hist, events[0]), events[1..], key);
    }
  }

  lemma ExecuteKeepsKeys(h: Hash, c: Canon, encode: Encoder, w: World, hist: History, q: Request, o: Outcome)
    requires WorldInv(h, c, encode, w, hist) && WellFormed(q) && JsonText(c, encode)
    ensures Contents(hist).Keys <= Contents(ExecuteHistory(h, c, encode, w, hist, q, o)).Keys
  {
    hide Inv, CommitBatch, BatchHistory, Contents, ReceiptPut, ReceiptKey, JsonText, WellFormed, Writable, Announced, StatusOf, StagedForeign;
    if Refusal(c, w.store, q).None? {
      var ms := ReceiptPut(encode, q, Pending, 0);
      var (s, committed) := CommitBatch(h, w.store, ms, o.pending, o.pendingManifest);
      var next := BatchHistory(h, c, w.store, hist, ms, o.pending, o.pendingManifest);
      ReceiptWritable(c, encode, q, Pending, 0);
      BatchKeeps(h, c, w.store, hist, ms, o.pending, o.pendingManifest);
      PutContents(encode, hist, next, q, Pending, 0);
      if committed.Ok? && o.death.Alive? {
        var (status, code) := StatusOf(o.reply);
        var last := BatchHistory(h, c, s, next, ReceiptPut(encode, q, status, code), o.final, o.finalManifest);
        ReceiptWritable(c, encode, q, status, code);
        BatchKeeps(h, c, s, next, ReceiptPut(encode, q, status, code), o.final, o.finalManifest);
        PutContents(encode, next, last, q, status, code);
      }
    }
  }

  lemma OtherKeepsKey(h: Hash, c: Canon, encode: Encoder, w: World, hist: History, op: Op, key: bytes)
    requires WorldInv(h, c, encode, w, hist) && Typed(c, op) && ForeignOp(op, ROOT) && Faithful(c)
    requires ROOT <= key && key in Contents(hist)
    ensures key in Contents(NextHistory(h, c, w.store, hist, op))
  {
    hide Inv, Next, NextHistory, Contents, Typed, ForeignOp, Faithful, ROOT, Announced, StagedForeign;
    ForeignStep(h, c, w.store, hist, op, ROOT);
  }

  // ----- the operations on a handle

  /** The other side of the webhook: it counts what it receives. */
  class Transport {
    var calls: seq<Call>

    constructor ()
      ensures calls == []
    {
      calls := [];
    }

    method Post(call: Call, reply: Reply) returns (r: Reply)
      modifies this
      ensures calls == old(calls) + [call] && r == reply
    {
      calls := calls + [call];
      return reply;
    }
  }

  /** `commit_receipt`: any failure closes the handle. */
  method CommitReceipt(store: Store.Handle, key: bytes, value: bytes, a: Append, p: Publication) returns (r: Result<nat>)
    requires store.open && store.staged == [] && key != [] && Utf8.Valid(key) && NulFree(value) && store.c.written(value)
    modifies store, store.files
    ensures (store.System(), r) == CommitBatch(store.h, old(store.System()), [Mutation(key, false, value)], a, p)
    ensures r.Ok? ==> store.open && store.staged == []
  {
    hide CommitStep, Utf8.Valid;
    ghost var before := store.System();
    r := store.Stage(key, Some(value));
    assert [] + [Mutation(key, false, value)] == [Mutation(key, false, value)];
    assert store.System() == WithStaged(before, [Mutation(key, false, value)]);
    r := store.Commit(a, p);
    CommitClears(store.h, WithStaged(before, [Mutation(key, false, value)]), a, p);
    if r.Err? {
      var _ := store.Close();
    }
  }

  /** `execute`, dying where `o.death` says. */
  method Execute(store: Store.Handle, encode: Encoder, transport: Transport, q: Request, o: Outcome)
    returns (r: Result<Status>)
    requires WellFormed(q) && JsonText(store.c, encode)
    modifies store, store.files, transport
    ensures (World(store.System(), transport.calls), r)
         == ExecuteStep(store.h, store.c, encode, old(World(store.System(), transport.calls)), q, o)
  {
    hide CommitBatch, ReceiptKey, Utf8.Valid;
    if !store.open || store.staged != [] {
      return Err(InvalidState);
    }
    if !q.validPlan {
      return Err(Schema);
    }
    if !q.authorization.authorized || q.authorization.capability != q.capability
       || q.authorization.digest != q.digest || !q.pathMatches {
      return Err(Error.Capability);
    }
    var key := ReceiptKey(q.capability, q.digest);
    if key in store.index {
      var saved := store.c.form(store.index[key]);
      return Err(if saved.Ok? then Conflict else saved.error);
    }
    assert key != [] by { KeyOwned(q.capability, q.digest); }
    var value := encode(Receipt(Pending, q.authorization.decision, q.capability, q.digest, 0));
    var committed := CommitReceipt(store, key, value, o.pending, o.pendingManifest);
    if committed.Err? {
      return Err(committed.error);
    }
    if o.death.BeforeCall? {
      var _ := store.Close();
      return Err(Io);
    }
    var reply := transport.Post(Call(key, store.currentRev), o.reply);
    if o.death.AfterCall? {
      var _ := store.Close();
      return Err(Io);
    }
    var (status, code) := StatusOf(reply);
    value := encode(Receipt(status, q.authorization.decision, q.capability, q.digest, code));
    committed := CommitReceipt(store, key, value, o.final, o.finalManifest);
    return if committed.Err? then Err(committed.error) else Ok(status);
  }
}
