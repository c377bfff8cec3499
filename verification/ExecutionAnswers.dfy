/** What `execute` requires, calls, stores and answers, said without its checks: for one execution and over whole runs. */
module ExecutionAnswers {
  import opened Bytes
  import opened Payload
  import opened Journal
  import opened ReplayTheorems
  import opened Recovery
  import RecoveryRuns
  import opened Snapshots
  import opened Durable
  import opened Execution

  /** The plan is valid, and the authorization was granted for this capability, this plan and this path. */
  predicate Approved(q: Request) {
    && q.validPlan && q.authorization.authorized
    && q.authorization.capability == q.capability && q.authorization.digest == q.digest && q.pathMatches
  }

  predicate Quiet(w: World) { w.store.memory.Some? && w.store.memory.value.staged == [] }

  /** One revision that puts the receipt of a request with this status. */
  function Put(encode: Encoder, q: Request, status: Status, code: nat): seq<Mutation> {
    [Mutation(ReceiptKey(q.capability, q.digest), false,
              encode(Receipt(status, q.authorization.decision, q.capability, q.digest, code)))]
  }

  /** Succeeded for a code of 200 to 299, Failed for any other, Unknown when no reply came. */
  predicate Settles(reply: Reply, status: Status, code: nat) {
    && (status == Succeeded <==> reply.Code? && 200 <= reply.code <= 299)
    && (status == Status.Failed <==> reply.Code? && (reply.code < 200 || reply.code > 299))
    && (status == Unknown <==> reply.NoReply?)
    && code == if reply.Code? then reply.code else 0
  }

  lemma StatusSettles(reply: Reply)
    ensures Settles(reply, StatusOf(reply).0, StatusOf(reply).1)
  {}

  /** A request that is not approved is refused with its error, and the world and the log stay as they were. */
  lemma Refused(h: Hash, c: Canon, encode: Encoder, w: World, hist: History, q: Request, o: Outcome)
    requires WorldInv(h, c, encode, w, hist) && Faithful(c)
    requires !Approved(q) || !Quiet(w) || ReceiptKey(q.capability, q.digest) in Contents(hist)
    ensures var (n, r) := ExecuteStep(h, c, encode, w, q, o);
            && n == w && ExecuteHistory(h, c, encode, w, hist, q, o) == hist && r.Err?
            && (!Quiet(w) ==> r.error == InvalidState)
            && (Quiet(w) && !q.validPlan ==> r.error == Schema)
            && (Quiet(w) && q.validPlan && !Approved(q) ==> r.error == Error.Capability)
            && (Quiet(w) && Approved(q) ==>
                  var saved := c.form(Contents(hist)[ReceiptKey(q.capability, q.digest)]);
                  r.error == if saved.Ok? then Conflict else saved.error)
  {
    hide Inv, Contents, ReceiptKey, CommitBatch, BatchHistory, Announced, StagedForeign, ReceiptPut, StatusOf, Faithful;
    if w.store.memory.Some? {
      IndexIsContents(h, c, w.store, hist);
    }
  }

  /** The log after an execution: nothing more, the Pending receipt, or that and the final receipt. */
  ghost predicate Recorded(encode: Encoder, hist: History, next: History, q: Request, o: Outcome) {
    || next.log == hist.log
    || next.log == hist.log + [Put(encode, q, Pending, 0)]
    || exists status :: Final(encode, hist, next, q, o, status)
  }

  /** Both receipts: Pending, then the one that the reply settles. */
  ghost predicate Final(encode: Encoder, hist: History, next: History, q: Request, o: Outcome, status: Status) {
    exists code ::
      && Settles(o.reply, status, code)
      && next.log == hist.log + [Put(encode, q, Pending, 0)] + [Put(encode, q, status, code)]
  }

  /** The Pending receipt of the request can be committed, and the process lives until the call. */
  predicate Sends(h: Hash, encode: Encoder, w: World, q: Request, o: Outcome) {
    && Quiet(w) && !o.death.BeforeCall?
    && CommitBatch(h, w.store, Put(encode, q, Pending, 0), o.pending, o.pendingManifest).1.Ok?
  }

  /**
   An approved request without a receipt: the call is made just when its Pending receipt was committed and the process did not
   die before; the answer is the status that is stored last.
   */
  lemma Executed(h: Hash, c: Canon, encode: Encoder, w: World, hist: History, q: Request, o: Outcome)
    requires WorldInv(h, c, encode, w, hist) && WellFormed(q) && Execution.JsonText(c, encode) && Faithful(c)
    requires Approved(q) && Quiet(w) && ReceiptKey(q.capability, q.digest) !in Contents(hist)
    ensures var (n, r) := ExecuteStep(h, c, encode, w, q, o);
            var next := ExecuteHistory(h, c, encode, w, hist, q, o);
            && Recorded(encode, hist, next, q, o)
            && n.calls == w.calls + (if Sends(h, encode, w, q, o) then [Call(ReceiptKey(q.capability, q.digest), |hist.log| + 1)] else [])
            && (Sends(h, encode, w, q, o) ==> next.log != hist.log)
            && (r.Ok? ==> Sends(h, encode, w, q, o) && o.death.Alive? && Final(encode, hist, next, q, o, r.value))
  {
    hide Inv, Contents, ReceiptKey, CommitBatch, BatchHistory, Announced, StagedForeign, Faithful, Execution.JsonText, WellFormed, Writable, StatusOf, Settles, Openable;
    IndexIsContents(h, c, w.store, hist);
    var ms := Put(encode, q, Pending, 0);
    assert ms == ReceiptPut(encode, q, Pending, 0);
    var (s, committed) := CommitBatch(h, w.store, ms, o.pending, o.pendingManifest);
    var next := BatchHistory(h, c, w.store, hist, ms, o.pending, o.pendingManifest);
    ReceiptWritable(c, encode, q, Pending, 0);
    BatchKeeps(h, c, w.store, hist, ms, o.pending, o.pendingManifest);
    if committed.Ok? {
      IndexIsContents(h, c, s, next);
      if o.death.Alive? {
        var (status, code) := StatusOf(o.reply);
        StatusSettles(o.reply);
        assert Put(encode, q, status, code) == ReceiptPut(encode, q, status, code);
        ReceiptWritable(c, encode, q, status, code);
        BatchKeeps(h, c, s, next, ReceiptPut(encode, q, status, code), o.final, o.finalManifest);
        var last := BatchHistory(h, c, s, next, ReceiptPut(encode, q, status, code), o.final, o.finalManifest);
        if last.log == next.log + [ReceiptPut(encode, q, status, code)] {
          BothPut(encode, hist, next, last, q, o, status, code);
        }
      }
    }
  }

  lemma BothPut(encode: Encoder, hist: History, next: History, last: History, q: Request, o: Outcome, status: Status, code: nat)
    requires next.log == hist.log + [Put(encode, q, Pending, 0)] && last.log == next.log + [Put(encode, q, status, code)]
    requires Settles(o.reply, status, code)
    ensures Final(encode, hist, last, q, o, status)
  {
    hide Settles, Put;
  }

  /** After both commits the store holds the final receipt. */
  lemma FinalHeld(encode: Encoder, hist: History, next: History, q: Request, o: Outcome, status: Status)
    requires Final(encode, hist, next, q, o, status)
    ensures ReceiptKey(q.capability, q.digest) in Contents(next)
    ensures exists code :: Settles(o.reply, status, code)
              && Contents(next)[ReceiptKey(q.capability, q.digest)]
                 == encode(Receipt(status, q.authorization.decision, q.capability, q.digest, code))
  {
    hide Settles, ReceiptKey, Fold;
    var code :| Settles(o.reply, status, code)
      && next.log == hist.log + [Put(encode, q, Pending, 0)] + [Put(encode, q, status, code)];
    var ms := Put(encode, q, status, code);
    ContentsGrow(next.(log := next.log[..|next.log| - 1]), next, ms);
    var before := Contents(next.(log := next.log[..|next.log| - 1]));
    assert Apply(before, ms) == Apply(ApplyOne(before, ms[0]), ms[1..]);
  }

  // ----- whole runs

  /** One of the events is an execution of an approved request with the call's receipt key. */
  ghost predicate MadeBy(events: seq<Event>, call: Call) {
    exists i :: 0 <= i < |events| && Asks(events[i], call)
  }

  predicate Asks(e: Event, call: Call) {
    e.Execute? && Approved(e.request) && call.key == ReceiptKey(e.request.capability, e.request.digest)
  }

  /** An event adds at most one call, and only for an approved request. */
  lemma StepAsks(h: Hash, c: Canon, encode: Encoder, w: World, hist: History, e: Event)
    requires WorldInv(h, c, encode, w, hist) && Fair(c, e) && Faithful(c) && Execution.JsonText(c, encode)
    ensures var calls := Step(h, c, encode, w, e).calls;
            calls == w.calls || (|calls| == |w.calls| + 1 && calls[..|w.calls|] == w.calls && Asks(e, calls[|w.calls|]))
  {
    hide WorldInv, ExecuteStep, ExecuteHistory, Next, Typed, ForeignOp, WellFormed, Faithful, Execution.JsonText, Contents, Recorded,
         Final, Sends, ReceiptKey;
    if e.Execute? {
      var q, o := e.request, e.outcome;
      if !Approved(q) || !Quiet(w) || ReceiptKey(q.capability, q.digest) in Contents(hist) {
        Refused(h, c, encode, w, hist, q, o);
      } else {
        Executed(h, c, encode, w, hist, q, o);
      }
    }
  }

  lemma {:induction false} CallsAsked(h: Hash, c: Canon, encode: Encoder, w: World, hist: History, events: seq<Event>)
    requires WorldInv(h, c, encode, w, hist) && AllFair(c, events) && Faithful(c) && Execution.JsonText(c, encode)
    ensures forall call :: call in Run(h, c, encode, w, events).calls ==> call in w.calls || MadeBy(events, call)
    decreases |events|
  {
    hide WorldInv, Step, StepHistory, Fair, Faithful, Execution.JsonText, Asks;
    if events != [] {
      var (e, rest) := (events[0], events[1..]);
      assert forall i :: 0 <= i < |rest| ==> rest[i] == events[i + 1];
      var w1, h1 := Step(h, c, encode, w, e), StepHistory(h, c, encode, w, hist, e);
      assert Fair(c, e);
      StepKeeps(h, c, encode, w, hist, e);
      StepAsks(h, c, encode, w, hist, e);
      CallsAsked(h, c, encode, w1, h1, rest);
      forall call | call in Run(h, c, encode, w1, rest).calls ensures call in w.calls || MadeBy(events, call) {
        if MadeBy(rest, call) {
          var i :| 0 <= i < |rest| && Asks(rest[i], call);
          assert Asks(events[i + 1], call);
        } else {
          assert call in w1.calls;
          assert call !in w.calls ==> Asks(events[0], call);
        }
      }
    }
  }

  lemma StepKeeps(h: Hash, c: Canon, encode: Encoder, w: World, hist: History, e: Event)
    requires WorldInv(h, c, encode, w, hist) && Fair(c, e) && Faithful(c) && Execution.JsonText(c, encode)
    ensures WorldInv(h, c, encode, Step(h, c, encode, w, e), StepHistory(h, c, encode, w, hist, e))
  {
    hide WorldInv, ExecuteStep, ExecuteHistory, Next, NextHistory, Typed, ForeignOp, WellFormed, Faithful, Execution.JsonText;
    match e
    case Execute(q, o) => ExecuteKeeps(h, c, encode, w, hist, q, o);
    case Other(op) => OtherKeeps(h, c, encode, w, hist, op);
  }

  /** Over every run from empty files, whatever crashes and fails, nothing is sent that was not approved, and nothing twice. */
  lemma OnlyApproved(h: Hash, c: Canon, encode: Encoder, events: seq<Event>)
    requires AllFair(c, events) && Faithful(c) && Execution.JsonText(c, encode)
    ensures var calls := Run(h, c, encode, World(EMPTY, []), events).calls;
            && (forall call :: call in calls ==> MadeBy(events, call))
            && (forall i, j :: 0 <= i < j < |calls| ==> calls[i].key != calls[j].key)
  {
    hide Inv, Run, MadeBy, Announced;
    RecoveryRuns.EmptyInv(h, c);
    CallsAsked(h, c, encode, World(EMPTY, []), NOTHING, events);
    AtMostOnce(h, c, encode, events);
  }
}
