/** The inbox over whole runs: every log its operations write, with crashes anywhere, is ordered. */
module InboxRuns {
  import opened Bytes
  import opened Payload
  import opened Journal
  import opened ReplayTheorems
  import opened Recovery
  import opened RecoveryRuns
  import opened Snapshots
  import opened Durable
  import opened Inbox
  import opened InboxLog
  import opened JsonData
  import Conditions
  import Scan
  import Utf8

  ghost predicate InboxInv(rt: Runtime, s: System, hist: History) {
    Inv(rt.h, rt.c, s, hist) && StagedForeign(s, ROOT) && Ordered(rt, hist.log)
  }

  // ----- what a handle reads is what the log says

  /** The record that the log put under a key. */
  function Stored(rt: Runtime, hist: History, status: Status, id: bytes): Record
    requires Validated(rt, Contents(hist), status, id).Ok?
  {
    Validated(rt, Contents(hist), status, id).value
  }

  /** What is under a key of the contents: a record under its own id, with its own text. */
  lemma StoredFiled(rt: Runtime, hist: History, status: Status, id: bytes)
    requires Lawful(rt) && Ordered(rt, hist.log) && Held(Contents(hist), status, id)
    ensures ValidId(id) && Validated(rt, Contents(hist), status, id).Ok? && Find(Contents(hist), id) == Ok(Some(status))
    ensures Filed(rt, Contents(hist), status, id, Stored(rt, hist, status, id))
  {
    hide Lawful, Ordered, Held, ValidId, Fold, Find, Validated, Filed;
    AlwaysSettled(rt, hist.log, |hist.log|, status, id);
  }

  /** A handle decodes a stored record if and only if it is readable, and answers `Limit` otherwise. */
  lemma FormStored(rt: Runtime, s: System, hist: History, status: Status, id: bytes)
    requires Lawful(rt) && InboxInv(rt, s, hist) && s.memory.Some?
    ensures Held(s.memory.value.index, status, id) <==> Held(Contents(hist), status, id)
    ensures Held(Contents(hist), status, id) ==>
              var stored := Validated(rt, Contents(hist), status, id);
              stored.Ok? && Storable(rt, stored.value)
              && rt.c.form(s.memory.value.index[MessageKey(status, id)])
                 == if Readable(stored.value) then Ok(TextOf(rt, stored.value)) else Err(Limit)
  {
    hide Inv, Contents, MessageKey, Ordered, StagedForeign, Storable, TextOf, Readable, ValidId, Find, At, Faithful;
    IndexIsContents(rt.h, rt.c, s, hist);
    if Held(Contents(hist), status, id) {
      StoredFiled(rt, hist, status, id);
      var k := MessageKey(status, id);
      TextLaw(rt, Stored(rt, hist, status, id));
      assert rt.c.form(s.memory.value.index[k]) == rt.c.form(Contents(hist)[k]);
    }
  }

  lemma TextLaw(rt: Runtime, r: Record)
    requires Lawful(rt) && Storable(rt, r)
    ensures var t := TextOf(rt, r);
            NulFree(t) && rt.c.written(t) && rt.decode(t) == Some(r) && rt.c.form(t) == if Readable(r) then Ok(t) else Err(Limit)
  {
    hide Faithful, TakenRecord, Readable;
    var text := rt.encode(r);
  }

  lemma GotStored(rt: Runtime, s: System, hist: History, status: Status, id: bytes)
    requires Lawful(rt) && InboxInv(rt, s, hist) && s.memory.Some? && Held(Contents(hist), status, id)
    ensures ValidId(id) && Validated(rt, Contents(hist), status, id).Ok?
    ensures Got(rt, s.memory.value.index, status, id)
         == if Readable(Stored(rt, hist, status, id)) then Ok(Stored(rt, hist, status, id)) else Err(Limit)
    ensures Stored(rt, hist, status, id).id == id && Stored(rt, hist, status, id).status == status
    ensures Storable(rt, Stored(rt, hist, status, id))
  {
    hide InboxInv, Contents, MessageKey, Storable, TextOf, Readable, ValidId, Find, Faithful, Held;
    OrderedOf(rt, s, hist);
    StoredFiled(rt, hist, status, id);
    FormStored(rt, s, hist, status, id);
  }

  function FormAt(rt: Runtime, index: Index, status: Status, id: bytes): Result<bytes> {
    if Held(index, status, id) then rt.c.form(index[MessageKey(status, id)]) else Err(NotFound)
  }

  /** `find` when at most one key of the message is there. */
  lemma {:induction false} SearchOnly(rt: Runtime, index: Index, id: bytes, statuses: seq<Status>, found: Option<Status>, only: Option<Status>)
    requires forall i, j :: 0 <= i < j < |statuses| ==> statuses[i] != statuses[j]
    requires forall i :: 0 <= i < |statuses| ==> (Held(index, statuses[i], id) <==> only == Some(statuses[i]))
    requires only.Some? && only.value in statuses ==> found.None?
    ensures Search(rt, index, id, statuses, found)
         == if only.Some? && only.value in statuses then
              var value := FormAt(rt, index, only.value, id);
              if value.Err? then Err(value.error) else Ok(only)
            else Ok(found)
    decreases |statuses|
  {
    hide MessageKey;
    if statuses != [] {
      var next := if Held(index, statuses[0], id) then Some(statuses[0]) else found;
      assert statuses == [statuses[0]] + statuses[1..];
      SearchOnly(rt, index, id, statuses[1..], next, only);
    }
  }

  /** `find` finds the message where the log has it, unless it cannot be read there. */
  lemma SearchStored(rt: Runtime, s: System, hist: History, id: bytes)
    requires Lawful(rt) && InboxInv(rt, s, hist) && s.memory.Some?
    ensures Find(Contents(hist), id).Ok?
    ensures var at := Find(Contents(hist), id).value;
            && (at.Some? ==> Held(Contents(hist), at.value, id) && Validated(rt, Contents(hist), at.value, id).Ok?)
            && Search(rt, s.memory.value.index, id, STATUSES, None)
               == if at.Some? && !Readable(Stored(rt, hist, at.value, id)) then Err(Limit) else Ok(at)
  {
    hide InboxInv, Lawful, Contents, Held, Find, Search, Validated, StatusAt, Readable, Storable;
    OrderedOf(rt, s, hist);
    StatusIsFind(rt, hist, id);
    var at := Find(Contents(hist), id).value;
    forall status ensures Held(s.memory.value.index, status, id) <==> at == Some(status) {
      FormStored(rt, s, hist, status, id);
    }
    assert forall status :: status in STATUSES by { EveryStatus(); }
    SearchOnly(rt, s.memory.value.index, id, STATUSES, None, at);
    if at.Some? {
      FormStored(rt, s, hist, at.value, id);
    }
  }

  lemma EveryStatus()
    ensures forall status :: status in STATUSES
  {
    forall status ensures status in STATUSES {
      match status
      case Pending => assert STATUSES[0] == status;
      case Ready => assert STATUSES[1] == status;
      case Acknowledged => assert STATUSES[2] == status;
      case Cancelled => assert STATUSES[3] == status;
    }
  }

  lemma StatusIsFind(rt: Runtime, hist: History, id: bytes)
    requires Lawful(rt) && Ordered(rt, hist.log)
    ensures Find(Contents(hist), id).Ok?
    ensures forall status :: Held(Contents(hist), status, id) <==> Find(Contents(hist), id).value == Some(status)
  {
    hide Lawful, Ordered, Held, Find, Fold;
    OneStatus(rt, hist.log, |hist.log|, id);
  }

  // ----- one commit

  lemma KeyWritable(status: Status, id: bytes)
    requires ValidId(id)
    ensures MessageKey(status, id) != [] && Utf8.Valid(MessageKey(status, id)) && NulFree(MessageKey(status, id))
  {
    PrefixAscii(status);
    Utf8.AsciiValid(MessageKey(status, id));
  }

  lemma PrefixAscii(status: Status)
    ensures Prefix(status) != [] && forall i :: 0 <= i < |Prefix(status)| ==> 0 < Prefix(status)[i] < 0x80
  {
    RootAscii();
    hide ROOT;
  }

  lemma RootAscii()
    ensures forall i :: 0 <= i < |ROOT| ==> 0 < ROOT[i] < 0x80
  {}

  lemma PutWritable(rt: Runtime, r: Record)
    requires Lawful(rt) && ValidId(r.id) && Storable(rt, r)
    ensures Writable(rt.c, [PutRecord(rt, r)])
  {
    hide MessageKey, ValidId, Utf8.Valid, Storable, Faithful;
    KeyWritable(r.status, r.id);
  }

  lemma MoveWritable(rt: Runtime, r: Record, to: Status, receipt: Receipt)
    requires Lawful(rt) && ValidId(r.id) && Storable(rt, Changed(r, to, receipt))
    ensures Writable(rt.c, Move(rt, r, to, receipt))
  {
    hide MessageKey, ValidId, Utf8.Valid, Lawful, Storable, PutRecord;
    PutWritable(rt, Changed(r, to, receipt));
    KeyWritable(r.status, r.id);
    var put := PutRecord(rt, Changed(r, to, receipt));
    assert put == [put][0];
  }

  /** A commit of a batch that the contents explain keeps the log ordered, whether it lands or not. */
  lemma CommitOrdered(rt: Runtime, s: System, hist: History, ms: seq<Mutation>, w: Write, change: Change)
    requires InboxInv(rt, s, hist) && s.memory.Some? && Writable(rt.c, ms)
    requires Explains(rt, Contents(hist), ms, |hist.log| + 1, change)
    ensures var (n, r) := CommitBatch(rt.h, s, ms, w.record, w.manifest);
            var next := BatchHistory(rt.h, rt.c, s, hist, ms, w.record, w.manifest);
            && InboxInv(rt, n, next)
            && (next.log == hist.log || next.log == hist.log + [ms])
            && (r.Ok? ==> Clean(n) && next.log == hist.log + [ms])
            && (r.Err? ==> n.memory.None?)
  {
    hide Inv, CommitBatch, BatchHistory, Writable, Explains;
    var next := BatchHistory(rt.h, rt.c, s, hist, ms, w.record, w.manifest);
    BatchKeeps(rt.h, rt.c, s, hist, ms, w.record, w.manifest);
    if next.log == hist.log + [ms] {
      OrderedGrows(rt, hist.log, ms, change);
    }
    NothingIsForeign();
  }

  lemma NothingIsForeign()
    ensures Foreign([], ROOT)
  {}

  lemma OrderedGrows(rt: Runtime, log: Log, ms: seq<Mutation>, change: Change)
    requires Ordered(rt, log) && Explains(rt, Fold(log, |log|), ms, |log| + 1, change)
    ensures Ordered(rt, log + [ms])
  {
    hide Explains;
    var longer := log + [ms];
    forall i | 0 <= i < |longer| ensures Explained(rt, Fold(longer, i), longer[i], i + 1) {
      FoldPrefix(log, [ms], i);
      if i < |log| {
        assert Explained(rt, Fold(log, i), log[i], i + 1);
      }
    }
  }

  // ----- the operations

  function CreateHistory(rt: Runtime, s: System, hist: History, id: bytes, spec: Spec, now: nat, w: Write): History {
    if CreateAnswer(rt, s, id, spec, now).Some? then hist
    else BatchHistory(rt.h, rt.c, s, hist, Create(rt, id, spec, now, s.memory.value.currentRev + 1), w.record, w.manifest)
  }

  /** When `create` comes to its commit, the message is nowhere and its record can be stored. */
  lemma CreateReady(rt: Runtime, s: System, hist: History, id: bytes, spec: Spec, now: nat)
    requires Lawful(rt) && InboxInv(rt, s, hist) && TakenSpec(rt, spec) && Plain(rt, now)
    requires CreateAnswer(rt, s, id, spec, now).None?
    ensures Clean(s) && ValidId(id) && s.memory.value.currentRev == |hist.log|
    ensures Find(Contents(hist), id) == Ok(None)
    ensures Storable(rt, Creation(id, spec, now, |hist.log| + 1))
  {
    hide Inv, Lawful, ValidId, Search, PageFault, PendingPage, Got, Held, Validated, Ordered, StagedForeign, Contents, TextFault,
         TakenSpec, Plain, Find, MAX_PENDING;
    IndexIsContents(rt.h, rt.c, s, hist) by { FaithfulOf(rt); }
    SearchStored(rt, s, hist, id);
  }

  lemma FaithfulOf(rt: Runtime)
    requires Lawful(rt)
    ensures Faithful(rt.c)
  {
    hide Faithful;
  }

  lemma CreateKeeps(rt: Runtime, s: System, hist: History, id: bytes, spec: Spec, now: nat, w: Write)
    requires Lawful(rt) && InboxInv(rt, s, hist) && TakenSpec(rt, spec) && Plain(rt, now)
    ensures InboxInv(rt, CreateStep(rt, s, id, spec, now, w).0, CreateHistory(rt, s, hist, id, spec, now, w))
    ensures hist.log <= CreateHistory(rt, s, hist, id, spec, now, w).log
  {
    hide InboxInv, CommitBatch, BatchHistory, Lawful, ValidId, CreateAnswer, Contents, Storable, TakenSpec, Plain, PutRecord, Find;
    if CreateAnswer(rt, s, id, spec, now).None? {
      CreateReady(rt, s, hist, id, spec, now);
      PutWritable(rt, Creation(id, spec, now, |hist.log| + 1));
      CommitOrdered(rt, s, hist, Create(rt, id, spec, now, |hist.log| + 1), w, Created(id, spec, now));
    }
  }

  /**
   `create` again with the same id commits nothing. The same request gets the stored record and another a conflict,
   but nothing at all is answered for a record that is not readable.
   */
  lemma CreateAgain(rt: Runtime, s: System, hist: History, id: bytes, spec: Spec, now: nat, w: Write, status: Status)
    requires Lawful(rt) && InboxInv(rt, s, hist) && Clean(s) && ValidId(id) && Held(Contents(hist), status, id)
    ensures var stored := Validated(rt, Contents(hist), status, id);
            var draft := TextFault(rt, Draft(id, spec, now));
            stored.Ok?
            && CreateStep(rt, s, id, spec, now, w)
               == (s, if draft.Some? then Err(draft.value)
                      else if !Readable(stored.value) then Err(Limit)
                      else if stored.value.spec == spec then stored else Err(Conflict))
  {
    hide InboxInv, Lawful, ValidId, Search, PageFault, PendingPage, Got, Held, Validated, Contents, TextFault, Readable, Find,
         CommitBatch;
    SearchStored(rt, s, hist, id);
    StatusIsFind(rt, hist, id) by { OrderedOf(rt, s, hist); }
    GotStored(rt, s, hist, status, id);
  }

  /** Every message can be inspected and moved if and only if it is readable. */
  lemma FromStored(rt: Runtime, s: System, hist: History, id: bytes)
    requires Lawful(rt) && InboxInv(rt, s, hist) && Clean(s) && ValidId(id)
    ensures Find(Contents(hist), id).Ok?
    ensures var at := Find(Contents(hist), id).value;
            if at.None? then TransitionFrom(rt, s, id) == Err(NotFound)
            else
              var stored := Validated(rt, Contents(hist), at.value, id);
              stored.Ok? && TransitionFrom(rt, s, id) == if Readable(stored.value) then stored else Err(Limit)
  {
    hide InboxInv, Lawful, ValidId, Search, Got, Held, Validated, Contents, Readable, Find;
    SearchStored(rt, s, hist, id);
    var at := Find(Contents(hist), id).value;
    if at.Some? {
      GotStored(rt, s, hist, at.value, id);
    }
  }

  function TransitionHistory(rt: Runtime, s: System, hist: History, id: bytes, target: Status, now: nat, w: Write): History
    requires target == Acknowledged || target == Cancelled
  {
    var existing := TransitionFrom(rt, s, id);
    if existing.Err? || !Legal(existing.value.status, target) then hist else
    var receipt := Receipt(now, s.memory.value.currentRev + 1, None);
    if TextFault(rt, Changed(existing.value, target, receipt)).Some? then hist else
    BatchHistory(rt.h, rt.c, s, hist, Move(rt, existing.value, target, receipt), w.record, w.manifest)
  }

  lemma TransitionKeeps(rt: Runtime, s: System, hist: History, id: bytes, target: Status, now: nat, w: Write)
    requires Lawful(rt) && InboxInv(rt, s, hist) && (target == Acknowledged || target == Cancelled) && Plain(rt, now)
    ensures InboxInv(rt, TransitionStep(rt, s, id, target, now, w).0, TransitionHistory(rt, s, hist, id, target, now, w))
    ensures hist.log <= TransitionHistory(rt, s, hist, id, target, now, w).log
  {
    hide InboxInv, CommitBatch, BatchHistory, Lawful, ValidId, Held, Contents, Move, TransitionFrom, TextFault, Plain, TakenRecord,
         Find, Validated;
    var existing := TransitionFrom(rt, s, id);
    if existing.Ok? && Legal(existing.value.status, target) {
      var record := existing.value;
      var receipt := Receipt(now, s.memory.value.currentRev + 1, None);
      if TextFault(rt, Changed(record, target, receipt)).None? {
        FromReady(rt, s, hist, id);
        TakenChanged(rt, record, target, receipt);
        MoveWritable(rt, record, target, receipt);
        CommitOrdered(rt, s, hist, Move(rt, record, target, receipt), w, Moved(record, target, receipt));
      }
    }
  }

  lemma TakenChanged(rt: Runtime, r: Record, to: Status, receipt: Receipt)
    requires TakenRecord(rt, r) && Plain(rt, receipt.at) && (to == Ready || receipt.context.None?)
    ensures TakenRecord(rt, Changed(r, to, receipt))
  {
    hide Plain, TakenSpec;
  }

  /** What `transition` is to move is under its own key of the contents. */
  lemma FromReady(rt: Runtime, s: System, hist: History, id: bytes)
    requires Lawful(rt) && InboxInv(rt, s, hist) && TransitionFrom(rt, s, id).Ok?
    ensures var r := TransitionFrom(rt, s, id).value;
            && Clean(s) && s.memory.value.currentRev == |hist.log| && ValidId(r.id) && TakenRecord(rt, r)
            && Held(Contents(hist), r.status, r.id) && Validated(rt, Contents(hist), r.status, r.id) == Ok(r)
  {
    hide InboxInv, Lawful, ValidId, Search, Got, Held, Validated, Contents, Readable, Find, TakenRecord;
    InvOf(rt, s, hist);
    FaithfulOf(rt);
    RevisionOfLog(rt, s, hist);
    SearchStored(rt, s, hist, id);
    var at := Find(Contents(hist), id).value;
    if at.Some? {
      GotStored(rt, s, hist, at.value, id);
    }
  }

  lemma RevisionOfLog(rt: Runtime, s: System, hist: History)
    requires InboxInv(rt, s, hist) && s.memory.Some? && Faithful(rt.c)
    ensures s.memory.value.currentRev == |hist.log|
  {
    hide Inv, StagedForeign, Ordered, Contents, Faithful;
    IndexIsContents(rt.h, rt.c, s, hist);
  }

  // ----- check

  /** Each record is pending in `contents`, under its own id, and no id comes twice. */
  ghost predicate PendingIn(rt: Runtime, contents: Index, due: seq<Record>) {
    && (forall i :: 0 <= i < |due| ==>
          && due[i].status == Pending && ValidId(due[i].id) && Held(contents, Pending, due[i].id)
          && Validated(rt, contents, Pending, due[i].id) == Ok(due[i]) && TakenRecord(rt, due[i]))
    && (forall i, j :: 0 <= i < j < |due| ==> due[i].id != due[j].id)
  }

  function ReleaseHistory(
    rt: Runtime, s: System, hist: History, due: seq<Record>, context: Option<bytes>, now: nat, first: nat, writes: seq<Write>)
    : History
    requires s.memory.Some?
    decreases |due|
  {
    if due == [] || writes == [] then hist else
    var ms := Move(rt, due[0], Ready, Receipt(now, first, context));
    var (n, r) := CommitBatch(rt.h, s, ms, writes[0].record, writes[0].manifest);
    var next := BatchHistory(rt.h, rt.c, s, hist, ms, writes[0].record, writes[0].manifest);
    if r.Err? then next else ReleaseHistory(rt, n, next, due[1..], context, now, first + 1, writes[1..])
  }

  lemma PendingAfterMove(rt: Runtime, contents: Index, due: seq<Record>, receipt: Receipt)
    requires Lawful(rt) && due != [] && PendingIn(rt, contents, due) && Storable(rt, Changed(due[0], Ready, receipt))
    ensures PendingIn(rt, Apply(contents, Move(rt, due[0], Ready, receipt)), due[1..])
  {
    hide Lawful, ValidId, Held, At, Apply, Move, SameAt, Storable, TakenRecord, Filed;
    var after := Apply(contents, Move(rt, due[0], Ready, receipt));
    var rest := due[1..];
    MoveEffect(rt, contents, due[0], Ready, receipt);
    forall i | 0 <= i < |rest|
      ensures rest[i].status == Pending && ValidId(rest[i].id) && Held(after, Pending, rest[i].id)
              && Validated(rt, after, Pending, rest[i].id) == Ok(rest[i]) && TakenRecord(rt, rest[i])
    {
      assert rest[i] == due[i + 1] && rest[i].id != due[0].id;
      SameOne(rt, contents, after, Pending, rest[i].id);
    }
  }

  /** However many of the prepared releases land, the log stays ordered: each receipt names its own commit. */
  lemma {:induction false} ReleaseKeeps(
    rt: Runtime, s: System, hist: History, due: seq<Record>, context: Option<bytes>, now: nat, first: nat, writes: seq<Write>)
    requires Lawful(rt) && InboxInv(rt, s, hist) && s.memory.Some? && Plain(rt, now)
    requires PendingIn(rt, Contents(hist), due) && first == |hist.log| + 1 && PrepareFault(rt, due, context, now, first).None?
    ensures InboxInv(rt, Release(rt, s, due, context, now, first, writes).0,
                     ReleaseHistory(rt, s, hist, due, context, now, first, writes))
    ensures hist.log <= ReleaseHistory(rt, s, hist, due, context, now, first, writes).log
    decreases |due|
  {
    hide InboxInv, CommitBatch, BatchHistory, Lawful, ValidId, Held, At, Contents, Move, PendingIn, Plain, TakenRecord, TextFault;
    if due != [] {
      if writes == [] {
        Gone(rt, s, hist);
      } else {
        var receipt := Receipt(now, first, context);
        var ms := Move(rt, due[0], Ready, receipt);
        var w := writes[0];
        FirstPending(rt, Contents(hist), due);
        TakenChanged(rt, due[0], Ready, receipt);
        MoveWritable(rt, due[0], Ready, receipt);
        CommitOrdered(rt, s, hist, ms, w, Moved(due[0], Ready, receipt));
        var (n, r) := CommitBatch(rt.h, s, ms, w.record, w.manifest);
        var next := BatchHistory(rt.h, rt.c, s, hist, ms, w.record, w.manifest);
        if r.Ok? {
          PendingAfterMove(rt, Contents(hist), due, receipt);
          ContentsGrow(hist, next, ms);
          ReleaseKeeps(rt, n, next, due[1..], context, now, first + 1, writes[1..]);
        }
      }
    }
  }

  lemma FirstPending(rt: Runtime, contents: Index, due: seq<Record>)
    requires due != [] && PendingIn(rt, contents, due)
    ensures due[0].status == Pending && ValidId(due[0].id) && Held(contents, Pending, due[0].id)
            && Validated(rt, contents, Pending, due[0].id) == Ok(due[0]) && TakenRecord(rt, due[0])
  {
    hide Held, Validated, ValidId, TakenRecord;
  }

  lemma Gone(rt: Runtime, s: System, hist: History)
    requires InboxInv(rt, s, hist)
    ensures InboxInv(rt, System(s.disk, None), hist)
  {
    hide DiskInv, MemoryInv, Ordered;
  }

  /** The keys of a page of pending messages, as `check` reads them. */
  ghost predicate PendingKeys(index: Index, keys: seq<bytes>) {
    && (forall i :: 0 <= i < |keys| ==> keys[i] in index && Prefix(Pending) <= keys[i])
    && (forall i, j :: 0 <= i < j < |keys| ==> keys[i] != keys[j])
  }

  lemma PageIsPending(index: Index, limit: nat)
    ensures PendingKeys(index, PendingPage(index, limit))
  {
    hide Prefix, Scan.Less;
    var order := Scan.Order(index.Keys);
    Scan.OrderAscending(index.Keys);
    Scan.PageExact(order, Prefix(Pending), [], limit);
    Scan.MatchingProperties(order, Prefix(Pending), []);
    var all := Scan.Matching(order, Prefix(Pending), []);
    var page := Scan.Page(order, Prefix(Pending), [], limit);
    forall i | 0 <= i < |page| ensures page[i] in index && Prefix(Pending) <= page[i] {
      assert page[i] == all[i] && all[i] in all;
    }
    forall i, j | 0 <= i < j < |page| ensures page[i] != page[j] {
      assert Scan.Less(all[i], all[j]);
      Scan.LessTotal(all[i], all[i]);
    }
  }

  /** A page that is not full holds every pending message. */
  lemma PageIsWhole(index: Index, limit: nat, key: bytes)
    requires |PendingPage(index, limit)| < limit && key in index && Prefix(Pending) <= key
    ensures key in PendingPage(index, limit)
  {
    hide Prefix, Scan.Less, Scan.Matching, Scan.Page, Scan.Order;
    var order := Scan.Order(index.Keys);
    Scan.OrderAscending(index.Keys);
    Scan.PageExact(order, Prefix(Pending), [], limit);
    Scan.MatchingProperties(order, Prefix(Pending), []);
    PrefixAscii(Pending);
    AboveNothing(key);
    assert key in Scan.Matching(order, Prefix(Pending), []);
  }

  lemma AboveNothing(key: bytes)
    requires key != []
    ensures Scan.Less([], key)
  {}

  /** What the validation pass of `check` yields: pending messages that are read and due, once each. */
  lemma {:induction false} DueArePending(
    rt: Runtime, index: Index, keys: seq<bytes>, context: Option<Conditions.Context>, now: nat)
    requires PendingKeys(index, keys) && DueRecords(rt, index, keys, context, now).Ok?
    ensures var due := DueRecords(rt, index, keys, context, now).value;
            && (forall i :: 0 <= i < |due| ==> IsDue(rt, index, keys, due[i], context, now))
            && (forall i, j :: 0 <= i < j < |due| ==> due[i].id != due[j].id)
    decreases |keys|
  {
    hide Prefix, Conditions.Due, Conditions.IllTyped, MessageKey;
    if keys != [] {
      var key := keys[0];
      var id := key[|Prefix(Pending)|..];
      var r := Got(rt, index, Pending, id).value;
      assert key == MessageKey(Pending, id) by { KeyOfPending(key); }
      TailPending(index, keys);
      DueArePending(rt, index, keys[1..], context, now);
      var rest := DueRecords(rt, index, keys[1..], context, now).value;
      forall i | 0 <= i < |rest| ensures rest[i].id != id && IsDue(rt, index, keys, rest[i], context, now) {
        assert IsDue(rt, index, keys[1..], rest[i], context, now);
      }
    }
  }

  predicate IsDue(rt: Runtime, index: Index, keys: seq<bytes>, r: Record, context: Option<Conditions.Context>, now: nat) {
    && r.status == Pending && MessageKey(Pending, r.id) in keys && Held(index, Pending, r.id)
    && Got(rt, index, Pending, r.id) == Ok(r)
    && rt.condition(r.spec.condition).Ok? && Conditions.Due(rt.condition(r.spec.condition).value, context, rt.order(now))
  }

  lemma KeyOfPending(key: bytes)
    requires Prefix(Pending) <= key
    ensures key == MessageKey(Pending, key[|Prefix(Pending)|..])
  {
    hide Prefix;
  }

  lemma TailPending(index: Index, keys: seq<bytes>)
    requires keys != [] && PendingKeys(index, keys)
    ensures PendingKeys(index, keys[1..]) && keys[0] !in keys[1..]
  {
    hide Prefix;
  }

  /** So the log has them pending too. */
  lemma SamePending(
    rt: Runtime, s: System, hist: History, keys: seq<bytes>, context: Option<Conditions.Context>, now: nat)
    requires Lawful(rt) && InboxInv(rt, s, hist) && s.memory.Some? && PendingKeys(s.memory.value.index, keys)
    requires DueRecords(rt, s.memory.value.index, keys, context, now).Ok?
    ensures PendingIn(rt, Contents(hist), DueRecords(rt, s.memory.value.index, keys, context, now).value)
  {
    hide InboxInv, Lawful, ValidId, Held, Validated, Contents, TakenRecord, PendingKeys, Got, Readable, DueRecords, Conditions.Due,
         MessageKey;
    var index := s.memory.value.index;
    DueArePending(rt, index, keys, context, now);
    var due := DueRecords(rt, index, keys, context, now).value;
    forall i | 0 <= i < |due|
      ensures due[i].status == Pending && ValidId(due[i].id) && Held(Contents(hist), Pending, due[i].id)
              && Validated(rt, Contents(hist), Pending, due[i].id) == Ok(due[i]) && TakenRecord(rt, due[i])
    {
      assert IsDue(rt, index, keys, due[i], context, now);
      FormStored(rt, s, hist, Pending, due[i].id);
      GotStored(rt, s, hist, Pending, due[i].id);
    }
  }

  function CheckHistory(
    rt: Runtime, s: System, hist: History, context: Option<Conditions.Context>, now: nat, writes: seq<Write>)
    : History
  {
    var due := Prepared(rt, s, context, now);
    if due.Err? then hist
    else ReleaseHistory(rt, s, hist, due.value, ContextId(context), now, s.memory.value.currentRev + 1, writes)
  }

  lemma CheckKeeps(
    rt: Runtime, s: System, hist: History, context: Option<Conditions.Context>, now: nat, writes: seq<Write>)
    requires Lawful(rt) && InboxInv(rt, s, hist) && Plain(rt, now)
    ensures InboxInv(rt, CheckStep(rt, s, context, now, writes).0, CheckHistory(rt, s, hist, context, now, writes))
    ensures hist.log <= CheckHistory(rt, s, hist, context, now, writes).log
  {
    hide InboxInv, Lawful, Contents, Prepared, Release, ReleaseHistory, PendingIn, Plain;
    if Prepared(rt, s, context, now).Ok? {
      PreparedReady(rt, s, hist, context, now);
      ReleaseKeeps(rt, s, hist, Prepared(rt, s, context, now).value, ContextId(context), now, s.memory.value.currentRev + 1, writes);
    }
  }

  lemma PreparedReady(rt: Runtime, s: System, hist: History, context: Option<Conditions.Context>, now: nat)
    requires Lawful(rt) && InboxInv(rt, s, hist) && Prepared(rt, s, context, now).Ok?
    ensures var due := Prepared(rt, s, context, now).value;
            && Clean(s) && s.memory.value.currentRev == |hist.log| && PendingIn(rt, Contents(hist), due)
            && PrepareFault(rt, due, ContextId(context), now, s.memory.value.currentRev + 1).None?
  {
    hide InboxInv, Lawful, Contents, PendingIn, DueRecords, PendingPage, PageFault, PrepareFault, Faithful, PendingKeys;
    var index := s.memory.value.index;
    PageIsPending(index, MAX_PENDING + 1);
    FaithfulOf(rt);
    RevisionOfLog(rt, s, hist);
    SamePending(rt, s, hist, PendingPage(index, MAX_PENDING + 1), context, now);
  }

  // ----- messages that are not readable

  /** The first pending message of a page that is not readable is its fault. */
  lemma {:induction false} PageStored(rt: Runtime, s: System, hist: History, keys: seq<bytes>)
    requires Lawful(rt) && InboxInv(rt, s, hist) && s.memory.Some? && PendingKeys(s.memory.value.index, keys)
    ensures PageFault(rt, s.memory.value.index, keys) == None || PageFault(rt, s.memory.value.index, keys) == Some(Limit)
    ensures forall id :: MessageKey(Pending, id) in keys && PageFault(rt, s.memory.value.index, keys).None? ==>
              Validated(rt, Contents(hist), Pending, id).Ok? && Readable(Stored(rt, hist, Pending, id))
    decreases |keys|
  {
    hide InboxInv, Lawful, Contents, Validated, Readable, MessageKey, Prefix, Storable, TextOf;
    if keys != [] {
      var index := s.memory.value.index;
      var first := keys[0][|Prefix(Pending)|..];
      assert keys[0] == MessageKey(Pending, first) by { KeyOfPending(keys[0]); }
      FormStored(rt, s, hist, Pending, first);
      TailPending(index, keys);
      PageStored(rt, s, hist, keys[1..]);
      assert keys == [keys[0]] + keys[1..];
      forall id | MessageKey(Pending, id) in keys && PageFault(rt, index, keys).None?
        ensures Validated(rt, Contents(hist), Pending, id).Ok? && Readable(Stored(rt, hist, Pending, id))
      {
        if MessageKey(Pending, id) == keys[0] {
          KeyInjective(Pending, id, Pending, first);
        }
      }
    }
  }

  /** The page that `create` and `check` read fails, or is too long, while any pending message is not readable. */
  lemma PageBlocked(rt: Runtime, s: System, hist: History, id: bytes, limit: nat)
    requires Lawful(rt) && InboxInv(rt, s, hist) && s.memory.Some? && Held(Contents(hist), Pending, id)
    requires Validated(rt, Contents(hist), Pending, id).Ok? && !Readable(Stored(rt, hist, Pending, id))
    ensures var page := PendingPage(s.memory.value.index, limit);
            |page| >= limit || PageFault(rt, s.memory.value.index, page) == Some(Limit)
    ensures var fault := PageFault(rt, s.memory.value.index, PendingPage(s.memory.value.index, limit));
            fault.None? || fault == Some(Limit)
  {
    hide InboxInv, Lawful, Contents, Validated, Readable, MessageKey, PendingPage, PendingKeys, PageFault, Prefix;
    var index := s.memory.value.index;
    PageIsPending(index, limit);
    PageStored(rt, s, hist, PendingPage(index, limit));
    FormStored(rt, s, hist, Pending, id);
    PrefixOfKey(id);
    if |PendingPage(index, limit)| < limit {
      PageIsWhole(index, limit, MessageKey(Pending, id));
    }
  }

  lemma PrefixOfKey(id: bytes)
    ensures Prefix(Pending) <= MessageKey(Pending, id)
  {
    hide Prefix;
  }

  /**
   One pending message that is not readable stops the inbox. It is neither found nor moved, `check` releases nothing,
   and `create` accepts no other message.
   */
  lemma UnreadableBlocks(rt: Runtime, s: System, hist: History, id: bytes)
    requires Lawful(rt) && InboxInv(rt, s, hist) && Clean(s) && Held(Contents(hist), Pending, id)
    requires Validated(rt, Contents(hist), Pending, id).Ok? && !Readable(Stored(rt, hist, Pending, id))
    ensures TransitionFrom(rt, s, id) == Err(Limit)
    ensures forall context, now, writes :: CheckStep(rt, s, context, now, writes) == (s, Err(Limit))
    ensures forall other, spec, now :: Find(Contents(hist), other) == Ok(None) ==>
              var answer := CreateAnswer(rt, s, other, spec, now); answer.Some? && answer.value.Err?
  {
    hide InboxInv, Lawful, Contents, Validated, Readable, Find, Held, ValidId, TransitionFrom, PendingPage, PageFault, DueRecords,
         PrepareFault, CreateAnswer, CheckStep;
    GotStored(rt, s, hist, Pending, id);
    FromStored(rt, s, hist, id);
    StatusIsFind(rt, hist, id) by { OrderedOf(rt, s, hist); }
    forall context, now, writes ensures CheckStep(rt, s, context, now, writes) == (s, Err(Limit)) {
      CheckBlocked(rt, s, hist, id, context, now, writes);
    }
    forall other, spec, now | Find(Contents(hist), other) == Ok(None)
      ensures var answer := CreateAnswer(rt, s, other, spec, now); answer.Some? && answer.value.Err?
    {
      CreateBlocked(rt, s, hist, id, other, spec, now);
    }
  }

  lemma CheckBlocked(
    rt: Runtime, s: System, hist: History, id: bytes, context: Option<Conditions.Context>, now: nat, writes: seq<Write>)
    requires Lawful(rt) && InboxInv(rt, s, hist) && Clean(s) && Held(Contents(hist), Pending, id)
    requires Validated(rt, Contents(hist), Pending, id).Ok? && !Readable(Stored(rt, hist, Pending, id))
    ensures CheckStep(rt, s, context, now, writes) == (s, Err(Limit))
  {
    hide InboxInv, Lawful, Contents, Validated, Readable, Held, PendingPage, PageFault, DueRecords, PrepareFault;
    PageBlocked(rt, s, hist, id, MAX_PENDING + 1);
  }

  lemma CreateBlocked(rt: Runtime, s: System, hist: History, id: bytes, other: bytes, spec: Spec, now: nat)
    requires Lawful(rt) && InboxInv(rt, s, hist) && Clean(s) && Held(Contents(hist), Pending, id)
    requires Validated(rt, Contents(hist), Pending, id).Ok? && !Readable(Stored(rt, hist, Pending, id))
    requires Find(Contents(hist), other) == Ok(None)
    ensures var answer := CreateAnswer(rt, s, other, spec, now); answer.Some? && answer.value.Err?
  {
    hide InboxInv, Lawful, Contents, Validated, Readable, Held, PendingPage, PageFault, Find, TextFault, Search, ValidId, Got;
    SearchStored(rt, s, hist, other);
    PageBlocked(rt, s, hist, id, MAX_PENDING);
  }

  /**
   A message that `create` accepts is found again if its payload is nested less than 128 deep. `snapshot` lets one
   through that is nested 128 deep: it is committed, and from then on blocks the inbox.
   */
  lemma DeepMessage(rt: Runtime, s: System, hist: History, id: bytes, spec: Spec, now: nat, w: Write)
    requires Lawful(rt) && InboxInv(rt, s, hist) && TakenSpec(rt, spec) && Plain(rt, now)
    requires CreateAnswer(rt, s, id, spec, now).None? && CreateStep(rt, s, id, spec, now, w).1.Ok?
    ensures var (n, r) := CreateStep(rt, s, id, spec, now, w);
            && TransitionFrom(rt, n, id) == (if Depth(spec.payload) < DATA_DEPTH then r else Err(Limit))
            && (Depth(spec.payload) == DATA_DEPTH ==>
                  forall context, later, writes :: CheckStep(rt, n, context, later, writes) == (n, Err(Limit)))
  {
    hide InboxInv, Lawful, Contents, CreateAnswer, TransitionFrom, CheckStep, Find, Held, Validated, ValidId, Creation, CommitBatch,
         BatchHistory, TakenSpec, Plain, Storable, PutRecord, Filed;
    var next := CreateHistory(rt, s, hist, id, spec, now, w);
    var n := CreateStep(rt, s, id, spec, now, w).0;
    CreateReady(rt, s, hist, id, spec, now);
    CreateKeeps(rt, s, hist, id, spec, now, w);
    CreatedStored(rt, s, hist, id, spec, now, w);
    FromStored(rt, n, next, id);
    CreationReadable(id, spec, now, |hist.log| + 1);
    assert Depth(spec.payload) <= DATA_DEPTH by { PayloadTaken(rt, spec); }
    if Depth(spec.payload) == DATA_DEPTH {
      UnreadableBlocks(rt, n, next, id);
    }
  }

  lemma PayloadTaken(rt: Runtime, spec: Spec)
    requires TakenSpec(rt, spec)
    ensures Depth(spec.payload) <= DATA_DEPTH
  {}

  lemma CreationReadable(id: bytes, spec: Spec, now: nat, revision: nat)
    ensures Readable(Creation(id, spec, now, revision)) <==> Depth(spec.payload) < DATA_DEPTH
  {}

  /** A message that was just created is pending in the contents. */
  lemma CreatedStored(rt: Runtime, s: System, hist: History, id: bytes, spec: Spec, now: nat, w: Write)
    requires Lawful(rt) && InboxInv(rt, s, hist) && TakenSpec(rt, spec) && Plain(rt, now)
    requires CreateAnswer(rt, s, id, spec, now).None? && CreateStep(rt, s, id, spec, now, w).1.Ok?
    ensures var (n, r) := CreateStep(rt, s, id, spec, now, w);
            var next := CreateHistory(rt, s, hist, id, spec, now, w);
            && Clean(n) && r == Ok(Creation(id, spec, now, |hist.log| + 1)) && Held(Contents(next), Pending, id)
            && Find(Contents(next), id) == Ok(Some(Pending)) && Validated(rt, Contents(next), Pending, id) == r
  {
    hide InboxInv, Lawful, CreateAnswer, Find, Held, ValidId, CommitBatch, BatchHistory, TakenSpec, Plain, Storable, PutRecord, Contents,
         Apply;
    var record := Creation(id, spec, now, |hist.log| + 1);
    var ms := Create(rt, id, spec, now, |hist.log| + 1);
    CreateReady(rt, s, hist, id, spec, now);
    PutWritable(rt, record);
    CommitOrdered(rt, s, hist, ms, w, Created(id, spec, now));
    var next := CreateHistory(rt, s, hist, id, spec, now, w);
    ContentsGrow(hist, next, ms);
    CreateEffect(rt, Contents(hist), id, spec, now, |hist.log| + 1);
    OrderedOf(rt, CreateStep(rt, s, id, spec, now, w).0, next);
    StatusIsFind(rt, next, id);
  }

  lemma InvOf(rt: Runtime, s: System, hist: History)
    requires InboxInv(rt, s, hist)
    ensures Inv(rt.h, rt.c, s, hist)
  {
    hide Inv, StagedForeign, Ordered;
  }

  // ----- runs

  datatype Event =
    | CreateEvent(id: bytes, spec: Spec, now: nat, write: Write)
    | CheckEvent(context: Option<Conditions.Context>, now: nat, writes: seq<Write>)
    | AcknowledgeEvent(id: bytes, now: nat, write: Write)
    | CancelEvent(id: bytes, now: nat, write: Write)
    | Other(op: Op)

  function Step(rt: Runtime, s: System, e: Event): System {
    match e
    case CreateEvent(id, spec, now, w) => CreateStep(rt, s, id, spec, now, w).0
    case CheckEvent(context, now, writes) => CheckStep(rt, s, context, now, writes).0
    case AcknowledgeEvent(id, now, w) => TransitionStep(rt, s, id, Acknowledged, now, w).0
    case CancelEvent(id, now, w) => TransitionStep(rt, s, id, Cancelled, now, w).0
    case Other(op) => Next(rt.h, rt.c, s, op).0
  }

  function StepHistory(rt: Runtime, s: System, hist: History, e: Event): History {
    match e
    case CreateEvent(id, spec, now, w) => CreateHistory(rt, s, hist, id, spec, now, w)
    case CheckEvent(context, now, writes) => CheckHistory(rt, s, hist, context, now, writes)
    case AcknowledgeEvent(id, now, w) => TransitionHistory(rt, s, hist, id, Acknowledged, now, w)
    case CancelEvent(id, now, w) => TransitionHistory(rt, s, hist, id, Cancelled, now, w)
    case Other(op) => NextHistory(rt.h, rt.c, s, hist, op)
  }

  function RunHistory(rt: Runtime, s: System, hist: History, events: seq<Event>): History
    decreases |events|
  {
    if events == [] then hist
    else RunHistory(rt, Step(rt, s, events[0]), StepHistory(rt, s, hist, events[0]), events[1..])
  }

  /** Messages come from `snapshot`, times are numbers, and nothing else writes the messages; other users do what they like. */
  predicate Fair(rt: Runtime, e: Event) {
    match e
    case CreateEvent(id, spec, now, w) => TakenSpec(rt, spec) && Plain(rt, now)
    case CheckEvent(context, now, writes) => Plain(rt, now)
    case AcknowledgeEvent(id, now, w) => Plain(rt, now)
    case CancelEvent(id, now, w) => Plain(rt, now)
    case Other(op) => Typed(rt.c, op) && ForeignOp(op, ROOT)
  }

  predicate AllFair(rt: Runtime, events: seq<Event>) { forall i :: 0 <= i < |events| ==> Fair(rt, events[i]) }

  lemma OtherKeeps(rt: Runtime, s: System, hist: History, op: Op)
    requires Lawful(rt) && InboxInv(rt, s, hist) && Typed(rt.c, op) && ForeignOp(op, ROOT)
    ensures InboxInv(rt, Next(rt.h, rt.c, s, op).0, NextHistory(rt.h, rt.c, s, hist, op))
    ensures hist.log <= NextHistory(rt.h, rt.c, s, hist, op).log
  {
    hide Inv, Next, NextHistory, Typed, ForeignOp, ROOT, Foreign, Faithful;
    ForeignStep(rt.h, rt.c, s, hist, op, ROOT);
    LogAfter(rt.h, rt.c, s, hist, op);
    var next := NextHistory(rt.h, rt.c, s, hist, op);
    if next.log != hist.log {
      OrderedGrows(rt, hist.log, s.memory.value.staged, Elsewhere);
    }
  }

  lemma {:induction false} RunKeeps(rt: Runtime, s: System, hist: History, events: seq<Event>)
    requires Lawful(rt) && InboxInv(rt, s, hist) && AllFair(rt, events)
    ensures hist.log <= RunHistory(rt, s, hist, events).log
    ensures Ordered(rt, RunHistory(rt, s, hist, events).log)
    decreases |events|
  {
    hide InboxInv, Lawful, CreateStep, CheckStep, TransitionStep, Next, CreateHistory, CheckHistory, TransitionHistory,
         NextHistory, Typed, ForeignOp, Ordered, Plain, TakenSpec;
    if events == [] {
      OrderedOf(rt, s, hist);
    } else {
      assert Fair(rt, events[0]);
      match events[0] {
        case CreateEvent(id, spec, now, w) => CreateKeeps(rt, s, hist, id, spec, now, w);
        case CheckEvent(context, now, writes) => CheckKeeps(rt, s, hist, context, now, writes);
        case AcknowledgeEvent(id, now, w) => TransitionKeeps(rt, s, hist, id, Acknowledged, now, w);
        case CancelEvent(id, now, w) => TransitionKeeps(rt, s, hist, id, Cancelled, now, w);
        case Other(op) => OtherKeeps(rt, s, hist, op);
      }
      RunKeeps(rt, Step(rt, s, events[0]), StepHistory(rt, s, hist, events[0]), events[1..]);
    }
  }

  lemma OrderedOf(rt: Runtime, s: System, hist: History)
    requires InboxInv(rt, s, hist)
    ensures Ordered(rt, hist.log)
  {
    hide Inv, StagedForeign, Ordered;
  }

  /**
   Inbox safety. After any run from empty files, with crashes and failed commits anywhere (inside a
   `check` too), every message was at every revision under at most one status, only ever moved forwards,
   and was released by at most one revision; each receipt names the revision that committed it.
   */
  lemma InboxSafety(rt: Runtime, events: seq<Event>, id: bytes)
    requires Lawful(rt) && AllFair(rt, events)
    ensures var log := RunHistory(rt, EMPTY, NOTHING, events).log;
            && Ordered(rt, log)
            && (forall n :: 0 <= n <= |log| ==> Find(Fold(log, n), id).Ok?)
            && (forall i, j :: 0 <= i < |log| && 0 <= j < |log| && Releases(log, i, id) && Releases(log, j, id) ==> i == j)
            && (forall i, j :: 0 <= i <= j <= |log| ==> Rank(StatusAt(log, i, id)) <= Rank(StatusAt(log, j, id)))
  {
    hide Lawful, AllFair, RunHistory, Find, Fold, StatusAt, Releases, Ordered, Rank;
    EmptyInbox(rt);
    RunKeeps(rt, EMPTY, NOTHING, events);
    var log := RunHistory(rt, EMPTY, NOTHING, events).log;
    forall n | 0 <= n <= |log| ensures Find(Fold(log, n), id).Ok? {
      OneStatus(rt, log, n, id);
    }
    forall i, j | 0 <= i < |log| && 0 <= j < |log| && Releases(log, i, id) && Releases(log, j, id) ensures i == j {
      ReleasedOnce(rt, log, i, j, id);
    }
    forall i, j | 0 <= i <= j <= |log| ensures Rank(StatusAt(log, i, id)) <= Rank(StatusAt(log, j, id)) {
      NeverBack(rt, log, i, j, id);
    }
  }

  lemma EmptyInbox(rt: Runtime)
    ensures InboxInv(rt, EMPTY, NOTHING)
  {
    hide Inv;
    EmptyInv(rt.h, rt.c);
  }
}
