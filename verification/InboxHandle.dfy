/** The inbox operations on a store handle, proved to take exactly the steps of `Inbox`. */
module InboxHandle {
  import opened Bytes
  import opened Payload
  import opened Journal
  import opened ReplayTheorems
  import opened Recovery
  import opened Snapshots
  import opened Durable
  import opened Inbox
  import opened InboxRuns
  import opened Seqs
  import Conditions
  import Scan
  import Store
  import Utf8

  /** `commit`: put the record under its status, delete it under the old one, commit; close on failure. */
  method CommitRecord(rt: Runtime, store: Store.Handle, record: Record, from: Option<Status>, w: Write)
    returns (r: Result<nat>)
    requires store.h == rt.h && store.c == rt.c && store.open && store.staged == []
    requires Lawful(rt) && ValidId(record.id) && Storable(rt, record)
    modifies store, store.files
    ensures var ms := [PutRecord(rt, record)]
                      + if from.Some? then [Mutation(MessageKey(from.value, record.id), true, [])] else [];
            (store.System(), r) == CommitBatch(rt.h, old(store.System()), ms, w.record, w.manifest)
    ensures r.Ok? ==> store.open && store.staged == []
  {
    hide CommitStep, Utf8.Valid, MessageKey, ValidId, Lawful, Storable;
    TextLaw(rt, record);
    ghost var before := store.System();
    ghost var put := PutRecord(rt, record);
    KeyWritable(record.status, record.id);
    r := store.Stage(MessageKey(record.status, record.id), Some(TextOf(rt, record)));
    assert [] + [put] == [put];
    ghost var ms := [put];
    if from.Some? {
      KeyWritable(from.value, record.id);
      r := store.Stage(MessageKey(from.value, record.id), None);
      ms := [put] + [Mutation(MessageKey(from.value, record.id), true, [])];
    } else {
      assert [put] + [] == [put];
    }
    assert store.System() == WithStaged(before, ms);
    r := store.Commit(w.record, w.manifest);
    CommitClears(rt.h, WithStaged(before, ms), w.record, w.manifest);
    if r.Err? {
      var _ := store.Close();
    }
  }

  /** `find`: the loop over the statuses. */
  method FindStatus(rt: Runtime, store: Store.Handle, id: bytes) returns (r: Result<Option<Status>>)
    requires store.c == rt.c
    ensures r == Search(rt, store.index, id, STATUSES, None)
  {
    hide MessageKey;
    var found: Option<Status> := None;
    assert STATUSES[0..] == STATUSES;
    for i := 0 to |STATUSES|
      invariant Search(rt, store.index, id, STATUSES, None) == Search(rt, store.index, id, STATUSES[i..], found)
    {
      assert STATUSES[i..][1..] == STATUSES[i + 1..] && STATUSES[i..][0] == STATUSES[i];
      if MessageKey(STATUSES[i], id) in store.index {
        var value := store.c.form(store.index[MessageKey(STATUSES[i], id)]);
        if value.Err? {
          return Err(value.error);
        }
        if found.Some? {
          return Err(Corruption);
        }
        found := Some(STATUSES[i]);
      }
    }
    return Ok(found);
  }

  /** `store_scan_page` decodes the values of its page. */
  method DecodePage(rt: Runtime, store: Store.Handle, keys: seq<bytes>) returns (fault: Option<Error>)
    requires store.c == rt.c
    ensures fault == PageFault(rt, store.index, keys)
  {
    assert keys[0..] == keys;
    for i := 0 to |keys|
      invariant PageFault(rt, store.index, keys) == PageFault(rt, store.index, keys[i..])
    {
      assert keys[i..][1..] == keys[i + 1..] && keys[i..][0] == keys[i];
      if keys[i] in store.index {
        var value := store.c.form(store.index[keys[i]]);
        if value.Err? {
          return Some(value.error);
        }
      }
    }
    return None;
  }

  /** `create`. */
  method CreateMessage(rt: Runtime, store: Store.Handle, id: bytes, spec: Spec, now: nat, w: Write)
    returns (r: Result<Record>)
    requires store.h == rt.h && store.c == rt.c && Lawful(rt) && TakenSpec(rt, spec) && Plain(rt, now)
    modifies store, store.files
    ensures (store.System(), r) == CreateStep(rt, old(store.System()), id, spec, now, w)
  {
    hide CommitBatch, Lawful, ValidId, Search, Got, PutRecord, Scan.Page, Scan.Order, Prefix, PageFault, TextFault, TakenSpec, Plain;
    if !store.open || store.staged != [] {
      return Err(InvalidState);
    }
    if !ValidId(id) {
      return Err(IdFault(id));
    }
    var long := TextFault(rt, Draft(id, spec, now));
    if long.Some? {
      return Err(long.value);
    }
    var found := FindStatus(rt, store, id);
    if found.Err? {
      return Err(found.error);
    }
    if found.value.Some? {
      var existing := Got(rt, store.index, found.value.value, id);
      if existing.Err? || existing.value.spec == spec {
        return existing;
      }
      return Err(Conflict);
    }
    var pending := store.ScanPage(Prefix(Pending), [], MAX_PENDING);
    var fault := DecodePage(rt, store, pending.value);
    if fault.Some? {
      return Err(fault.value);
    }
    if |pending.value| >= MAX_PENDING {
      return Err(Limit);
    }
    var candidate := Creation(id, spec, now, store.currentRev + 1);
    long := TextFault(rt, candidate);
    if long.Some? {
      return Err(long.value);
    }
    assert CreateAnswer(rt, old(store.System()), id, spec, now).None?;
    DraftTaken(rt, id, spec, now, store.currentRev + 1);
    var committed := CommitRecord(rt, store, candidate, None, w);
    assert [PutRecord(rt, candidate)] + [] == [PutRecord(rt, candidate)];
    return if committed.Err? then Err(committed.error) else Ok(candidate);
  }

  lemma DraftTaken(rt: Runtime, id: bytes, spec: Spec, now: nat, revision: nat)
    requires TakenSpec(rt, spec) && Plain(rt, now)
    ensures TakenRecord(rt, Creation(id, spec, now, revision))
  {
    hide Plain, TakenSpec;
  }

  lemma MoveParts(rt: Runtime, r: Record, to: Status, receipt: Receipt)
    ensures Move(rt, r, to, receipt)
         == [PutRecord(rt, Changed(r, to, receipt))] + [Mutation(MessageKey(r.status, Changed(r, to, receipt).id), true, [])]
  {
    hide MessageKey, PutRecord;
  }

  lemma GotTaken(rt: Runtime, index: Index, status: Status, id: bytes)
    requires Lawful(rt) && Got(rt, index, status, id).Ok?
    ensures var r := Got(rt, index, status, id).value; r.id == id && r.status == status && TakenRecord(rt, r)
  {
    hide Faithful, TakenRecord, MessageKey;
  }

  /** `transition`, for `acknowledge` and `cancel`. */
  method Transition(rt: Runtime, store: Store.Handle, id: bytes, target: Status, now: nat, w: Write)
    returns (r: Result<Record>)
    requires store.h == rt.h && store.c == rt.c && Lawful(rt) && (target == Acknowledged || target == Cancelled) && Plain(rt, now)
    modifies store, store.files
    ensures (store.System(), r) == TransitionStep(rt, old(store.System()), id, target, now, w)
  {
    hide CommitBatch, Lawful, ValidId, Search, Got, PutRecord, MessageKey, TextFault, TakenRecord, Plain;
    if !store.open || store.staged != [] {
      return Err(InvalidState);
    }
    if !ValidId(id) {
      return Err(IdFault(id));
    }
    var found := FindStatus(rt, store, id);
    if found.Err? {
      return Err(found.error);
    }
    if found.value.None? {
      return Err(NotFound);
    }
    var existing := Got(rt, store.index, found.value.value, id);
    if existing.Err? {
      return existing;
    }
    GotTaken(rt, store.index, found.value.value, id);
    var record := existing.value;
    if record.status == target {
      return existing;
    }
    if record.status == Acknowledged || record.status == Cancelled
       || (target == Acknowledged && record.status != Ready) {
      return Err(InvalidState);
    }
    var updated := Changed(record, target, Receipt(now, store.currentRev + 1, None));
    var long := TextFault(rt, updated);
    if long.Some? {
      return Err(long.value);
    }
    TakenChanged(rt, record, target, Receipt(now, store.currentRev + 1, None));
    MoveParts(rt, record, target, Receipt(now, store.currentRev + 1, None));
    var committed := CommitRecord(rt, store, updated, Some(record.status), w);
    return if committed.Err? then Err(committed.error) else Ok(updated);
  }

  /** The validation pass of `check`: every pending message is read and judged before any is moved. */
  method FindDue(rt: Runtime, index: Index, keys: seq<bytes>, context: Option<Conditions.Context>, now: nat)
    returns (r: Result<seq<Record>>)
    ensures r == DueRecords(rt, index, keys, context, now)
  {
    hide Prefix, Got, Conditions.Due, Conditions.IllTyped;
    var ready: seq<Record> := [];
    assert keys[0..] == keys;
    JoinedNothing(DueRecords(rt, index, keys, context, now));
    for i := 0 to |keys|
      invariant DueRecords(rt, index, keys, context, now) == Joined(ready, DueRecords(rt, index, keys[i..], context, now))
    {
      ghost var rest := keys[i..];
      assert rest[1..] == keys[i + 1..];
      if |keys[i]| < |Prefix(Pending)| {
        return Err(Corruption);
      }
      var record := Got(rt, index, Pending, keys[i][|Prefix(Pending)|..]);
      if record.Err? {
        return Err(record.error);
      }
      var condition := rt.condition(record.value.spec.condition);
      if condition.Err? {
        return Err(condition.error);
      }
      var verdict := Conditions.Evaluate(condition.value, context, rt.order(now));
      if verdict.Err? {
        return Err(Type);
      }
      JoinedMore(ready, record.value, DueRecords(rt, index, keys[i + 1..], context, now));
      if verdict.value.Ready? {
        ready := ready + [record.value];
      }
    }
    assert ready + [] == ready;
    return Ok(ready);
  }

  /** The loop of `check` that prepares every released record before the first commit. */
  method PrepareAll(rt: Runtime, due: seq<Record>, context: Option<bytes>, now: nat, first: nat) returns (fault: Option<Error>)
    ensures fault == PrepareFault(rt, due, context, now, first)
  {
    hide TextFault;
    assert due[0..] == due;
    for i := 0 to |due|
      invariant PrepareFault(rt, due, context, now, first) == PrepareFault(rt, due[i..], context, now, first + i)
    {
      assert due[i..][1..] == due[i + 1..] && due[i..][0] == due[i];
      fault := TextFault(rt, Changed(due[i], Ready, Receipt(now, first + i, context)));
      if fault.Some? {
        return;
      }
    }
    return None;
  }

  /** `check`. */
  method Check(
    rt: Runtime, store: Store.Handle, context: Option<Conditions.Context>, now: nat, writes: seq<Write>)
    returns (r: Result<seq<Record>>)
    requires store.h == rt.h && store.c == rt.c && Lawful(rt) && Plain(rt, now)
    requires forall status, id :: Held(store.index, status, id) ==> ValidId(id)
    modifies store, store.files
    ensures (store.System(), r) == CheckStep(rt, old(store.System()), context, now, writes)
  {
    hide Lawful, ValidId, DueRecords, Prefix, Scan.Page, Scan.Order, Release, Held, PageFault, PrepareFault, Plain, Releasable;
    if !store.open || store.staged != [] {
      return Err(InvalidState);
    }
    var pending := store.ScanPage(Prefix(Pending), [], MAX_PENDING + 1);
    var fault := DecodePage(rt, store, pending.value);
    if fault.Some? {
      return Err(fault.value);
    }
    if |pending.value| > MAX_PENDING {
      return Err(Limit);
    }
    var due := FindDue(rt, store.index, pending.value, context, now);
    if due.Err? {
      return due;
    }
    fault := PrepareAll(rt, due.value, ContextId(context), now, store.currentRev + 1);
    if fault.Some? {
      return Err(fault.value);
    }
    DueReleasable(rt, store.index, pending.value, context, now) by { PageIsPending(store.index, MAX_PENDING + 1); }
    var released := ReleaseAll(rt, store, due.value, ContextId(context), now, store.currentRev + 1, writes);
    return if released.Err? then Err(released.error) else due;
  }

  /** Pending, with an id that makes a key, and as `snapshot` gave it. */
  ghost predicate Releasable(rt: Runtime, due: seq<Record>) {
    forall i :: 0 <= i < |due| ==> due[i].status == Pending && ValidId(due[i].id) && TakenRecord(rt, due[i])
  }

  lemma DueReleasable(rt: Runtime, index: Index, keys: seq<bytes>, context: Option<Conditions.Context>, now: nat)
    requires Lawful(rt) && PendingKeys(index, keys) && DueRecords(rt, index, keys, context, now).Ok?
    requires forall status, id :: Held(index, status, id) ==> ValidId(id)
    ensures Releasable(rt, DueRecords(rt, index, keys, context, now).value)
  {
    hide Lawful, ValidId, DueRecords, Held, PendingKeys, Got, TakenRecord, Conditions.Due, MessageKey;
    DueArePending(rt, index, keys, context, now);
    var due := DueRecords(rt, index, keys, context, now).value;
    forall i | 0 <= i < |due| ensures due[i].status == Pending && ValidId(due[i].id) && TakenRecord(rt, due[i]) {
      assert IsDue(rt, index, keys, due[i], context, now);
      GotTaken(rt, index, Pending, due[i].id);
    }
  }

  /** The commits of `check`, one for each due record, in order. */
  method ReleaseAll(
    rt: Runtime, store: Store.Handle, due: seq<Record>, context: Option<bytes>, now: nat, first: nat, writes: seq<Write>)
    returns (r: Result<nat>)
    requires store.h == rt.h && store.c == rt.c && Lawful(rt) && store.open && store.staged == []
    requires Releasable(rt, due) && Plain(rt, now) && PrepareFault(rt, due, context, now, first).None?
    modifies store, store.files
    ensures (store.System(), r) == Release(rt, old(store.System()), due, context, now, first, writes)
  {
    hide CommitBatch, Lawful, ValidId, MessageKey, PutRecord, TextFault, Plain, TakenRecord;
    ghost var before := store.System();
    assert due[0..] == due && writes[0..] == writes;
    for i := 0 to |due|
      invariant i <= |writes| && store.open && store.staged == []
      invariant PrepareFault(rt, due[i..], context, now, first + i).None?
      invariant Release(rt, before, due, context, now, first, writes)
             == Release(rt, store.System(), due[i..], context, now, first + i, writes[i..])
    {
      assert due[i..][1..] == due[i + 1..];
      if i == |writes| {
        var _ := store.Close();
        return Err(Io);
      }
      assert writes[i..][1..] == writes[i + 1..];
      var updated := Changed(due[i], Ready, Receipt(now, first + i, context));
      MoveParts(rt, due[i], Ready, Receipt(now, first + i, context));
      TakenChanged(rt, due[i], Ready, Receipt(now, first + i, context));
      r := CommitRecord(rt, store, updated, Some(Pending), writes[i]);
      if r.Err? {
        return;
      }
    }
    return Ok(0);
  }
}
