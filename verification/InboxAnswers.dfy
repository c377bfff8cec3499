/** What the inbox's operations answer and leave, said of the contents of the store before and after them. */
module InboxAnswers {
  import opened Bytes
  import opened Payload
  import opened Journal
  import opened ReplayTheorems
  import opened Recovery
  import opened Snapshots
  import opened Durable
  import opened Inbox
  import opened InboxLog
  import opened InboxRuns
  import opened JsonData
  import Conditions
  import Scan

  // ----- check

  /** The message is pending in the contents, and its condition is met by this context at this time. */
  ghost predicate RipeIn(rt: Runtime, contents: Index, id: bytes, context: Option<Conditions.Context>, now: nat) {
    && Held(contents, Pending, id) && Validated(rt, contents, Pending, id).Ok?
    && var condition := rt.condition(Validated(rt, contents, Pending, id).value.spec.condition);
       condition.Ok? && Conditions.Ripe(condition.value, context, rt.order(now))
  }

  predicate Among(due: seq<Record>, id: bytes) { exists i :: 0 <= i < |due| && due[i].id == id }

  /** The validation pass misses nothing: every key was read, and a due message is in the list. */
  lemma {:induction false} DueComplete(
    rt: Runtime, index: Index, keys: seq<bytes>, context: Option<Conditions.Context>, now: nat, id: bytes)
    requires PendingKeys(index, keys) && DueRecords(rt, index, keys, context, now).Ok? && MessageKey(Pending, id) in keys
    ensures var r := Got(rt, index, Pending, id);
            && r.Ok? && rt.condition(r.value.spec.condition).Ok?
            && (Conditions.Due(rt.condition(r.value.spec.condition).value, context, rt.order(now)) ==>
                  r.value in DueRecords(rt, index, keys, context, now).value)
    decreases |keys|
  {
    hide Prefix, Conditions.Due, Conditions.IllTyped, MessageKey, Got;
    var key := keys[0];
    var first := key[|Prefix(Pending)|..];
    assert key == MessageKey(Pending, first) by { KeyOfPending(key); }
    KeyInjective(Pending, id, Pending, first);
    TailPending(index, keys);
    if id != first {
      assert MessageKey(Pending, id) in keys[1..];
      DueComplete(rt, index, keys[1..], context, now, id);
    }
  }

  /** The due messages come in the order of their keys. */
  lemma {:induction false} DueAscend(
    rt: Runtime, index: Index, keys: seq<bytes>, context: Option<Conditions.Context>, now: nat)
    requires PendingKeys(index, keys) && Scan.Ascending(keys) && DueRecords(rt, index, keys, context, now).Ok?
    ensures var due := DueRecords(rt, index, keys, context, now).value;
            forall i, j :: 0 <= i < j < |due| ==> Scan.Less(MessageKey(Pending, due[i].id), MessageKey(Pending, due[j].id))
    decreases |keys|
  {
    hide Prefix, Conditions.Due, Conditions.IllTyped, MessageKey, Got, Scan.Less;
    if keys != [] {
      var key := keys[0];
      assert key == MessageKey(Pending, key[|Prefix(Pending)|..]) by { KeyOfPending(key); }
      TailPending(index, keys);
      Scan.AscendingTail(keys);
      DueAscend(rt, index, keys[1..], context, now);
      DueArePending(rt, index, keys[1..], context, now);
      var rest := DueRecords(rt, index, keys[1..], context, now).value;
      GotNames(rt, index, key[|Prefix(Pending)|..]);
      forall i | 0 <= i < |rest| ensures Scan.Less(key, MessageKey(Pending, rest[i].id)) {
        assert IsDue(rt, index, keys[1..], rest[i], context, now);
        var k :| 0 <= k < |keys[1..]| && keys[1..][k] == MessageKey(Pending, rest[i].id);
        assert keys[k + 1] == MessageKey(Pending, rest[i].id);
      }
    }
  }

  lemma GotNames(rt: Runtime, index: Index, id: bytes)
    ensures Got(rt, index, Pending, id).Ok? ==> Got(rt, index, Pending, id).value.id == id
  {
    hide Held;
  }

  /** What the finished release leaves: every due message ready, with the receipt of its own revision, and nothing else changed. */
  ghost predicate Released(
    rt: Runtime, before: Index, after: Index, due: seq<Record>, context: Option<bytes>, now: nat, first: nat)
  {
    && (forall i :: 0 <= i < |due| ==>
          && Filed(rt, after, Ready, due[i].id, Changed(due[i], Ready, Receipt(now, first + i, context)))
          && !Held(after, Pending, due[i].id)
          && SameAt(before, after, Acknowledged, due[i].id) && SameAt(before, after, Cancelled, due[i].id))
    && (forall id, status :: !Among(due, id) ==> SameAt(before, after, status, id))
  }

  lemma {:induction false} ReleaseLands(
    rt: Runtime, s: System, hist: History, due: seq<Record>, context: Option<bytes>, now: nat, first: nat, writes: seq<Write>)
    requires Lawful(rt) && InboxInv(rt, s, hist) && Clean(s) && Plain(rt, now)
    requires PendingIn(rt, Contents(hist), due) && first == |hist.log| + 1 && PrepareFault(rt, due, context, now, first).None?
    requires Release(rt, s, due, context, now, first, writes).1.Ok?
    ensures var next := ReleaseHistory(rt, s, hist, due, context, now, first, writes);
            && Clean(Release(rt, s, due, context, now, first, writes).0)
            && |next.log| == |hist.log| + |due|
            && Released(rt, Contents(hist), Contents(next), due, context, now, first)
    decreases |due|
  {
    hide InboxInv, CommitBatch, BatchHistory, Lawful, ValidId, Held, At, Contents, Move, PendingIn, Plain, TakenRecord, TextFault, Released;
    if due == [] {
      NothingReleased(rt, Contents(hist), context, now, first);
    } else {
      var receipt := Receipt(now, first, context);
      var ms := Move(rt, due[0], Ready, receipt);
      var w := writes[0];
      FirstPending(rt, Contents(hist), due);
      TakenChanged(rt, due[0], Ready, receipt);
      MoveWritable(rt, due[0], Ready, receipt);
      CommitOrdered(rt, s, hist, ms, w, Moved(due[0], Ready, receipt));
      var (n, r) := CommitBatch(rt.h, s, ms, w.record, w.manifest);
      var next := BatchHistory(rt.h, rt.c, s, hist, ms, w.record, w.manifest);
      PendingAfterMove(rt, Contents(hist), due, receipt);
      ContentsGrow(hist, next, ms);
      ReleaseLands(rt, n, next, due[1..], context, now, first + 1, writes[1..]);
      var last := ReleaseHistory(rt, n, next, due[1..], context, now, first + 1, writes[1..]);
      FirstReleased(rt, Contents(hist), Contents(next), Contents(last), due, context, now, first);
    }
  }

  lemma NothingReleased(rt: Runtime, contents: Index, context: Option<bytes>, now: nat, first: nat)
    ensures Released(rt, contents, contents, [], context, now, first)
  {
    hide MessageKey;
  }

  lemma FirstReleased(
    rt: Runtime, before: Index, between: Index, after: Index, due: seq<Record>, context: Option<bytes>, now: nat, first: nat)
    requires Lawful(rt) && due != [] && PendingIn(rt, before, due)
    requires Storable(rt, Changed(due[0], Ready, Receipt(now, first, context)))
    requires between == Apply(before, Move(rt, due[0], Ready, Receipt(now, first, context)))
    requires Released(rt, between, after, due[1..], context, now, first + 1)
    ensures Released(rt, before, after, due, context, now, first)
  {
    hide Lawful, ValidId, Held, At, Apply, Move, SameAt, Storable, TakenRecord, Filed, Validated;
    var rest := due[1..];
    var receipt := Receipt(now, first, context);
    MoveEffect(rt, before, due[0], Ready, receipt);
    assert !Among(rest, due[0].id) by {
      forall i | 0 <= i < |rest| ensures rest[i].id != due[0].id { assert rest[i] == due[i + 1]; }
    }
    forall status ensures SameAt(between, after, status, due[0].id) {}
    SameOne(rt, between, after, Ready, due[0].id);
    SameOne(rt, between, after, Pending, due[0].id);
    forall status | status == Acknowledged || status == Cancelled ensures SameAt(before, after, status, due[0].id) {
      SameChain(before, between, after, status, due[0].id);
    }
    forall i | 0 < i < |due|
      ensures Filed(rt, after, Ready, due[i].id, Changed(due[i], Ready, Receipt(now, first + i, context)))
      ensures !Held(after, Pending, due[i].id)
      ensures SameAt(before, after, Acknowledged, due[i].id) && SameAt(before, after, Cancelled, due[i].id)
    {
      assert rest[i - 1] == due[i];
      SameChain(before, between, after, Acknowledged, due[i].id);
      SameChain(before, between, after, Cancelled, due[i].id);
    }
    forall id, status | !Among(due, id) ensures SameAt(before, after, status, id) {
      assert due[0].id != id;
      forall i | 0 <= i < |rest| ensures rest[i].id != id { assert rest[i] == due[i + 1]; }
      SameChain(before, between, after, status, id);
    }
  }

  lemma SameChain(a: Index, b: Index, c: Index, status: Status, id: bytes)
    requires SameAt(a, b, status, id) && SameAt(b, c, status, id)
    ensures SameAt(a, c, status, id)
  {
    hide MessageKey;
  }

  // ----- how many messages are pending

  function PendingKeysOf(contents: Index): set<bytes> { set k | k in contents && Prefix(Pending) <= k }

  lemma {:induction false} DistinctSize(s: seq<bytes>)
    requires forall i, j :: 0 <= i < j < |s| ==> s[i] != s[j]
    ensures |s| == |set k | k in s|
  {
    if s != [] {
      DistinctSize(s[1..]);
      assert (set k | k in s) == {s[0]} + (set k | k in s[1..]);
    }
  }

  /** A page holds all the pending messages, or as many as were asked for. */
  lemma PageSize(index: Index, limit: nat)
    ensures |PendingPage(index, limit)| == if |PendingKeysOf(index)| <= limit then |PendingKeysOf(index)| else limit
  {
    hide Prefix, Scan.Less, Scan.Matching, Scan.Page, Scan.Order;
    var order := Scan.Order(index.Keys);
    Scan.OrderAscending(index.Keys);
    Scan.PageExact(order, Prefix(Pending), [], limit);
    Scan.MatchingProperties(order, Prefix(Pending), []);
    PrefixAscii(Pending);
    var all := Scan.Matching(order, Prefix(Pending), []);
    forall k ensures k in all <==> k in PendingKeysOf(index) {
      if Prefix(Pending) <= k {
        assert k != [];
        AboveNothing(k);
      }
    }
    forall i, j | 0 <= i < j < |all| ensures all[i] != all[j] {
      assert Scan.Less(all[i], all[j]);
      Scan.LessTotal(all[i], all[i]);
    }
    DistinctSize(all);
    assert (set k | k in all) == PendingKeysOf(index);
  }

  lemma SamePendingKeys(rt: Runtime, s: System, hist: History)
    requires Lawful(rt) && InboxInv(rt, s, hist) && s.memory.Some?
    ensures PendingKeysOf(s.memory.value.index) == PendingKeysOf(Contents(hist))
  {
    hide Inv, Contents, Prefix, Ordered, StagedForeign, Faithful;
    FaithfulOf(rt);
    IndexIsContents(rt.h, rt.c, s, hist);
  }

  // ----- the theorem

  /**
   A `check` that reports success released exactly the messages that were pending and whose condition this context meets at
   this time, in the order of their ids, one revision each. Each of them is ready, with its old record and the receipt of
   its own revision; every other message is where it was. At most 1024 messages were pending.
   */
  lemma CheckReleases(rt: Runtime, s: System, hist: History, context: Option<Conditions.Context>, now: nat, writes: seq<Write>)
    requires Lawful(rt) && InboxInv(rt, s, hist) && Plain(rt, now) && CheckStep(rt, s, context, now, writes).1.Ok?
    ensures var (n, r) := CheckStep(rt, s, context, now, writes);
            var next := CheckHistory(rt, s, hist, context, now, writes);
            && Clean(n) && |next.log| == |hist.log| + |r.value| && |PendingKeysOf(Contents(hist))| <= 1024
            && (forall id :: Among(r.value, id) <==> RipeIn(rt, Contents(hist), id, context, now))
            && (forall i :: 0 <= i < |r.value| ==> Validated(rt, Contents(hist), Pending, r.value[i].id) == Ok(r.value[i]))
            && (forall i, j :: 0 <= i < j < |r.value| ==>
                  Scan.Less(MessageKey(Pending, r.value[i].id), MessageKey(Pending, r.value[j].id)))
            && Released(rt, Contents(hist), Contents(next), r.value, ContextId(context), now, |hist.log| + 1)
  {
    hide InboxInv, Lawful, Contents, DueRecords, PendingPage, PageFault, PrepareFault, Faithful, PendingKeys, PendingIn, Release,
         ReleaseHistory, Released, Plain, RipeIn, Validated, MessageKey, Scan.Less, PendingKeysOf;
    var index := s.memory.value.index;
    var due := CheckStep(rt, s, context, now, writes).1.value;
    PreparedReady(rt, s, hist, context, now);
    PageSize(index, MAX_PENDING + 1);
    SamePendingKeys(rt, s, hist);
    ReleaseLands(rt, s, hist, due, ContextId(context), now, |hist.log| + 1, writes);
    DueInOrder(rt, index, context, now);
    forall id ensures Among(due, id) <==> RipeIn(rt, Contents(hist), id, context, now) {
      DueExact(rt, s, hist, context, now, id);
    }
    PendingRecords(rt, Contents(hist), due);
  }

  lemma PendingRecords(rt: Runtime, contents: Index, due: seq<Record>)
    requires PendingIn(rt, contents, due)
    ensures forall i :: 0 <= i < |due| ==> Validated(rt, contents, Pending, due[i].id) == Ok(due[i])
  {
    hide Validated, Held, ValidId, TakenRecord;
  }

  lemma DueInOrder(rt: Runtime, index: Index, context: Option<Conditions.Context>, now: nat)
    requires DueRecords(rt, index, PendingPage(index, MAX_PENDING + 1), context, now).Ok?
    ensures var due := DueRecords(rt, index, PendingPage(index, MAX_PENDING + 1), context, now).value;
            forall i, j :: 0 <= i < j < |due| ==> Scan.Less(MessageKey(Pending, due[i].id), MessageKey(Pending, due[j].id))
  {
    hide DueRecords, Prefix, MessageKey, Scan.Less, Scan.Matching, Scan.Page, Scan.Order;
    var order := Scan.Order(index.Keys);
    Scan.OrderAscending(index.Keys);
    Scan.PageExact(order, Prefix(Pending), [], MAX_PENDING + 1);
    Scan.MatchingProperties(order, Prefix(Pending), []);
    PageIsPending(index, MAX_PENDING + 1);
    DueAscend(rt, index, PendingPage(index, MAX_PENDING + 1), context, now);
  }

  /** What `check` releases is what the log has pending and ripe. */
  lemma DueExact(rt: Runtime, s: System, hist: History, context: Option<Conditions.Context>, now: nat, id: bytes)
    requires Lawful(rt) && InboxInv(rt, s, hist) && Prepared(rt, s, context, now).Ok?
    ensures Among(Prepared(rt, s, context, now).value, id) <==> RipeIn(rt, Contents(hist), id, context, now)
  {
    hide InboxInv, Lawful, Contents, DueRecords, PendingPage, PageFault, PrepareFault, Faithful, PendingKeys, PendingIn,
         Validated, MessageKey, Held, Conditions.Due, Conditions.Ripe, Got, Readable;
    var index := s.memory.value.index;
    var keys := PendingPage(index, MAX_PENDING + 1);
    var due := Prepared(rt, s, context, now).value;
    PageIsPending(index, MAX_PENDING + 1);
    DueArePending(rt, index, keys, context, now);
    FormStored(rt, s, hist, Pending, id);
    if Among(due, id) {
      var i :| 0 <= i < |due| && due[i].id == id;
      assert IsDue(rt, index, keys, due[i], context, now);
      GotStored(rt, s, hist, Pending, id);
      DueIsRipeAt(rt, due[i], context, now);
    }
    if RipeIn(rt, Contents(hist), id, context, now) {
      GotStored(rt, s, hist, Pending, id);
      HeldKey(index, id);
      PageIsWhole(index, MAX_PENDING + 1, MessageKey(Pending, id));
      DueComplete(rt, index, keys, context, now, id);
      DueIsRipeAt(rt, Stored(rt, hist, Pending, id), context, now);
      assert Stored(rt, hist, Pending, id) in due;
    }
  }

  lemma HeldKey(index: Index, id: bytes)
    ensures Held(index, Pending, id) ==> MessageKey(Pending, id) in index
    ensures Prefix(Pending) <= MessageKey(Pending, id)
  {
    hide Prefix;
  }

  lemma DueIsRipeAt(rt: Runtime, r: Record, context: Option<Conditions.Context>, now: nat)
    requires rt.condition(r.spec.condition).Ok?
    ensures Conditions.Due(rt.condition(r.spec.condition).value, context, rt.order(now))
       <==> Conditions.Ripe(rt.condition(r.spec.condition).value, context, rt.order(now))
  {
    hide Conditions.Due, Conditions.Ripe;
    Conditions.DueIsRipe(rt.condition(r.spec.condition).value, context, rt.order(now));
  }

  // ----- when a check does not start

  /** Every pending message is readable and can be judged in this context. */
  ghost predicate Judgeable(rt: Runtime, contents: Index, context: Option<Conditions.Context>) {
    forall id :: Held(contents, Pending, id) ==> JudgeableAt(rt, contents, id, context)
  }

  ghost predicate JudgeableAt(rt: Runtime, contents: Index, id: bytes, context: Option<Conditions.Context>) {
    var r := Validated(rt, contents, Pending, id);
    r.Ok? && Readable(r.value) && rt.condition(r.value.spec.condition).Ok?
    && !Conditions.Clashes(rt.condition(r.value.spec.condition).value, context)
  }

  /** What is stored is at most 128 KiB of text. */
  lemma FitsExact(rt: Runtime, r: Record)
    ensures TextFault(rt, r).None? <==> rt.encode(r).Ok? && |rt.encode(r).value| <= 131_072
    ensures TextFault(rt, r).Some? ==> TextFault(rt, r).value == if rt.encode(r).Err? then rt.encode(r).error else Limit
  {}

  lemma {:induction false} FaultNamed(rt: Runtime, due: seq<Record>, context: Option<bytes>, now: nat, first: nat)
    requires PrepareFault(rt, due, context, now, first).Some?
    ensures exists i :: 0 <= i < |due|
              && TextFault(rt, Changed(due[i], Ready, Receipt(now, first + i, context))) == PrepareFault(rt, due, context, now, first)
    decreases |due|
  {
    hide TextFault;
    if TextFault(rt, Changed(due[0], Ready, Receipt(now, first, context))).None? {
      FaultNamed(rt, due[1..], context, now, first + 1);
      var i :| 0 <= i < |due[1..]|
        && TextFault(rt, Changed(due[1..][i], Ready, Receipt(now, first + 1 + i, context))) == PrepareFault(rt, due, context, now, first);
      assert due[i + 1] == due[1..][i] && first + (i + 1) == first + 1 + i;
    } else {
      assert first + 0 == first;
      assert TextFault(rt, Changed(due[0], Ready, Receipt(now, first + 0, context))).Some?;
    }
  }

  /** When the keys are judged in order, the first that cannot be judged decides. */
  lemma {:induction false} DueJudged(
    rt: Runtime, s: System, hist: History, keys: seq<bytes>, context: Option<Conditions.Context>, now: nat)
    requires Lawful(rt) && InboxInv(rt, s, hist) && s.memory.Some? && PendingKeys(s.memory.value.index, keys)
    ensures DueRecords(rt, s.memory.value.index, keys, context, now).Ok?
       <==> forall id :: MessageKey(Pending, id) in keys ==> JudgeableAt(rt, Contents(hist), id, context)
    decreases |keys|
  {
    hide InboxInv, Lawful, Contents, Prefix, MessageKey, Validated, Readable, Storable, Conditions.Clashes, Conditions.IllTyped, Got, JudgeableAt,
         Conditions.Due;
    if keys != [] {
      var index := s.memory.value.index;
      var first := keys[0][|Prefix(Pending)|..];
      assert keys[0] == MessageKey(Pending, first) by { KeyOfPending(keys[0]); }
      FormStored(rt, s, hist, Pending, first);
      FirstJudged(rt, s, hist, first, context);
      TailPending(index, keys);
      DueJudged(rt, s, hist, keys[1..], context, now);
      assert forall key :: key in keys <==> key == keys[0] || key in keys[1..];
      forall id ensures MessageKey(Pending, id) == keys[0] <==> id == first {
        KeyInjective(Pending, id, Pending, first);
      }
      assert MessageKey(Pending, first) in keys;
    }
  }

  lemma FirstJudged(rt: Runtime, s: System, hist: History, id: bytes, context: Option<Conditions.Context>)
    requires Lawful(rt) && InboxInv(rt, s, hist) && s.memory.Some? && Held(s.memory.value.index, Pending, id)
    ensures var r := Got(rt, s.memory.value.index, Pending, id);
            JudgeableAt(rt, Contents(hist), id, context)
            <==> r.Ok? && rt.condition(r.value.spec.condition).Ok?
                 && !Conditions.IllTyped(rt.condition(r.value.spec.condition).value, context)
  {
    hide InboxInv, Lawful, Contents, Prefix, MessageKey, Held, Validated, Readable, Storable, Conditions.Clashes, Conditions.IllTyped, Got;
    FormStored(rt, s, hist, Pending, id);
    GotStored(rt, s, hist, Pending, id);
    var stored := Stored(rt, hist, Pending, id);
    if rt.condition(stored.spec.condition).Ok? {
      Conditions.IllTypedClashes(rt.condition(stored.spec.condition).value, context);
    }
  }

  /**
   A `check` comes to its commits only if nothing is staged, at most 1024 messages are pending and each of them can be judged;
   and then only the text of a released message that is too long keeps it from them. Until then nothing changes.
   */
  lemma CheckStarts(rt: Runtime, s: System, hist: History, context: Option<Conditions.Context>, now: nat, writes: seq<Write>)
    requires Lawful(rt) && InboxInv(rt, s, hist)
    ensures var ready := s.memory.Some? && s.memory.value.staged == [] && |PendingKeysOf(Contents(hist))| <= 1024
                         && Judgeable(rt, Contents(hist), context);
            && (Prepared(rt, s, context, now).Err? ==>
                  CheckStep(rt, s, context, now, writes) == (s, Prepared(rt, s, context, now))
                  && CheckHistory(rt, s, hist, context, now, writes) == hist)
            && (!ready ==> Prepared(rt, s, context, now).Err?)
            && (ready && Prepared(rt, s, context, now).Err? ==>
                  exists id, revision :: TooLong(rt, Contents(hist), id, context, now, revision, Prepared(rt, s, context, now).error))
  {
    hide InboxInv, Lawful, Contents, DueRecords, PendingPage, PageFault, PrepareFault, Judgeable, PendingKeysOf, TooLong, Release,
         ReleaseHistory;
    if Clean(s) {
      var index := s.memory.value.index;
      var keys := PendingPage(index, MAX_PENDING + 1);
      PageSize(index, MAX_PENDING + 1);
      SamePendingKeys(rt, s, hist);
      if |PendingKeysOf(Contents(hist))| <= 1024 {
        PageIsPending(index, MAX_PENDING + 1);
        AllJudged(rt, s, hist, context, now);
        if Judgeable(rt, Contents(hist), context) && Prepared(rt, s, context, now).Err? {
          LongNamed(rt, s, hist, context, now);
        }
      }
    }
  }

  /** The message is ripe, and its record once released with this revision would not encode, or would be too long. */
  ghost predicate TooLong(
    rt: Runtime, contents: Index, id: bytes, context: Option<Conditions.Context>, now: nat, revision: nat, error: Error)
  {
    && Held(contents, Pending, id) && Validated(rt, contents, Pending, id).Ok?
    && TextFault(rt, Changed(Validated(rt, contents, Pending, id).value, Ready, Receipt(now, revision, ContextId(context)))) == Some(error)
  }

  lemma AllJudged(rt: Runtime, s: System, hist: History, context: Option<Conditions.Context>, now: nat)
    requires Lawful(rt) && InboxInv(rt, s, hist) && s.memory.Some?
    requires |PendingPage(s.memory.value.index, MAX_PENDING + 1)| <= MAX_PENDING
    ensures var index := s.memory.value.index;
            var keys := PendingPage(index, MAX_PENDING + 1);
            && (Judgeable(rt, Contents(hist), context) <==> DueRecords(rt, index, keys, context, now).Ok?)
            && (Judgeable(rt, Contents(hist), context) ==> PageFault(rt, index, keys).None?)
  {
    hide InboxInv, Lawful, Contents, DueRecords, PendingPage, PageFault, JudgeableAt, PendingKeys, MessageKey;
    var index := s.memory.value.index;
    var keys := PendingPage(index, MAX_PENDING + 1);
    PageIsPending(index, MAX_PENDING + 1);
    DueJudged(rt, s, hist, keys, context, now);
    forall id ensures Held(Contents(hist), Pending, id) <==> MessageKey(Pending, id) in keys {
      FormStored(rt, s, hist, Pending, id);
      HeldKey(index, id);
      if Held(index, Pending, id) {
        PageIsWhole(index, MAX_PENDING + 1, MessageKey(Pending, id));
      }
      if MessageKey(Pending, id) in keys {
        InPage(index, keys, MessageKey(Pending, id));
      }
    }
    if Judgeable(rt, Contents(hist), context) {
      NoFault(rt, s, hist, keys, context);
    }
  }

  lemma InPage(index: Index, keys: seq<bytes>, key: bytes)
    requires PendingKeys(index, keys) && key in keys
    ensures key in index
  {
    hide Prefix;
  }

  lemma {:induction false} NoFault(rt: Runtime, s: System, hist: History, keys: seq<bytes>, context: Option<Conditions.Context>)
    requires Lawful(rt) && InboxInv(rt, s, hist) && s.memory.Some? && PendingKeys(s.memory.value.index, keys)
    requires forall id :: MessageKey(Pending, id) in keys ==> JudgeableAt(rt, Contents(hist), id, context)
    ensures PageFault(rt, s.memory.value.index, keys).None?
    decreases |keys|
  {
    hide InboxInv, Lawful, Contents, Validated, Readable, MessageKey, Prefix, Storable, TextOf, Conditions.Clashes;
    if keys != [] {
      var index := s.memory.value.index;
      var first := keys[0][|Prefix(Pending)|..];
      assert keys[0] == MessageKey(Pending, first) by { KeyOfPending(keys[0]); }
      assert MessageKey(Pending, first) in keys;
      assert JudgeableAt(rt, Contents(hist), first, context);
      FormStored(rt, s, hist, Pending, first);
      TailPending(index, keys);
      NoFault(rt, s, hist, keys[1..], context);
    }
  }

  lemma LongNamed(rt: Runtime, s: System, hist: History, context: Option<Conditions.Context>, now: nat)
    requires Lawful(rt) && InboxInv(rt, s, hist) && Clean(s)
    requires |PendingPage(s.memory.value.index, MAX_PENDING + 1)| <= MAX_PENDING
    requires Judgeable(rt, Contents(hist), context) && Prepared(rt, s, context, now).Err?
    ensures exists id, revision :: TooLong(rt, Contents(hist), id, context, now, revision, Prepared(rt, s, context, now).error)
  {
    hide InboxInv, Lawful, Contents, DueRecords, PendingPage, PageFault, Judgeable, PendingKeys, PendingIn, TextFault, PrepareFault,
         MessageKey, Validated;
    var index := s.memory.value.index;
    var keys := PendingPage(index, MAX_PENDING + 1);
    AllJudged(rt, s, hist, context, now);
    PageIsPending(index, MAX_PENDING + 1);
    SamePending(rt, s, hist, keys, context, now);
    var due := DueRecords(rt, index, keys, context, now).value;
    var first := s.memory.value.currentRev + 1;
    FaultNamed(rt, due, ContextId(context), now, first);
    var i :| 0 <= i < |due|
      && TextFault(rt, Changed(due[i], Ready, Receipt(now, first + i, ContextId(context))))
         == PrepareFault(rt, due, ContextId(context), now, first);
    PendingRecord(rt, Contents(hist), due, i);
    assert TooLong(rt, Contents(hist), due[i].id, context, now, first + i, Prepared(rt, s, context, now).error);
  }

  lemma PendingRecord(rt: Runtime, contents: Index, due: seq<Record>, i: nat)
    requires PendingIn(rt, contents, due) && i < |due|
    ensures Held(contents, Pending, due[i].id) && Validated(rt, contents, Pending, due[i].id) == Ok(due[i])
  {
    hide Validated, Held, ValidId, TakenRecord;
  }

  /** Readable messages that cannot be judged are a type error. */
  lemma {:induction false} ClashIsType(
    rt: Runtime, s: System, hist: History, keys: seq<bytes>, context: Option<Conditions.Context>, now: nat)
    requires Lawful(rt) && InboxInv(rt, s, hist) && s.memory.Some? && PendingKeys(s.memory.value.index, keys)
    requires PageFault(rt, s.memory.value.index, keys).None? && DueRecords(rt, s.memory.value.index, keys, context, now).Err?
    ensures DueRecords(rt, s.memory.value.index, keys, context, now) == Err(Type)
    decreases |keys|
  {
    hide InboxInv, Lawful, Contents, Prefix, MessageKey, Validated, Readable, Storable, Conditions.IllTyped, Got, Conditions.Due, TextOf;
    var index := s.memory.value.index;
    var first := keys[0][|Prefix(Pending)|..];
    assert keys[0] == MessageKey(Pending, first) by { KeyOfPending(keys[0]); }
    FormStored(rt, s, hist, Pending, first);
    GotStored(rt, s, hist, Pending, first);
    StorableCondition(rt, Stored(rt, hist, Pending, first));
    TailPending(index, keys);
    if DueRecords(rt, index, keys[1..], context, now).Err? {
      ClashIsType(rt, s, hist, keys[1..], context, now);
    }
  }

  lemma StorableCondition(rt: Runtime, r: Record)
    requires Storable(rt, r)
    ensures rt.condition(r.spec.condition).Ok?
  {
    hide Taken;
  }

  /** Which error a check that cannot start answers. */
  lemma CheckErrors(rt: Runtime, s: System, hist: History, context: Option<Conditions.Context>, now: nat, writes: seq<Write>)
    requires Lawful(rt) && InboxInv(rt, s, hist)
    ensures var r := CheckStep(rt, s, context, now, writes).1;
            && (s.memory.None? || s.memory.value.staged != [] ==> r == Err(InvalidState))
            && (Clean(s) && |PendingKeysOf(Contents(hist))| > 1024 ==> r == Err(Limit))
            && (Clean(s) && |PendingKeysOf(Contents(hist))| <= 1024 && !Judgeable(rt, Contents(hist), context) ==>
                  r == Err(Limit) || r == Err(Type))
            && ((Clean(s) && |PendingKeysOf(Contents(hist))| <= 1024 && !Judgeable(rt, Contents(hist), context)
                 && forall id :: Held(Contents(hist), Pending, id) ==> ReadableAt(rt, Contents(hist), id)) ==> r == Err(Type))
  {
    hide InboxInv, Lawful, Contents, DueRecords, PendingPage, PageFault, PrepareFault, Judgeable, PendingKeysOf, Release, ReadableAt;
    if Clean(s) {
      var index := s.memory.value.index;
      var keys := PendingPage(index, MAX_PENDING + 1);
      PageSize(index, MAX_PENDING + 1);
      SamePendingKeys(rt, s, hist);
      PageIsPending(index, MAX_PENDING + 1);
      PageStored(rt, s, hist, keys);
      if |PendingKeysOf(Contents(hist))| <= 1024 && !Judgeable(rt, Contents(hist), context) {
        AllJudged(rt, s, hist, context, now);
        if PageFault(rt, index, keys).None? {
          ClashIsType(rt, s, hist, keys, context, now);
        } else if forall id :: Held(Contents(hist), Pending, id) ==> ReadableAt(rt, Contents(hist), id) {
          AllReadable(rt, s, hist, keys);
        }
      }
    }
  }

  ghost predicate ReadableAt(rt: Runtime, contents: Index, id: bytes) {
    Validated(rt, contents, Pending, id).Ok? && Readable(Validated(rt, contents, Pending, id).value)
  }

  lemma {:induction false} AllReadable(rt: Runtime, s: System, hist: History, keys: seq<bytes>)
    requires Lawful(rt) && InboxInv(rt, s, hist) && s.memory.Some? && PendingKeys(s.memory.value.index, keys)
    requires forall id :: Held(Contents(hist), Pending, id) ==> ReadableAt(rt, Contents(hist), id)
    ensures PageFault(rt, s.memory.value.index, keys).None?
    decreases |keys|
  {
    hide InboxInv, Lawful, Contents, Validated, Readable, MessageKey, Prefix, Storable, TextOf;
    if keys != [] {
      var index := s.memory.value.index;
      var first := keys[0][|Prefix(Pending)|..];
      assert keys[0] == MessageKey(Pending, first) by { KeyOfPending(keys[0]); }
      FormStored(rt, s, hist, Pending, first);
      assert ReadableAt(rt, Contents(hist), first);
      TailPending(index, keys);
      AllReadable(rt, s, hist, keys[1..]);
    }
  }

  // ----- create

  /** What must hold for a new message to be committed. */
  ghost predicate Fileable(rt: Runtime, s: System, hist: History, id: bytes, spec: Spec, now: nat) {
    && s.memory.Some? && s.memory.value.staged == [] && ValidId(id)
    && rt.encode(Record(id, spec, Pending, now, map[])).Ok? && |rt.encode(Record(id, spec, Pending, now, map[])).value| <= 131_072
    && |PendingKeysOf(Contents(hist))| < 1024
    && (forall other :: Held(Contents(hist), Pending, other) ==> ReadableAt(rt, Contents(hist), other))
    && rt.encode(NewRecord(id, spec, now, |hist.log| + 1)).Ok? && |rt.encode(NewRecord(id, spec, now, |hist.log| + 1)).value| <= 131_072
  }

  /** A record as it is first stored: with the receipt of its creation. */
  function NewRecord(id: bytes, spec: Spec, now: nat, revision: nat): Record {
    Record(id, spec, Pending, now, map[Pending := Receipt(now, revision, None)])
  }

  /** With fewer than 1024 messages pending the page that `create` reads is whole. */
  lemma PageReadable(rt: Runtime, s: System, hist: History)
    requires Lawful(rt) && InboxInv(rt, s, hist) && s.memory.Some?
    ensures var page := PendingPage(s.memory.value.index, MAX_PENDING);
            var fault := PageFault(rt, s.memory.value.index, page);
            && (fault.None? || fault == Some(Limit))
            && (|page| < MAX_PENDING <==> |PendingKeysOf(Contents(hist))| < 1024)
            && (|page| < MAX_PENDING ==>
                  (fault.None? <==> forall id :: Held(Contents(hist), Pending, id) ==> ReadableAt(rt, Contents(hist), id)))
  {
    hide InboxInv, Lawful, Contents, PendingPage, PageFault, PendingKeysOf, MessageKey, Validated, Readable, PendingKeys;
    var index := s.memory.value.index;
    var page := PendingPage(index, MAX_PENDING);
    PageSize(index, MAX_PENDING);
    SamePendingKeys(rt, s, hist);
    PageIsPending(index, MAX_PENDING);
    PageStored(rt, s, hist, page);
    if |page| < MAX_PENDING {
      if forall id :: Held(Contents(hist), Pending, id) ==> ReadableAt(rt, Contents(hist), id) {
        AllReadable(rt, s, hist, page);
      }
      if PageFault(rt, index, page).None? {
        forall id | Held(Contents(hist), Pending, id) ensures ReadableAt(rt, Contents(hist), id) {
          FormStored(rt, s, hist, Pending, id);
          HeldKey(index, id);
          PageIsWhole(index, MAX_PENDING, MessageKey(Pending, id));
        }
      }
    }
  }

  /**
   A message whose id is not there yet is committed only if nothing is staged, its id and its text are acceptable, fewer than
   1024 messages are pending and all of them can be read. Otherwise the answer is an error and nothing changes; with 1024
   messages pending it is `Limit`.
   */
  lemma CreateExact(rt: Runtime, s: System, hist: History, id: bytes, spec: Spec, now: nat, w: Write)
    requires Lawful(rt) && InboxInv(rt, s, hist) && Find(Contents(hist), id) == Ok(None)
    ensures var (n, r) := CreateStep(rt, s, id, spec, now, w);
            && (CreateAnswer(rt, s, id, spec, now).None? <==> Fileable(rt, s, hist, id, spec, now))
            && (!Fileable(rt, s, hist, id, spec, now) ==>
                  n == s && CreateHistory(rt, s, hist, id, spec, now, w) == hist && r.Err?)
            && (Clean(s) && ValidId(id) && TextFault(rt, Draft(id, spec, now)).None? && |PendingKeysOf(Contents(hist))| >= 1024 ==>
                  r == Err(Limit))
  {
    hide InboxInv, Lawful, Contents, PendingPage, PageFault, PendingKeysOf, Search, ValidId, ReadableAt, Find, CommitBatch, BatchHistory,
         TextFault, Held;
    FitsExact(rt, Draft(id, spec, now));
    FitsExact(rt, NewRecord(id, spec, now, |hist.log| + 1));
    NewIsCreation(id, spec, now, |hist.log| + 1);
    if s.memory.Some? {
      FaithfulOf(rt);
      RevisionOfLog(rt, s, hist);
      SearchStored(rt, s, hist, id);
      PageReadable(rt, s, hist);
    }
  }

  lemma NewIsCreation(id: bytes, spec: Spec, now: nat, revision: nat)
    ensures Creation(id, spec, now, revision) == NewRecord(id, spec, now, revision)
  {}

  /** A created message is pending with the record that is answered, at one more revision; nothing else changed. */
  lemma CreateFiles(rt: Runtime, s: System, hist: History, id: bytes, spec: Spec, now: nat, w: Write)
    requires Lawful(rt) && InboxInv(rt, s, hist) && TakenSpec(rt, spec) && Plain(rt, now)
    requires Find(Contents(hist), id) == Ok(None) && CreateStep(rt, s, id, spec, now, w).1.Ok?
    ensures var (n, r) := CreateStep(rt, s, id, spec, now, w);
            var next := CreateHistory(rt, s, hist, id, spec, now, w);
            && Clean(n) && |next.log| == |hist.log| + 1 && r == Ok(NewRecord(id, spec, now, |next.log|))
            && Filed(rt, Contents(next), Pending, id, r.value)
            && (forall status, other :: status != Pending || other != id ==> SameAt(Contents(hist), Contents(next), status, other))
  {
    hide InboxInv, Lawful, Contents, CreateAnswer, ValidId, CommitBatch, BatchHistory, TakenSpec, Plain, Storable, PutRecord, Find, Filed,
         SameAt, Fileable, Apply;
    CreateExact(rt, s, hist, id, spec, now, w);
    CreateReady(rt, s, hist, id, spec, now);
    NewIsCreation(id, spec, now, |hist.log| + 1);
    var ms := Create(rt, id, spec, now, |hist.log| + 1);
    PutWritable(rt, Creation(id, spec, now, |hist.log| + 1));
    CommitOrdered(rt, s, hist, ms, w, Created(id, spec, now));
    ContentsGrow(hist, CreateHistory(rt, s, hist, id, spec, now, w), ms);
    CreateEffect(rt, Contents(hist), id, spec, now, |hist.log| + 1);
  }

  // ----- acknowledge and cancel

  /** The record after the change: its new status, with a receipt that names the committing revision. */
  function MovedTo(r: Record, target: Status, now: nat, revision: nat): Record {
    r.(status := target, receipts := r.receipts[target := Receipt(now, revision, None)])
  }

  /**
   Acknowledging and cancelling a readable message: again is the same record and changes nothing; a message that is acknowledged
   or cancelled stays so, and one that is pending cannot be acknowledged; any other is moved by one revision, or not at all.
   */
  lemma TransitionExact(rt: Runtime, s: System, hist: History, id: bytes, status: Status, target: Status, now: nat, w: Write)
    requires Lawful(rt) && InboxInv(rt, s, hist) && Plain(rt, now) && (target == Acknowledged || target == Cancelled)
    requires Clean(s) && Held(Contents(hist), status, id)
    requires Validated(rt, Contents(hist), status, id).Ok? && Readable(Validated(rt, Contents(hist), status, id).value)
    ensures var (n, r) := TransitionStep(rt, s, id, target, now, w);
            var next := TransitionHistory(rt, s, hist, id, target, now, w);
            var stored := Validated(rt, Contents(hist), status, id).value;
            var moved := MovedTo(stored, target, now, |hist.log| + 1);
            var may := status == Ready || (status == Pending && target == Cancelled);
            && (status == target ==> n == s && next == hist && r == Ok(stored))
            && (status != target && !may ==> n == s && next == hist && r == Err(InvalidState))
            && (may && TextFault(rt, moved).Some? ==> n == s && next == hist && r.Err?)
            && (may && r.Ok? ==>
                  && r == Ok(moved) && Clean(n) && |next.log| == |hist.log| + 1
                  && Filed(rt, Contents(next), target, id, moved) && !Held(Contents(next), status, id)
                  && forall st, other :: (st != target && st != status) || other != id ==> SameAt(Contents(hist), Contents(next), st, other))
  {
    hide InboxInv, Lawful, Contents, ValidId, CommitBatch, BatchHistory, Plain, Storable, Find, Filed, SameAt, Apply, Held, Validated, Readable,
         TransitionFrom, TextFault, TakenRecord, Move;
    Reached(rt, s, hist, id, status);
    var stored := Validated(rt, Contents(hist), status, id).value;
    var receipt := Receipt(now, |hist.log| + 1, None);
    MovedIsChanged(stored, target, now, |hist.log| + 1);
    if Legal(status, target) && TextFault(rt, Changed(stored, target, receipt)).None? {
      FromReady(rt, s, hist, id);
      TakenChanged(rt, stored, target, receipt);
      StorableOf(rt, Changed(stored, target, receipt));
      MoveWritable(rt, stored, target, receipt);
      var ms := Move(rt, stored, target, receipt);
      CommitOrdered(rt, s, hist, ms, w, Moved(stored, target, receipt));
      var next := TransitionHistory(rt, s, hist, id, target, now, w);
      if next.log == hist.log + [ms] {
        ContentsGrow(hist, next, ms);
        MoveEffect(rt, Contents(hist), stored, target, receipt);
      }
    }
  }

  lemma StorableOf(rt: Runtime, r: Record)
    requires TakenRecord(rt, r) && TextFault(rt, r).None?
    ensures Storable(rt, r)
  {
    hide TakenRecord, TextFault;
  }

  lemma MovedIsChanged(r: Record, target: Status, now: nat, revision: nat)
    ensures MovedTo(r, target, now, revision) == Changed(r, target, Receipt(now, revision, None))
  {}

  /** The message that is to be moved is the one the log has. */
  lemma Reached(rt: Runtime, s: System, hist: History, id: bytes, status: Status)
    requires Lawful(rt) && InboxInv(rt, s, hist) && Clean(s) && Held(Contents(hist), status, id)
    requires Validated(rt, Contents(hist), status, id).Ok? && Readable(Validated(rt, Contents(hist), status, id).value)
    ensures ValidId(id) && TransitionFrom(rt, s, id) == Validated(rt, Contents(hist), status, id)
    ensures Validated(rt, Contents(hist), status, id).value.status == status && Validated(rt, Contents(hist), status, id).value.id == id
    ensures s.memory.value.currentRev == |hist.log|
  {
    hide InboxInv, Lawful, Contents, ValidId, Find, Held, Validated, Readable, TransitionFrom, Storable;
    FaithfulOf(rt);
    RevisionOfLog(rt, s, hist);
    OrderedOf(rt, s, hist);
    StoredFiled(rt, hist, status, id);
    GotStored(rt, s, hist, status, id);
    FromStored(rt, s, hist, id);
  }
}
