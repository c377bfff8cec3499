/** What a log written by the inbox and by others that leave its keys alone says of every message. */
module InboxLog {
  import opened Bytes
  import opened Payload
  import opened Journal
  import opened ReplayTheorems
  import opened Recovery
  import opened Durable
  import opened Inbox

  // ----- keys

  /** A key names one status and one id. */
  lemma KeyInjective(s: Status, id: bytes, t: Status, other: bytes)
    ensures MessageKey(s, id) == MessageKey(t, other) <==> s == t && id == other
  {
    if MessageKey(s, id) == MessageKey(t, other) {
      AfterRoot(s, id);
      AfterRoot(t, other);
      NameThenSlash(s, id, t, other);
      assert MessageKey(s, id)[|Prefix(s)|..] == id && MessageKey(t, other)[|Prefix(t)|..] == other;
    }
  }

  lemma AfterRoot(s: Status, id: bytes)
    ensures MessageKey(s, id)[|ROOT|..] == Name(s) + SLASH + id
  {
    hide ROOT, Name;
  }

  lemma NameThenSlash(s: Status, id: bytes, t: Status, other: bytes)
    requires Name(s) + SLASH + id == Name(t) + SLASH + other
    ensures s == t
  {
    var a := Name(s) + SLASH + id;
    var b := Name(t) + SLASH + other;
    assert a[5] == b[5] && a[|Name(s)|] == b[|Name(s)|] && a[|Name(t)|] == b[|Name(t)|];
  }

  lemma Keys()
    ensures forall s, id, t, other :: MessageKey(s, id) == MessageKey(t, other) <==> s == t && id == other
    ensures forall s, id :: ROOT <= MessageKey(s, id)
  {
    hide MessageKey, ROOT;
    forall s, id, t, other ensures MessageKey(s, id) == MessageKey(t, other) <==> s == t && id == other {
      KeyInjective(s, id, t, other);
    }
    forall s, id ensures ROOT <= MessageKey(s, id) {
      KeyOwned(s, id);
    }
  }

  lemma KeyOwned(s: Status, id: bytes)
    ensures ROOT <= MessageKey(s, id)
  {
    hide ROOT, Name;
  }

  // ----- the log

  /** The record under a status key, if the key is there. */
  function At(rt: Runtime, index: Index, status: Status, id: bytes): Option<Record> {
    if Held(index, status, id) then rt.decode(index[MessageKey(status, id)]) else None
  }

  /** The only status key of `id`, or `Corruption` when there are several. */
  function Find(index: Index, id: bytes): Result<Option<Status>> {
    var p, r := Held(index, Pending, id), Held(index, Ready, id);
    var a, x := Held(index, Acknowledged, id), Held(index, Cancelled, id);
    if (p && (r || a || x)) || (r && (a || x)) || (a && x) then Err(Corruption) else
    if p then Ok(Some(Pending)) else if r then Ok(Some(Ready)) else
    if a then Ok(Some(Acknowledged)) else if x then Ok(Some(Cancelled)) else Ok(None)
  }

  /** The record names its own key. */
  function Validated(rt: Runtime, index: Index, status: Status, id: bytes): Result<Record> {
    match At(rt, index, status, id)
    case None => Err(Corruption)
    case Some(r) => if r.id == id && r.status == status then Ok(r) else Err(Corruption)
  }

  datatype Change = Elsewhere | Created(id: bytes, spec: Spec, now: nat) | Moved(record: Record, to: Status, receipt: Receipt)

  /** Batch `ms`, committed as `revision` over contents `before`, is this change of the inbox. */
  ghost predicate Explains(rt: Runtime, before: Index, ms: seq<Mutation>, revision: nat, change: Change) {
    match change
    case Elsewhere => Foreign(ms, ROOT)
    case Created(id, spec, now) =>
      && ValidId(id) && ms == Create(rt, id, spec, now, revision) && Find(before, id) == Ok(None)
      && Storable(rt, Creation(id, spec, now, revision))
    case Moved(record, to, receipt) =>
      && ms == Move(rt, record, to, receipt) && Legal(record.status, to) && receipt.revision == revision
      && Storable(rt, Changed(record, to, receipt))
      && Held(before, record.status, record.id)
      && Validated(rt, before, record.status, record.id) == Ok(record)
  }

  ghost predicate Explained(rt: Runtime, before: Index, ms: seq<Mutation>, revision: nat) {
    exists change :: Explains(rt, before, ms, revision, change)
  }

  ghost predicate Ordered(rt: Runtime, log: Log) {
    forall i :: 0 <= i < |log| ==> Explained(rt, Fold(log, i), log[i], i + 1)
  }

  // ----- what one change does

  predicate SameAt(a: Index, b: Index, status: Status, id: bytes) {
    var k := MessageKey(status, id);
    (k in a <==> k in b) && (k in a && k in b ==> a[k] == b[k])
  }

  /** The key holds the text of this record, which can be stored. */
  predicate Filed(rt: Runtime, index: Index, status: Status, id: bytes, r: Record) {
    Held(index, status, id) && index[MessageKey(status, id)] == TextOf(rt, r) && Storable(rt, r) && At(rt, index, status, id) == Some(r)
  }

  lemma ElsewhereEffect(before: Index, ms: seq<Mutation>)
    requires Foreign(ms, ROOT)
    ensures forall status, id :: SameAt(before, Apply(before, ms), status, id)
  {
    hide MessageKey, ROOT, Apply, Foreign;
    Keys();
    ForeignApply(before, ms, ROOT);
  }

  lemma CreateEffect(rt: Runtime, before: Index, id: bytes, spec: Spec, now: nat, revision: nat)
    requires Lawful(rt) && Storable(rt, Creation(id, spec, now, revision))
    ensures var after := Apply(before, Create(rt, id, spec, now, revision));
            && Filed(rt, after, Pending, id, Creation(id, spec, now, revision))
            && (forall s, other :: s != Pending || other != id ==> SameAt(before, after, s, other))
  {
    hide MessageKey, ROOT;
    Keys();
    var ms := Create(rt, id, spec, now, revision);
    assert Apply(before, ms) == Apply(ApplyOne(before, ms[0]), ms[1..]) == ApplyOne(before, ms[0]);
  }

  lemma MoveEffect(rt: Runtime, before: Index, r: Record, to: Status, receipt: Receipt)
    requires Lawful(rt) && to != r.status && Storable(rt, Changed(r, to, receipt))
    ensures var after := Apply(before, Move(rt, r, to, receipt));
            && Filed(rt, after, to, r.id, Changed(r, to, receipt))
            && !Held(after, r.status, r.id)
            && (forall s, other :: (s != to && s != r.status) || other != r.id ==> SameAt(before, after, s, other))
  {
    hide MessageKey, ROOT;
    Keys();
    var ms := Move(rt, r, to, receipt);
    var one := ApplyOne(before, ms[0]);
    assert ms[1..] == [ms[1]];
    assert Apply(before, ms) == Apply(one, ms[1..]) == Apply(ApplyOne(one, ms[1]), ms[1..][1..]) == ApplyOne(one, ms[1]);
  }

  // ----- what holds at every revision

  /** Each receipt of `r` names the revision that put `r.id` under the status the receipt is for. */
  ghost predicate ReceiptsTrue(log: Log, n: nat, r: Record)
    requires n <= |log|
  {
    forall status :: status in r.receipts ==>
      var k := r.receipts[status].revision;
      0 < k <= n && Held(Fold(log, k), status, r.id) && !Held(Fold(log, k - 1), status, r.id)
  }

  /** Whatever is held is held under one status, by a record that names its key and has true receipts. */
  ghost predicate Settled(rt: Runtime, log: Log, n: nat, status: Status, id: bytes)
    requires n <= |log|
  {
    var index := Fold(log, n);
    Held(index, status, id) ==>
      && ValidId(id) && Find(index, id) == Ok(Some(status)) && Validated(rt, index, status, id).Ok?
      && ReceiptsTrue(log, n, Validated(rt, index, status, id).value)
      && Filed(rt, index, status, id, Validated(rt, index, status, id).value)
  }

  /** A message is the same under every other status. */
  ghost predicate SameBut(a: Index, b: Index, id: bytes, except: set<Status>) { forall s :: s !in except ==> SameAt(a, b, s, id) }

  /** A key that is the same is held the same, with the same record. */
  lemma SameOne(rt: Runtime, a: Index, b: Index, status: Status, id: bytes)
    requires SameAt(a, b, status, id)
    ensures Held(a, status, id) <==> Held(b, status, id)
    ensures At(rt, a, status, id) == At(rt, b, status, id)
    ensures forall r :: Filed(rt, a, status, id, r) <==> Filed(rt, b, status, id, r)
  {
    hide MessageKey, Storable;
  }

  lemma SettledStep(rt: Runtime, log: Log, n: nat, status: Status, id: bytes)
    requires Lawful(rt) && n < |log| && Ordered(rt, log)
    requires forall s, other :: Settled(rt, log, n, s, other)
    ensures Settled(rt, log, n + 1, status, id)
  {
    hide *;
    var change := ChangeOf(rt, log, n);
    match change {
      case Elsewhere => ElsewhereSettled(rt, log, n, status, id);
      case Created(made, spec, now) => CreatedSettled(rt, log, n, made, spec, now, status, id);
      case Moved(record, to, receipt) => MovedSettled(rt, log, n, record, to, receipt, status, id);
    }
  }

  ghost function ChangeOf(rt: Runtime, log: Log, n: nat): (change: Change)
    requires n < |log| && Ordered(rt, log)
    ensures Explains(rt, Fold(log, n), log[n], n + 1, change)
  {
    assert Explained(rt, Fold(log, n), log[n], n + 1);
    var change :| Explains(rt, Fold(log, n), log[n], n + 1, change);
    change
  }

  /** One more revision applies its batch. */
  lemma FoldNext(log: Log, n: nat)
    requires n < |log|
    ensures Fold(log, n + 1) == Apply(Fold(log, n), log[n])
  {
    hide Apply;
  }

  lemma ElsewhereSettled(rt: Runtime, log: Log, n: nat, status: Status, id: bytes)
    requires n < |log| && Explains(rt, Fold(log, n), log[n], n + 1, Elsewhere) && Settled(rt, log, n, status, id)
    ensures Settled(rt, log, n + 1, status, id)
  {
    hide Apply, Fold, SameAt, Settled, Foreign;
    FoldNext(log, n);
    ElsewhereEffect(Fold(log, n), log[n]);
    Unchanged(rt, log, n, status, id);
  }

  /** A message no status of which changes stays settled. */
  lemma Unchanged(rt: Runtime, log: Log, n: nat, status: Status, id: bytes)
    requires n < |log| && Settled(rt, log, n, status, id) && SameBut(Fold(log, n), Fold(log, n + 1), id, {})
    ensures Settled(rt, log, n + 1, status, id)
  {
    hide Fold, Held, At, ValidId, SameAt, Filed;
    var before, after := Fold(log, n), Fold(log, n + 1);
    SameStatus(before, after, id);
    SameOne(rt, before, after, status, id);
  }

  lemma CreatedSettled(rt: Runtime, log: Log, n: nat, made: bytes, spec: Spec, now: nat, status: Status, id: bytes)
    requires Lawful(rt) && n < |log| && Explains(rt, Fold(log, n), log[n], n + 1, Created(made, spec, now))
    requires Settled(rt, log, n, status, id)
    ensures Settled(rt, log, n + 1, status, id)
  {
    hide Apply, Fold, SameAt, Settled, Lawful, Filed, ValidId, Storable, Find, Create, Held;
    var before, after := Fold(log, n), Fold(log, n + 1);
    FoldNext(log, n);
    CreateEffect(rt, before, made, spec, now, n + 1);
    if id != made {
      Unchanged(rt, log, n, status, id);
    } else if status == Pending {
      NewSettled(rt, log, n, made, spec, now);
    } else {
      OtherStatus(rt, log, n, status, id);
    }
  }

  lemma NewSettled(rt: Runtime, log: Log, n: nat, id: bytes, spec: Spec, now: nat)
    requires n < |log| && ValidId(id) && Find(Fold(log, n), id) == Ok(None)
    requires Filed(rt, Fold(log, n + 1), Pending, id, Creation(id, spec, now, n + 1))
    requires SameBut(Fold(log, n), Fold(log, n + 1), id, {Pending})
    ensures Settled(rt, log, n + 1, Pending, id)
  {
    hide Fold, Held, At, ValidId, SameAt, Storable;
    var before, after := Fold(log, n), Fold(log, n + 1);
    SameOne(rt, before, after, Ready, id);
    SameOne(rt, before, after, Acknowledged, id);
    SameOne(rt, before, after, Cancelled, id);
  }

  lemma OtherStatus(rt: Runtime, log: Log, n: nat, status: Status, id: bytes)
    requires n < |log| && Find(Fold(log, n), id) == Ok(None) && SameAt(Fold(log, n), Fold(log, n + 1), status, id)
    ensures Settled(rt, log, n + 1, status, id)
  {
    hide Fold, Held, At, ValidId, SameAt, Filed;
    SameOne(rt, Fold(log, n), Fold(log, n + 1), status, id);
  }

  lemma MovedSettled(
    rt: Runtime, log: Log, n: nat, r: Record, to: Status, receipt: Receipt, status: Status, id: bytes)
    requires Lawful(rt) && n < |log| && Explains(rt, Fold(log, n), log[n], n + 1, Moved(r, to, receipt))
    requires forall s, other :: Settled(rt, log, n, s, other)
    ensures Settled(rt, log, n + 1, status, id)
  {
    hide Apply, Fold, SameAt, Settled, Lawful, Filed, ValidId, Storable, Find, Move, Held, Validated;
    FoldNext(log, n);
    MoveEffect(rt, Fold(log, n), r, to, receipt);
    if id != r.id {
      Unchanged(rt, log, n, status, id);
    } else {
      ChangedSettled(rt, log, n, r, to, receipt, status);
    }
  }

  lemma ChangedSettled(rt: Runtime, log: Log, n: nat, r: Record, to: Status, receipt: Receipt, status: Status)
    requires n < |log| && Legal(r.status, to) && receipt.revision == n + 1
    requires Held(Fold(log, n), r.status, r.id) && Settled(rt, log, n, r.status, r.id)
    requires Validated(rt, Fold(log, n), r.status, r.id) == Ok(r)
    requires !Held(Fold(log, n + 1), r.status, r.id) && Filed(rt, Fold(log, n + 1), to, r.id, Changed(r, to, receipt))
    requires SameBut(Fold(log, n), Fold(log, n + 1), r.id, {to, r.status})
    ensures Settled(rt, log, n + 1, status, r.id)
  {
    hide Fold, Held, At, ValidId, ReceiptsTrue, SameAt, Storable;
    var before, after := Fold(log, n), Fold(log, n + 1);
    OnlyUnder(before, r.status, r.id);
    forall s | s != to ensures !Held(after, s, r.id) {
      if s != r.status { SameOne(rt, before, after, s, r.id); }
    }
    ReceiptAdded(log, n, before, after, r, to, receipt);
  }

  lemma OnlyUnder(index: Index, status: Status, id: bytes)
    requires Find(index, id) == Ok(Some(status))
    ensures forall s :: s != status ==> !Held(index, s, id)
  {
    hide Held;
  }

  lemma ReceiptAdded(log: Log, n: nat, before: Index, after: Index, r: Record, to: Status, receipt: Receipt)
    requires n < |log| && before == Fold(log, n) && after == Fold(log, n + 1)
    requires ReceiptsTrue(log, n, r) && receipt.revision == n + 1 && Held(after, to, r.id) && !Held(before, to, r.id)
    ensures ReceiptsTrue(log, n + 1, Changed(r, to, receipt))
  {
    hide Fold, Held;
  }

  lemma {:induction false} AlwaysSettled(rt: Runtime, log: Log, n: nat, status: Status, id: bytes)
    requires Lawful(rt) && n <= |log| && Ordered(rt, log)
    ensures Settled(rt, log, n, status, id)
    decreases n
  {
    hide Lawful, Ordered, ValidId, MessageKey;
    if n > 0 {
      hide Settled;
      var m := n - 1;
      forall s, other ensures Settled(rt, log, m, s, other) {
        AlwaysSettled(rt, log, m, s, other);
      }
      SettledStep(rt, log, m, status, id);
    }
  }

  // ----- the results

  /** The status of a message after revision `n`. */
  function StatusAt(log: Log, n: nat, id: bytes): Option<Status>
    requires n <= |log|
  {
    var found := Find(Fold(log, n), id);
    if found.Ok? then found.value else None
  }

  function Rank(status: Option<Status>): nat {
    match status
    case None => 0
    case Some(Pending) => 1
    case Some(Ready) => 2
    case Some(_) => 3
  }

  predicate Forward(from: Option<Status>, to: Option<Status>) {
    from == to || (from.None? && to == Some(Pending)) || (from.Some? && to.Some? && Legal(from.value, to.value))
  }

  /** At every revision a message is under at most one status key, with a record that names that key. */
  lemma OneStatus(rt: Runtime, log: Log, n: nat, id: bytes)
    requires Lawful(rt) && n <= |log| && Ordered(rt, log)
    ensures Find(Fold(log, n), id).Ok?
    ensures forall status :: Held(Fold(log, n), status, id) <==> StatusAt(log, n, id) == Some(status)
  {
    hide Lawful, Ordered, Held, ValidId, Fold;
    AlwaysSettled(rt, log, n, Pending, id);
    AlwaysSettled(rt, log, n, Ready, id);
    AlwaysSettled(rt, log, n, Acknowledged, id);
    AlwaysSettled(rt, log, n, Cancelled, id);
    forall status ensures Held(Fold(log, n), status, id) <==> StatusAt(log, n, id) == Some(status) {
      match status {
        case Pending =>
        case Ready =>
        case Acknowledged =>
        case Cancelled =>
      }
    }
  }

  /** The receipts of a stored record name the revisions that made its status changes. */
  lemma ReceiptsNameRevisions(rt: Runtime, log: Log, n: nat, status: Status, id: bytes)
    requires Lawful(rt) && n <= |log| && Ordered(rt, log) && Held(Fold(log, n), status, id)
    ensures var record := Validated(rt, Fold(log, n), status, id);
            record.Ok? && forall s :: s in record.value.receipts ==>
              var k := record.value.receipts[s].revision;
              0 < k <= n && StatusAt(log, k, id) == Some(s) && StatusAt(log, k - 1, id) != Some(s)
  {
    hide Lawful, Ordered, Held, ValidId, Fold, StatusAt;
    AlwaysSettled(rt, log, n, status, id);
    var record := Validated(rt, Fold(log, n), status, id).value;
    forall s | s in record.receipts
      ensures var k := record.receipts[s].revision;
              0 < k <= n && StatusAt(log, k, id) == Some(s) && StatusAt(log, k - 1, id) != Some(s)
    {
      var k := record.receipts[s].revision;
      OneStatus(rt, log, k, id);
      OneStatus(rt, log, k - 1, id);
    }
  }

  /** One revision moves a message forward or leaves it where it is. */
  lemma StepForward(rt: Runtime, log: Log, n: nat, id: bytes)
    requires Lawful(rt) && n < |log| && Ordered(rt, log)
    ensures Forward(StatusAt(log, n, id), StatusAt(log, n + 1, id))
  {
    hide Lawful, ValidId, Apply, Fold, Foreign, Find, Held, Create, Move, Storable, Filed, SameAt, Ordered, Validated;
    var before, after := Fold(log, n), Fold(log, n + 1);
    FoldNext(log, n);
    OneStatus(rt, log, n, id);
    OneStatus(rt, log, n + 1, id);
    match ChangeOf(rt, log, n) {
      case Elsewhere =>
        ElsewhereEffect(before, log[n]);
        SameStatus(before, after, id);
      case Created(made, spec, now) =>
        CreateEffect(rt, before, made, spec, now, n + 1);
        if id == made { FiledHeld(rt, after, Pending, made); } else { SameStatus(before, after, id); }
      case Moved(record, to, receipt) =>
        MoveEffect(rt, before, record, to, receipt);
        if id == record.id { FiledHeld(rt, after, to, id); } else { SameStatus(before, after, id); }
    }
  }

  lemma FiledHeld(rt: Runtime, index: Index, status: Status, id: bytes)
    ensures forall r :: Filed(rt, index, status, id, r) ==> Held(index, status, id)
  {}

  lemma SameStatus(before: Index, after: Index, id: bytes)
    requires forall s :: SameAt(before, after, s, id)
    ensures Find(before, id) == Find(after, id)
  {
    hide MessageKey, SameAt;
    forall s ensures Held(before, s, id) <==> Held(after, s, id) {
      SameHeld(before, after, s, id);
    }
  }

  lemma SameHeld(a: Index, b: Index, status: Status, id: bytes)
    requires SameAt(a, b, status, id)
    ensures Held(a, status, id) <==> Held(b, status, id)
  {
    hide MessageKey;
  }

  /** Status only ever moves forwards: a message never returns to a status it left. */
  lemma {:induction false} NeverBack(rt: Runtime, log: Log, i: nat, j: nat, id: bytes)
    requires Lawful(rt) && i <= j <= |log| && Ordered(rt, log)
    ensures Rank(StatusAt(log, i, id)) <= Rank(StatusAt(log, j, id))
    ensures Rank(StatusAt(log, i, id)) == Rank(StatusAt(log, j, id)) ==> StatusAt(log, i, id) == StatusAt(log, j, id)
    decreases j - i
  {
    hide Lawful, Ordered, StatusAt;
    if i < j {
      StepForward(rt, log, i, id);
      NeverBack(rt, log, i + 1, j, id);
    }
  }

  /** Revision `n + 1` releases the message. */
  predicate Releases(log: Log, n: nat, id: bytes)
    requires n < |log|
  {
    StatusAt(log, n, id) != Some(Ready) && StatusAt(log, n + 1, id) == Some(Ready)
  }

  /** No message is released twice. */
  lemma ReleasedOnce(rt: Runtime, log: Log, i: nat, j: nat, id: bytes)
    requires Lawful(rt) && Ordered(rt, log) && i < |log| && j < |log|
    requires Releases(log, i, id) && Releases(log, j, id)
    ensures i == j
  {
    hide Lawful, Ordered, StatusAt;
    if i < j {
      NeverBack(rt, log, i + 1, j, id);
      NeverBack(rt, log, j, j + 1, id);
    } else if j < i {
      NeverBack(rt, log, j + 1, i, id);
      NeverBack(rt, log, i, i + 1, id);
    }
  }
}
