/** The rows of a dataset source under a batch of changes (`dataset_apply`). */
module BatchUpdate {
  import opened Bytes

  datatype Entry = Entry(id: bytes, row: bytes)

  datatype Change = Add(id: bytes, row: bytes) | Correct(id: bytes, row: bytes) | Delete(id: bytes)

  const MAX_ROWS := 10_000

  predicate Distinct(rows: seq<Entry>) {
    forall i, j :: 0 <= i < j < |rows| ==> rows[i].id != rows[j].id
  }

  /** No id is changed twice in one batch. */
  predicate DistinctChanges(changes: seq<Change>) {
    forall i, j :: 0 <= i < j < |changes| ==> changes[i].id != changes[j].id
  }

  predicate Present(rows: seq<Entry>, id: bytes) { exists i :: 0 <= i < |rows| && rows[i].id == id }

  /** Replace the row of `id` where it stands. */
  function Replace(rows: seq<Entry>, id: bytes, row: bytes): seq<Entry> {
    if rows == [] then []
    else [if rows[0].id == id then Entry(id, row) else rows[0]] + Replace(rows[1..], id, row)
  }

  function Remove(rows: seq<Entry>, id: bytes): seq<Entry> {
    if rows == [] then []
    else (if rows[0].id == id then [] else [rows[0]]) + Remove(rows[1..], id)
  }

  /** One change to an ordered list of rows: the simple update a batch is a sequence of. */
  function Update(rows: seq<Entry>, change: Change): Result<seq<Entry>> {
    match change
    case Add(id, row) => if Present(rows, id) then Err(Conflict) else Ok(rows + [Entry(id, row)])
    case Correct(id, row) => if Present(rows, id) then Ok(Replace(rows, id, row)) else Err(Conflict)
    case Delete(id) => if Present(rows, id) then Ok(Remove(rows, id)) else Err(Conflict)
  }

  function UpdateAll(rows: seq<Entry>, changes: seq<Change>): Result<seq<Entry>>
    decreases |changes|
  {
    if changes == [] then Ok(rows) else
    var next := Update(rows, changes[0]);
    if next.Err? then next else UpdateAll(next.value, changes[1..])
  }

  /** The rows after a batch, within the limit on a source. */
  function RowsAfter(rows: seq<Entry>, changes: seq<Change>): Result<seq<Entry>> {
    var next := UpdateAll(rows, changes);
    if next.Ok? && |next.value| > MAX_ROWS then Err(Limit) else next
  }

  // ----- the entries that are still retained

  function Retained(all: seq<Entry>, retained: seq<bool>): seq<Entry>
    requires |all| == |retained|
  {
    if all == [] then []
    else (if retained[0] then [all[0]] else []) + Retained(all[1..], retained[1..])
  }

  lemma {:induction false} RetainedAppend(all: seq<Entry>, retained: seq<bool>, e: Entry, keep: bool)
    requires |all| == |retained|
    ensures Retained(all + [e], retained + [keep]) == Retained(all, retained) + if keep then [e] else []
    decreases |all|
  {
    if all != [] {
      assert (all + [e])[1..] == all[1..] + [e] && (retained + [keep])[1..] == retained[1..] + [keep];
      RetainedAppend(all[1..], retained[1..], e, keep);
    }
  }

  lemma {:induction false} RetainedPresent(all: seq<Entry>, retained: seq<bool>, id: bytes)
    requires |all| == |retained|
    ensures Present(Retained(all, retained), id)
       <==> exists i :: 0 <= i < |all| && retained[i] && all[i].id == id
    decreases |all|
  {
    if all != [] {
      var rest := Retained(all[1..], retained[1..]);
      var whole := Retained(all, retained);
      RetainedPresent(all[1..], retained[1..], id);
      assert whole == (if retained[0] then [all[0]] else []) + rest;
      if Present(whole, id) && !(retained[0] && all[0].id == id) {
        var i :| 0 <= i < |whole| && whole[i].id == id;
        assert Present(rest, id) by { assert rest[if retained[0] then i - 1 else i].id == id; }
        var j :| 0 <= j < |all[1..]| && retained[1..][j] && all[1..][j].id == id;
        assert retained[j + 1] && all[j + 1].id == id;
      }
      if i :| 0 <= i < |all| && retained[i] && all[i].id == id {
        if i == 0 {
          assert whole[0].id == id;
        } else {
          assert retained[1..][i - 1] && all[1..][i - 1].id == id;
          var j :| 0 <= j < |rest| && rest[j].id == id;
          assert whole[if retained[0] then j + 1 else j].id == id;
        }
      }
    }
  }

  /** Entry `i` is the only retained one with its id. */
  predicate Sole(all: seq<Entry>, retained: seq<bool>, i: nat)
    requires |all| == |retained| && i < |all|
  {
    retained[i] && forall j :: 0 <= j < |all| && j != i && retained[j] ==> all[j].id != all[i].id
  }

  lemma {:induction false} RetainedReplace(all: seq<Entry>, retained: seq<bool>, i: nat, row: bytes)
    requires |all| == |retained| && i < |all| && Sole(all, retained, i)
    ensures Retained(all[i := Entry(all[i].id, row)], retained) == Replace(Retained(all, retained), all[i].id, row)
    decreases |all|
  {
    var id := all[i].id;
    if i == 0 {
      ReplaceAbsent(all[1..], retained[1..], id, row);
    } else {
      assert all[i := Entry(id, row)][1..] == all[1..][i - 1 := Entry(id, row)];
      assert Sole(all[1..], retained[1..], i - 1);
      RetainedReplace(all[1..], retained[1..], i - 1, row);
      HeadKept(all, retained, id, row);
    }
  }

  lemma {:induction false} ReplaceAbsent(all: seq<Entry>, retained: seq<bool>, id: bytes, row: bytes)
    requires |all| == |retained| && forall j :: 0 <= j < |all| && retained[j] ==> all[j].id != id
    ensures Replace(Retained(all, retained), id, row) == Retained(all, retained)
    ensures Remove(Retained(all, retained), id) == Retained(all, retained)
    decreases |all|
  {
    if all != [] {
      ReplaceAbsent(all[1..], retained[1..], id, row);
      var rest := Retained(all[1..], retained[1..]);
      if retained[0] {
        assert Retained(all, retained) == [all[0]] + rest;
        assert all[0].id != id;
      } else {
        assert Retained(all, retained) == rest;
      }
    }
  }

  lemma {:induction false} RetainedRemove(all: seq<Entry>, retained: seq<bool>, i: nat)
    requires |all| == |retained| && i < |all| && Sole(all, retained, i)
    ensures Retained(all, retained[i := false]) == Remove(Retained(all, retained), all[i].id)
    decreases |all|
  {
    var id := all[i].id;
    if i == 0 {
      assert retained[0 := false][1..] == retained[1..];
      ReplaceAbsent(all[1..], retained[1..], id, []);
    } else {
      assert retained[i := false][1..] == retained[1..][i - 1 := false];
      assert Sole(all[1..], retained[1..], i - 1);
      RetainedRemove(all[1..], retained[1..], i - 1);
      HeadKept(all, retained, id, []);
    }
  }

  lemma HeadKept(all: seq<Entry>, retained: seq<bool>, id: bytes, row: bytes)
    requires |all| == |retained| && all != [] && (retained[0] ==> all[0].id != id)
    ensures var rest := Retained(all[1..], retained[1..]);
            var head := if retained[0] then [all[0]] else [];
            && Replace(Retained(all, retained), id, row) == head + Replace(rest, id, row)
            && Remove(Retained(all, retained), id) == head + Remove(rest, id)
  {
    var rest := Retained(all[1..], retained[1..]);
    if retained[0] {
      assert Retained(all, retained) == [all[0]] + rest;
      assert ([all[0]] + rest)[1..] == rest;
    } else {
      assert Retained(all, retained) == rest;
    }
  }

  /** `positions` maps each id with a retained entry to that entry, and no other id. */
  ghost predicate Indexed(all: seq<Entry>, retained: seq<bool>, positions: map<bytes, nat>)
    requires |all| == |retained|
  {
    && (forall id :: id in positions ==> positions[id] < |all| && retained[positions[id]] && all[positions[id]].id == id)
    && (forall i :: 0 <= i < |all| && retained[i] ==> all[i].id in positions && positions[all[i].id] == i)
  }

  lemma IndexedPresent(all: seq<Entry>, retained: seq<bool>, positions: map<bytes, nat>, id: bytes)
    requires |all| == |retained| && Indexed(all, retained, positions)
    ensures id in positions <==> Present(Retained(all, retained), id)
    ensures id in positions ==> Sole(all, retained, positions[id])
  {
    RetainedPresent(all, retained, id);
    if id in positions {
      assert retained[positions[id]] && all[positions[id]].id == id;
    }
  }

  lemma {:induction false} RetainedAll(all: seq<Entry>, retained: seq<bool>)
    requires |all| == |retained| && forall i :: 0 <= i < |all| ==> retained[i]
    ensures Retained(all, retained) == all
    decreases |all|
  {
    if all != [] {
      RetainedAll(all[1..], retained[1..]);
    }
  }

  lemma {:induction false} RetainedSize(all: seq<Entry>, retained: seq<bool>, positions: map<bytes, nat>)
    requires |all| == |retained| && Indexed(all, retained, positions)
    ensures |Retained(all, retained)| == |positions|
    decreases |all|
  {
    if all == [] {
      assert positions.Keys == {};
    } else {
      var n := |all| - 1;
      var (front, kept) := (all[..n], retained[..n]);
      assert all == front + [all[n]] && retained == kept + [retained[n]];
      RetainedAppend(front, kept, all[n], retained[n]);
      if retained[n] {
        var fewer := positions - {all[n].id};
        assert Indexed(front, kept, fewer);
        RetainedSize(front, kept, fewer);
        assert positions.Keys == fewer.Keys + {all[n].id};
        assert |positions| == |positions.Keys| && |fewer| == |fewer.Keys|;
      } else {
        assert Indexed(front, kept, positions);
        RetainedSize(front, kept, positions);
      }
    }
  }

  /** The entries and positions after an added row, a corrected row, a deleted row. */
  lemma IndexedAdd(all: seq<Entry>, retained: seq<bool>, positions: map<bytes, nat>, e: Entry, at: nat)
    requires |all| == |retained| == at && Indexed(all, retained, positions) && e.id !in positions
    ensures Indexed(all + [e], retained + [true], positions[e.id := at])
  {
    var longer, kept := all + [e], retained + [true];
    forall i | 0 <= i < |longer| && kept[i]
      ensures longer[i].id in positions[e.id := at] && positions[e.id := at][longer[i].id] == i
    {
      if i < at { assert longer[i] == all[i] && retained[i]; }
    }
  }

  lemma IndexedCorrect(all: seq<Entry>, retained: seq<bool>, positions: map<bytes, nat>, id: bytes, row: bytes)
    requires |all| == |retained| && Indexed(all, retained, positions) && id in positions
    ensures Indexed(all[positions[id] := Entry(id, row)], retained, positions)
  {}

  lemma IndexedDelete(all: seq<Entry>, retained: seq<bool>, positions: map<bytes, nat>, id: bytes)
    requires |all| == |retained| && Indexed(all, retained, positions) && id in positions
    ensures Indexed(all, retained[positions[id] := false], positions - {id})
  {}

  lemma PositionInRange(all: seq<Entry>, retained: seq<bool>, positions: map<bytes, nat>, id: bytes)
    requires |all| == |retained| && Indexed(all, retained, positions) && id in positions
    ensures positions[id] < |all| && all[positions[id]].id == id
  {}

  method Positions(rows: seq<Entry>) returns (positions: map<bytes, nat>)
    requires Distinct(rows)
    ensures Indexed(rows, seq(|rows|, _ => true), positions)
  {
    positions := map[];
    for i := 0 to |rows|
      invariant forall id :: id in positions ==> positions[id] < i && rows[positions[id]].id == id
      invariant forall j :: 0 <= j < i ==> rows[j].id in positions && positions[rows[j].id] == j
    {
      var here: nat := i;
      positions := positions[rows[i].id := here];
    }
  }

  /** One change: an entry is appended, rewritten in place, or marked not retained. */
  method ApplyChange(all: seq<Entry>, retained: seq<bool>, positions: map<bytes, nat>, change: Change)
    returns (ok: bool, all': seq<Entry>, retained': seq<bool>, positions': map<bytes, nat>)
    requires |all| == |retained| && Indexed(all, retained, positions)
    ensures |all'| == |retained'| && Indexed(all', retained', positions')
    ensures Update(Retained(all, retained), change)
         == if ok then Ok(Retained(all', retained')) else Err(Conflict)
  {
    hide Retained, Replace, Remove, Present, Indexed, Sole;
    all', retained', positions' := all, retained, positions;
    IndexedPresent(all, retained, positions, change.id);
    match change {
      case Add(id, row) =>
        if id in positions {
          return false, all, retained, positions;
        }
        var end: nat := |all|;
        RetainedAppend(all, retained, Entry(id, row), true);
        IndexedAdd(all, retained, positions, Entry(id, row), end);
        positions' := positions[id := end];
        all' := all + [Entry(id, row)];
        retained' := retained + [true];
      case Correct(id, row) =>
        if id !in positions {
          return false, all, retained, positions;
        }
        PositionInRange(all, retained, positions, id);
        RetainedReplace(all, retained, positions[id], row);
        IndexedCorrect(all, retained, positions, id, row);
        all' := all[positions[id] := Entry(id, row)];
      case Delete(id) =>
        if id !in positions {
          return false, all, retained, positions;
        }
        PositionInRange(all, retained, positions, id);
        RetainedRemove(all, retained, positions[id]);
        IndexedDelete(all, retained, positions, id);
        retained' := retained[positions[id] := false];
        positions' := positions - {id};
    }
    return true, all', retained', positions';
  }

  /**
   The loops of `dataset_apply`: entries are appended, rewritten in place or marked not retained,
   through a map from id to position. The result is that of the changes made one at a time.
   */
  method ApplyChanges(rows: seq<Entry>, changes: seq<Change>) returns (r: Result<seq<Entry>>)
    requires Distinct(rows)
    ensures r == RowsAfter(rows, changes)
  {
    hide Retained, Update, Indexed;
    var all := rows;
    var retained := seq(|rows|, _ => true);
    var positions := Positions(rows);
    RetainedAll(all, retained);
    assert changes[0..] == changes;
    for k := 0 to |changes|
      invariant |all| == |retained| && Indexed(all, retained, positions)
      invariant UpdateAll(rows, changes) == UpdateAll(Retained(all, retained), changes[k..])
    {
      assert changes[k..][1..] == changes[k + 1..];
      var ok;
      ok, all, retained, positions := ApplyChange(all, retained, positions, changes[k]);
      if !ok {
        return Err(Conflict);
      }
    }
    RetainedSize(all, retained, positions);
    if |positions| > MAX_ROWS {
      return Err(Limit);
    }
    var kept := Filter(all, retained);
    return Ok(kept);
  }

  method Filter(all: seq<Entry>, retained: seq<bool>) returns (kept: seq<Entry>)
    requires |all| == |retained|
    ensures kept == Retained(all, retained)
  {
    kept := [];
    for i := 0 to |all|
      invariant kept == Retained(all[..i], retained[..i])
    {
      assert all[..i + 1] == all[..i] + [all[i]] && retained[..i + 1] == retained[..i] + [retained[i]];
      RetainedAppend(all[..i], retained[..i], all[i], retained[i]);
      if retained[i] {
        kept := kept + [all[i]];
      }
    }
    assert all[..|all|] == all && retained[..|all|] == retained;
  }

  // ----- what the simple updates keep

  lemma {:induction false} ReplaceIds(rows: seq<Entry>, id: bytes, row: bytes)
    ensures |Replace(rows, id, row)| == |rows|
    ensures forall i :: 0 <= i < |rows| ==>
              Replace(rows, id, row)[i] == if rows[i].id == id then Entry(id, row) else rows[i]
  {
    if rows != [] {
      ReplaceIds(rows[1..], id, row);
    }
  }

  lemma {:induction false} RemoveIds(rows: seq<Entry>, id: bytes)
    ensures !Present(Remove(rows, id), id)
    ensures forall e :: e in Remove(rows, id) <==> e in rows && e.id != id
    decreases |rows|
  {
    if rows != [] {
      RemoveIds(rows[1..], id);
      var rest := Remove(rows[1..], id);
      var whole := Remove(rows, id);
      assert whole == (if rows[0].id == id then [] else [rows[0]]) + rest;
      assert forall e :: e in rows <==> e == rows[0] || e in rows[1..];
      forall i | 0 <= i < |whole| ensures whole[i].id != id {
        assert whole[i] in whole;
      }
    }
  }

  lemma {:induction false} RemoveDistinct(rows: seq<Entry>, id: bytes)
    requires Distinct(rows)
    ensures Distinct(Remove(rows, id))
    decreases |rows|
  {
    if rows != [] {
      RemoveDistinct(rows[1..], id);
      RemoveIds(rows[1..], id);
      var rest := Remove(rows[1..], id);
      if rows[0].id != id {
        assert Remove(rows, id) == [rows[0]] + rest;
        forall j | 0 <= j < |rest| ensures rest[j].id != rows[0].id {
          assert rest[j] in rest && rest[j] in rows[1..];
        }
      } else {
        assert Remove(rows, id) == rest;
      }
    }
  }

  /** A batch leaves no id twice. */
  lemma {:induction false} UpdateAllDistinct(rows: seq<Entry>, changes: seq<Change>)
    requires Distinct(rows) && UpdateAll(rows, changes).Ok?
    ensures Distinct(UpdateAll(rows, changes).value)
    decreases |changes|
  {
    if changes != [] {
      match changes[0] {
        case Add(id, row) =>
        case Correct(id, row) => ReplaceIds(rows, id, row);
        case Delete(id) => RemoveDistinct(rows, id);
      }
      UpdateAllDistinct(Update(rows, changes[0]).value, changes[1..]);
    }
  }

  /** The row of an id after a batch that does not change one id twice: the last word is the batch's, if it has one. */
  lemma {:induction false} UpdateAllRows(rows: seq<Entry>, changes: seq<Change>, e: Entry)
    requires Distinct(rows) && DistinctChanges(changes) && UpdateAll(rows, changes).Ok?
    ensures e in UpdateAll(rows, changes).value
       <==> Add(e.id, e.row) in changes || Correct(e.id, e.row) in changes
            || (e in rows && forall change :: change in changes ==> change.id != e.id)
    decreases |changes|
  {
    if changes != [] {
      var (change, rest) := (changes[0], changes[1..]);
      var next := Update(rows, change).value;
      assert DistinctChanges(rest);
      assert forall other :: other in rest ==> other.id != change.id;
      assert forall other :: other in changes <==> other == change || other in rest;
      match change {
        case Add(id, row) => assert forall x :: x in next <==> x in rows || x == Entry(id, row);
          assert !Present(rows, id);
        case Correct(id, row) => ReplaceIds(rows, id, row); ReplacedRow(rows, id, row, e);
        case Delete(id) => RemoveIds(rows, id);
      }
      assert Distinct(next) by { UpdateAllDistinct(rows, [change]); assert UpdateAll(rows, [change]) == Ok(next); }
      UpdateAllRows(next, rest, e);
    }
  }

  lemma ReplacedRow(rows: seq<Entry>, id: bytes, row: bytes, e: Entry)
    requires Present(rows, id)
    ensures e in Replace(rows, id, row) <==> e == Entry(id, row) || (e in rows && e.id != id)
  {
    ReplaceIds(rows, id, row);
    var after := Replace(rows, id, row);
    var i :| 0 <= i < |rows| && rows[i].id == id;
    assert after[i] == Entry(id, row);
    if e in rows && e.id != id {
      var j :| 0 <= j < |rows| && rows[j] == e;
      assert after[j] == e;
    }
  }

  // ----- the order of the rows, and when a batch is accepted

  function Ids(rows: seq<Entry>): seq<bytes> { if rows == [] then [] else [rows[0].id] + Ids(rows[1..]) }

  /** The ids that no change deletes, in their order. */
  function Surviving(ids: seq<bytes>, changes: seq<Change>): seq<bytes> {
    if ids == [] then [] else (if Delete(ids[0]) in changes then [] else [ids[0]]) + Surviving(ids[1..], changes)
  }

  /** The ids that the changes add, in the order of the changes. */
  function AddedIds(changes: seq<Change>): seq<bytes> {
    if changes == [] then [] else (if changes[0].Add? then [changes[0].id] else []) + AddedIds(changes[1..])
  }

  lemma {:induction false} IdsAppend(rows: seq<Entry>, e: Entry)
    ensures Ids(rows + [e]) == Ids(rows) + [e.id]
    decreases |rows|
  {
    if rows == [] {
      assert [] + [e] == [e] && Ids([e]) == [e.id] + Ids([e][1..]);
    } else {
      assert (rows + [e])[1..] == rows[1..] + [e];
      IdsAppend(rows[1..], e);
    }
  }

  lemma {:induction false} IdsReplaced(rows: seq<Entry>, id: bytes, row: bytes)
    ensures Ids(Replace(rows, id, row)) == Ids(rows)
    decreases |rows|
  {
    if rows != [] {
      IdsReplaced(rows[1..], id, row);
    }
  }

  lemma {:induction false} IdsRemoved(rows: seq<Entry>, id: bytes)
    ensures Ids(Remove(rows, id)) == Surviving(Ids(rows), [Delete(id)])
    decreases |rows|
  {
    if rows != [] {
      IdsRemoved(rows[1..], id);
      var rest := Remove(rows[1..], id);
      assert Ids(rows)[1..] == Ids(rows[1..]);
      assert Delete(rows[0].id) in [Delete(id)] <==> rows[0].id == id;
      if rows[0].id == id {
        assert [] + rest == rest;
      } else {
        assert ([rows[0]] + rest)[1..] == rest;
      }
    }
  }

  lemma {:induction false} SurvivingAppend(ids: seq<bytes>, id: bytes, changes: seq<Change>)
    requires Delete(id) !in changes
    ensures Surviving(ids + [id], changes) == Surviving(ids, changes) + [id]
    decreases |ids|
  {
    if ids == [] {
      assert [] + [id] == [id] && Surviving([id], changes) == [id] + Surviving([id][1..], changes);
    } else {
      assert (ids + [id])[1..] == ids[1..] + [id];
      SurvivingAppend(ids[1..], id, changes);
    }
  }

  /** Deleting by one change and then by the others is deleting by all. */
  lemma {:induction false} SurvivingBoth(ids: seq<bytes>, change: Change, rest: seq<Change>)
    ensures Surviving(Surviving(ids, [change]), rest) == Surviving(ids, [change] + rest)
    decreases |ids|
  {
    if ids != [] {
      SurvivingBoth(ids[1..], change, rest);
      var d := Delete(ids[0]);
      var kept := Surviving(ids[1..], [change]);
      assert d in [change] + rest <==> d == change || d in rest;
      assert d in [change] <==> d == change;
      if d != change {
        assert ([ids[0]] + kept)[1..] == kept;
      } else {
        assert [] + kept == kept;
      }
    }
  }

  lemma {:induction false} SurvivingNone(ids: seq<bytes>, change: Change)
    requires !change.Delete?
    ensures Surviving(ids, [change]) == ids
    decreases |ids|
  {
    if ids != [] {
      SurvivingNone(ids[1..], change);
      assert ids == [ids[0]] + ids[1..];
    }
  }

  /** Where the ids stand after one change and then the others. */
  lemma OrderStep(rows: seq<Entry>, change: Change, rest: seq<Change>)
    requires Update(rows, change).Ok? && DistinctChanges([change] + rest)
    ensures Surviving(Ids(Update(rows, change).value), rest) + AddedIds(rest)
         == Surviving(Ids(rows), [change] + rest) + AddedIds([change] + rest)
  {
    hide Ids, Replace, Remove, Surviving, Present, AddedIds;
    SurvivingBoth(Ids(rows), change, rest);
    AddedHead(change, rest);
    match change {
      case Add(id, row) =>
        IdsAppend(rows, Entry(id, row));
        var changes := [change] + rest;
        forall j | 0 <= j < |rest| ensures rest[j] != Delete(id) {
          assert changes[j + 1].id != changes[0].id;
        }
        SurvivingAppend(Ids(rows), id, rest);
        SurvivingNone(Ids(rows), change);
        assert Surviving(Ids(rows), rest) + [id] + AddedIds(rest) == Surviving(Ids(rows), rest) + ([id] + AddedIds(rest));
      case Correct(id, row) =>
        IdsReplaced(rows, id, row);
        SurvivingNone(Ids(rows), change);
      case Delete(id) =>
        IdsRemoved(rows, id);
    }
  }

  lemma AddedHead(change: Change, rest: seq<Change>)
    ensures AddedIds([change] + rest) == if change.Add? then [change.id] + AddedIds(rest) else AddedIds(rest)
  {
    assert ([change] + rest)[1..] == rest;
  }

  /** The rows keep their order, without those deleted, and added rows come last in the order of the changes. */
  lemma {:induction false} UpdateAllOrder(rows: seq<Entry>, changes: seq<Change>)
    requires DistinctChanges(changes) && UpdateAll(rows, changes).Ok?
    ensures Ids(UpdateAll(rows, changes).value) == Surviving(Ids(rows), changes) + AddedIds(changes)
    decreases |changes|
  {
    hide Ids, Update, Surviving, AddedIds;
    if changes == [] {
      AllSurvive(Ids(rows));
    } else {
      var (change, rest) := (changes[0], changes[1..]);
      assert changes == [change] + rest;
      UpdateAllOrder(Update(rows, change).value, rest);
      OrderStep(rows, change, rest);
    }
  }

  lemma {:induction false} AllSurvive(ids: seq<bytes>)
    ensures Surviving(ids, []) == ids && ids + AddedIds([]) == ids
    decreases |ids|
  {
    if ids != [] {
      AllSurvive(ids[1..]);
      assert ids == [ids[0]] + ids[1..];
    }
  }

  lemma PresentAfter(rows: seq<Entry>, change: Change, id: bytes)
    requires Update(rows, change).Ok? && change.id != id
    ensures Present(Update(rows, change).value, id) <==> Present(rows, id)
  {
    var next := Update(rows, change).value;
    match change {
      case Add(added, row) =>
        if i :| 0 <= i < |rows| && rows[i].id == id { assert next[i].id == id; }
      case Correct(changed, row) => ReplaceIds(rows, changed, row);
        if i :| 0 <= i < |rows| && rows[i].id == id { assert next[i].id == id; }
      case Delete(removed) => RemoveIds(rows, removed);
        if i :| 0 <= i < |rows| && rows[i].id == id { assert rows[i] in next; }
        if i :| 0 <= i < |next| && next[i].id == id { assert next[i] in next; }
    }
  }

  /** A change fits when it adds a row that is not there, or corrects or deletes one that is. */
  predicate FitsRows(rows: seq<Entry>, change: Change) { change.Add? <==> !Present(rows, change.id) }

  /** Changes of different rows are accepted if and only if each of them fits the rows as they were. */
  lemma {:induction false} UpdateAllAccepts(rows: seq<Entry>, changes: seq<Change>)
    requires DistinctChanges(changes)
    ensures UpdateAll(rows, changes).Ok? <==> forall k :: 0 <= k < |changes| ==> FitsRows(rows, changes[k])
    ensures UpdateAll(rows, changes).Err? ==> UpdateAll(rows, changes).error == Conflict
    decreases |changes|
  {
    hide Replace, Remove, Present;
    if changes != [] {
      var (change, rest) := (changes[0], changes[1..]);
      if Update(rows, change).Ok? {
        var next := Update(rows, change).value;
        UpdateAllAccepts(next, rest);
        forall k | 0 <= k < |rest| ensures FitsRows(next, rest[k]) <==> FitsRows(rows, changes[k + 1]) {
          assert changes[k + 1].id != changes[0].id;
          PresentAfter(rows, change, rest[k].id);
        }
        if forall k :: 0 <= k < |rest| ==> FitsRows(next, rest[k]) {
          forall k | 0 <= k < |changes| ensures FitsRows(rows, changes[k]) {
            if k > 0 { assert FitsRows(next, rest[k - 1]); }
          }
        }
        if forall k :: 0 <= k < |changes| ==> FitsRows(rows, changes[k]) {
          forall k | 0 <= k < |rest| ensures FitsRows(next, rest[k]) { assert FitsRows(rows, changes[k + 1]); }
        }
      } else {
        assert !FitsRows(rows, changes[0]);
      }
    }
  }

  /** `after` is `rows` with these changes made: which rows there are, and in which order. */
  ghost predicate ChangesMade(rows: seq<Entry>, changes: seq<Change>, after: seq<Entry>) {
    && (forall e :: e in after <==>
          Add(e.id, e.row) in changes || Correct(e.id, e.row) in changes
          || (e in rows && forall change :: change in changes ==> change.id != e.id))
    && Ids(after) == Surviving(Ids(rows), changes) + AddedIds(changes)
    && Distinct(after)
  }

  /** A batch of changes of different rows is accepted just when they fit and leave at most 10000 rows, and then they are made. */
  lemma BatchMade(rows: seq<Entry>, changes: seq<Change>)
    requires Distinct(rows) && DistinctChanges(changes)
    ensures var after := RowsAfter(rows, changes);
            && (after.Ok? ==> ChangesMade(rows, changes, after.value) && |after.value| <= 10_000)
            && ((exists k :: 0 <= k < |changes| && !FitsRows(rows, changes[k])) <==> after == Err(Conflict))
            && (after.Err? && (forall k :: 0 <= k < |changes| ==> FitsRows(rows, changes[k])) ==>
                  after == Err(Limit) && |Surviving(Ids(rows), changes) + AddedIds(changes)| > 10_000)
  {
    hide UpdateAll, FitsRows, Surviving, AddedIds, Ids, Distinct, DistinctChanges;
    UpdateAllAccepts(rows, changes);
    if UpdateAll(rows, changes).Ok? {
      var all := UpdateAll(rows, changes).value;
      UpdateAllOrder(rows, changes);
      UpdateAllDistinct(rows, changes);
      forall e ensures e in all <==>
          Add(e.id, e.row) in changes || Correct(e.id, e.row) in changes
          || (e in rows && forall change :: change in changes ==> change.id != e.id) {
        UpdateAllRows(rows, changes, e);
      }
      IdsLength(all);
    }
  }

  lemma {:induction false} IdsLength(rows: seq<Entry>)
    ensures |Ids(rows)| == |rows|
  {
    if rows != [] { IdsLength(rows[1..]); }
  }
}
