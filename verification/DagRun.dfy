/** The identities of a whole run: its rows, their cells and its exclusions (`DatasetIdentity::from_run`). */
module DagRun {
  import opened Bytes
  import opened Dag
  import opened DagIdentity
  import opened DagPaths
  import opened Exclusions
  import Scan

  const MAX_ROWS := 100_000

  /** A row of the result: the derivation of the row and of each of its fields, where there is one. */
  datatype Row = NotMap | Row(derivation: Option<nat>, fields: map<bytes, Option<nat>>)

  datatype Run = Run(
    rowIds: seq<bytes>, rowDerivations: seq<bytes>, cellDerivations: seq<seq<(bytes, bytes)>>, exclusions: seq<Exclusion>,
    nodes: seq<Node>)

  predicate GoodQuery(query: bytes, digest: bytes) {
    0 < |query| <= 128 && |digest| == 64 && forall i :: 0 <= i < 64 ==> 48 <= digest[i] <= 57 || 97 <= digest[i] <= 102
  }

  /** The derivations of a row are in the heap; a cell that is itself a row is below the row it is in. */
  ghost predicate RowCells(heap: Heap, row: Row) {
    row.Row? && row.derivation.Some? ==>
      && row.derivation.value in heap
      && forall f :: f in row.fields && row.fields[f].Some? ==>
           && row.fields[f].value in heap
           && (!IsRow(heap[row.fields[f].value].facts.details) || Reaches(EdgesOf(heap), row.derivation.value, row.fields[f].value))
  }

  // ----- what a run records of its rows

  /** The identity saved for a cell is that of its node. */
  ghost predicate IdIs(nodes: seq<Node>, rank: map<nat, nat>, cell: Option<nat>, id: bytes) {
    cell.Some? && cell.value in rank && rank[cell.value] < |nodes| && nodes[rank[cell.value]].id == id
  }

  /** The fields of a row in the order of their names, each with the identity of its cell. */
  ghost predicate CellsRecorded(nodes: seq<Node>, rank: map<nat, nat>, row: Row, cells: seq<(bytes, bytes)>)
    requires row.Row?
  {
    && |cells| <= |Scan.Order(row.fields.Keys)|
    && forall j :: 0 <= j < |cells| ==>
         && cells[j].0 == Scan.Order(row.fields.Keys)[j]
         && IdIs(nodes, rank, row.fields[cells[j].0], cells[j].1)
  }

  ghost predicate RowRecorded(
    heap: Heap, nodes: seq<Node>, rank: map<nat, nat>, row: Row, rowId: bytes, id: bytes, cells: seq<(bytes, bytes)>)
  {
    && row.Row? && IdIs(nodes, rank, row.derivation, id) && row.derivation.value in heap
    && IsRow(heap[row.derivation.value].facts.details) && rowId == heap[row.derivation.value].facts.text && rowId != []
    && CellsRecorded(nodes, rank, row, cells) && |cells| == |Scan.Order(row.fields.Keys)|
  }

  ghost predicate RowsRecorded(
    heap: Heap, nodes: seq<Node>, rank: map<nat, nat>, rows: seq<Row>,
    rowIds: seq<bytes>, ids: seq<bytes>, cells: seq<seq<(bytes, bytes)>>)
  {
    && |rowIds| == |ids| == |cells| == |rows|
    && (forall i :: 0 <= i < |rows| ==> RowRecorded(heap, nodes, rank, rows[i], rowIds[i], ids[i], cells[i]))
    && (forall i, j :: 0 <= i < j < |rowIds| ==> rowIds[i] != rowIds[j])
  }

  lemma IdStays(
    heap: Heap, namer: Namer, nodes: seq<Node>, rank: map<nat, nat>, keys: seq<nat>,
    more: seq<Node>, moreRank: map<nat, nat>, moreKeys: seq<nat>)
    requires Ledger(heap, namer, nodes, rank, keys) && Ledger(heap, namer, more, moreRank, moreKeys)
    requires nodes <= more && keys <= moreKeys
    ensures forall cell, id :: IdIs(nodes, rank, cell, id) ==> IdIs(more, moreRank, cell, id)
  {
    hide Ledger;
    RanksStay(heap, namer, nodes, rank, keys, more, moreRank, moreKeys);
    LedgerRanked(heap, namer, more, moreRank, moreKeys);
  }

  lemma RowsStay(
    heap: Heap, namer: Namer, nodes: seq<Node>, rank: map<nat, nat>, keys: seq<nat>,
    more: seq<Node>, moreRank: map<nat, nat>, moreKeys: seq<nat>, rows: seq<Row>,
    rowIds: seq<bytes>, ids: seq<bytes>, cells: seq<seq<(bytes, bytes)>>)
    requires Ledger(heap, namer, nodes, rank, keys) && Ledger(heap, namer, more, moreRank, moreKeys)
    requires nodes <= more && keys <= moreKeys && RowsRecorded(heap, nodes, rank, rows, rowIds, ids, cells)
    ensures RowsRecorded(heap, more, moreRank, rows, rowIds, ids, cells)
  {
    hide Ledger, IdIs, IsRow;
    IdStays(heap, namer, nodes, rank, keys, more, moreRank, moreKeys);
  }

  lemma CellsStay(
    heap: Heap, namer: Namer, nodes: seq<Node>, rank: map<nat, nat>, keys: seq<nat>,
    more: seq<Node>, moreRank: map<nat, nat>, moreKeys: seq<nat>, row: Row, id: bytes, cells: seq<(bytes, bytes)>)
    requires Ledger(heap, namer, nodes, rank, keys) && Ledger(heap, namer, more, moreRank, moreKeys)
    requires nodes <= more && keys <= moreKeys && row.Row? && IdIs(nodes, rank, row.derivation, id) && CellsRecorded(nodes, rank, row, cells)
    ensures IdIs(more, moreRank, row.derivation, id) && CellsRecorded(more, moreRank, row, cells)
  {
    hide Ledger, IdIs;
    IdStays(heap, namer, nodes, rank, keys, more, moreRank, moreKeys);
  }

  // ----- the roots of a run

  /** No row from here on has been visited, and no decision. */
  ghost predicate RowsNew(cells: map<Place, nat>, n: nat) {
    && (forall i :: i >= n ==> RootPlace(RowRoot(i)) !in cells)
    && (forall i, f :: i >= n ==> RootPlace(CellRoot(i, f)) !in cells)
    && DecisionsNew(cells, 0)
  }

  /** In row `n` no field from here on has been visited. */
  ghost predicate FieldsNew(cells: map<Place, nat>, n: nat, fields: seq<bytes>, j: nat) {
    && (forall i :: i > n ==> RootPlace(RowRoot(i)) !in cells)
    && (forall i, f :: i > n ==> RootPlace(CellRoot(i, f)) !in cells)
    && DecisionsNew(cells, 0)
    && (forall k :: j <= k < |fields| ==> RootPlace(CellRoot(n, fields[k])) !in cells)
  }

  lemma RowStarts(before: map<Place, nat>, after: map<Place, nat>, n: nat, fields: seq<bytes>)
    requires RowsNew(before, n) && forall o :: RootPlace(o) in after ==> o == RowRoot(n) || RootPlace(o) in before
    ensures FieldsNew(after, n, fields, 0)
  {}

  lemma FieldDone(before: map<Place, nat>, after: map<Place, nat>, n: nat, keys: set<bytes>, j: nat)
    requires FieldsNew(before, n, Scan.Order(keys), j) && j < |Scan.Order(keys)|
    requires forall o :: RootPlace(o) in after ==> o == CellRoot(n, Scan.Order(keys)[j]) || RootPlace(o) in before
    ensures FieldsNew(after, n, Scan.Order(keys), j + 1)
  {
    hide Scan.Order, Scan.Less;
    var fields := Scan.Order(keys);
    Scan.OrderAscending(keys);
    forall k | j + 1 <= k < |fields| ensures RootPlace(CellRoot(n, fields[k])) !in after {
      assert Scan.Less(fields[j], fields[k]);
      Scan.LessTotal(fields[j], fields[k]);
    }
  }

  lemma RowEnds(cells: map<Place, nat>, n: nat, fields: seq<bytes>)
    requires FieldsNew(cells, n, fields, |fields|)
    ensures RowsNew(cells, n + 1)
  {}

  lemma NothingNew()
    ensures RowsNew(map[], 0)
  {}

  /** A cell that is a row is known once the row it is in is. */
  lemma CellFramed(
    heap: Heap, namer: Namer, nodes: seq<Node>, rank: map<nat, nat>, keys: seq<nat>, known: map<nat, bytes>,
    row: Row, field: bytes, rowId: bytes)
    requires Ledger(heap, namer, nodes, rank, keys) && Knows(known, rank, nodes) && RowCells(heap, row) && rowId != []
    requires row.Row? && row.derivation.Some? && row.derivation.value in rank && field in row.fields && row.fields[field].Some?
    ensures forall path :: Framed(heap, known, Frame(row.fields[field].value, rowId, path, 0))
  {
    hide Names;
    var (e, k) := (EdgesOf(heap), row.fields[field].value);
    if IsRow(heap[k].facts.details) {
      var path :| Chain(e, row.derivation.value, path, k);
      ClosedUnderChain(e, rank.Keys, row.derivation.value, path, k);
    }
  }

  // ----- the loops

  /** The visits of one row: the row itself, and its cells in the order of their names. */
  method VisitRow(
    heap: Heap, namer: Namer, n: nat, row: Row, start: seq<Node>, index: map<nat, bytes>,
    ghost startRank: map<nat, nat>, ghost startKeys: seq<nat>, ghost startCells: map<Place, nat>)
    returns (
      r: Result<bytes>, cells: seq<(bytes, bytes)>, nodes: seq<Node>, known: map<nat, bytes>,
      ghost rank: map<nat, nat>, ghost keys: seq<nat>, ghost places: map<Place, nat>)
    requires Closed(heap) && RowsNamed(heap) && RowCells(heap, row) && row.Row? && row.derivation.Some?
    requires row.derivation.value in heap && IsRow(heap[row.derivation.value].facts.details)
    requires Ledger(heap, namer, start, startRank, startKeys) && Knows(index, startRank, start)
    requires Traced(heap, namer, start, startKeys, [], startCells) && RowsNew(startCells, n)
    ensures Ledger(heap, namer, nodes, rank, keys) && Knows(known, rank, nodes) && start <= nodes && startKeys <= keys
    ensures Traced(heap, namer, nodes, keys, [], places)
    ensures r.Ok? ==> RowsNew(places, n + 1)
                      && RowRecorded(heap, nodes, rank, row, heap[row.derivation.value].facts.text, r.value, cells)
    ensures r.Err? ==> (r.error == Limit && (Cyclic(heap) || |heap| >= 100_000))
                       || (r.error == UnsupportedValue && exists f :: f in row.fields && row.fields[f].None?)
  {
    hide Ledger, Knows, Closed, RowsNamed, IsRow, Cyclic, Traced, RowCells, RowsNew, FieldsNew, IdIs, Framed, Scan.Order;
    var rowId := heap[row.derivation.value].facts.text;
    RowNamed(heap, row.derivation.value);
    RowFramed(heap, index, row.derivation.value, rowId, namer.root(RowRoot(n)));
    assert RootPlace(RowRoot(n)) !in startCells by { RowIsNew(startCells, n); }
    r, nodes, known, rank, keys, places :=
      Visit(heap, namer, row.derivation.value, rowId, RowRoot(n), start, index, startRank, startKeys, startCells);
    cells := [];
    LedgerRanked(heap, namer, nodes, rank, keys);
    if r.Err? {
      return;
    }
    assert IdIs(nodes, rank, row.derivation, r.value) by { IdFound(nodes, rank, row.derivation.value, r.value); }
    var fields := Scan.Order(row.fields.Keys);
    RowStarts(startCells, places, n, fields);
    for j := 0 to |fields|
      invariant Ledger(heap, namer, nodes, rank, keys) && Knows(known, rank, nodes) && start <= nodes && startKeys <= keys
      invariant Traced(heap, namer, nodes, keys, [], places) && FieldsNew(places, n, fields, j)
      invariant r.Ok? && IdIs(nodes, rank, row.derivation, r.value) && |cells| == j && CellsRecorded(nodes, rank, row, cells)
    {
      var cell := row.fields[fields[j]];
      if cell.None? {
        return Err(UnsupportedValue), cells, nodes, known, rank, keys, places;
      }
      assert row.derivation.value in rank by { IdRanked(nodes, rank, row.derivation.value, r.value); }
      CellFramed(heap, namer, nodes, rank, keys, known, row, fields[j], rowId);
      assert RootPlace(CellRoot(n, fields[j])) !in places by { FieldIsNew(places, n, fields, j); }
      ghost var (oldNodes, oldRank, oldKeys, oldPlaces) := (nodes, rank, keys, places);
      var id;
      id, nodes, known, rank, keys, places :=
        Visit(heap, namer, cell.value, rowId, CellRoot(n, fields[j]), nodes, known, rank, keys, places);
      if id.Err? {
        return id, cells, nodes, known, rank, keys, places;
      }
      LedgerRanked(heap, namer, nodes, rank, keys);
      CellsStay(heap, namer, oldNodes, oldRank, oldKeys, nodes, rank, keys, row, r.value, cells);
      IdFound(nodes, rank, cell.value, id.value);
      FieldDone(oldPlaces, places, n, row.fields.Keys, j);
      cells := cells + [(fields[j], id.value)];
    }
    RowEnds(places, n, fields);
  }

  lemma RowFramed(heap: Heap, index: map<nat, bytes>, k: nat, rowId: bytes, path: bytes)
    requires k in heap && IsRow(heap[k].facts.details) && rowId == heap[k].facts.text && rowId != []
    ensures Framed(heap, index, Frame(k, rowId, path, 0))
  {}

  lemma RowIsNew(cells: map<Place, nat>, n: nat)
    requires RowsNew(cells, n)
    ensures RootPlace(RowRoot(n)) !in cells
  {}

  lemma FieldIsNew(cells: map<Place, nat>, n: nat, fields: seq<bytes>, j: nat)
    requires FieldsNew(cells, n, fields, j) && j < |fields|
    ensures RootPlace(CellRoot(n, fields[j])) !in cells
  {}

  lemma IdFound(nodes: seq<Node>, rank: map<nat, nat>, k: nat, id: bytes)
    requires k in rank && rank[k] < |nodes| && id == nodes[rank[k]].id
    ensures IdIs(nodes, rank, Some(k), id)
  {}

  lemma IdRanked(nodes: seq<Node>, rank: map<nat, nat>, k: nat, id: bytes)
    requires IdIs(nodes, rank, Some(k), id)
    ensures k in rank
  {}

  function RowIdOf(heap: Heap, row: Row): Option<bytes> {
    if row.Row? && row.derivation.Some? && row.derivation.value in heap then Some(heap[row.derivation.value].facts.text) else None
  }

  /** Why a row is refused before it is visited. */
  function RowRefused(heap: Heap, rows: seq<Row>, i: nat): Option<Error>
    requires i < |rows|
  {
    var row := rows[i];
    if row.NotMap? then Some(Type) else
    if row.derivation.None? || row.derivation.value !in heap || !IsRow(heap[row.derivation.value].facts.details) then Some(UnsupportedValue) else
    var rowId := heap[row.derivation.value].facts.text;
    if rowId == [] || exists k :: 0 <= k < i && RowIdOf(heap, rows[k]) == Some(rowId) then Some(Schema) else None
  }

  predicate FieldMissing(row: Row) { row.Row? && exists f :: f in row.fields && row.fields[f].None? }

  /** Why the rows of a run are refused. */
  ghost predicate RowsFault(heap: Heap, rows: seq<Row>, error: Error) {
    || (error == Limit && (Cyclic(heap) || |heap| >= 100_000 || |rows| > 100_000))
    || (error == UnsupportedValue && exists i :: 0 <= i < |rows| && FieldMissing(rows[i]))
    || exists i :: 0 <= i < |rows| && RowRefused(heap, rows, i) == Some(error)
  }

  /** The row loop of `from_run`. */
  method VisitRows(heap: Heap, namer: Namer, rows: seq<Row>)
    returns (
      r: Result<seq<bytes>>, ids: seq<bytes>, cells: seq<seq<(bytes, bytes)>>, nodes: seq<Node>, known: map<nat, bytes>,
      ghost rank: map<nat, nat>, ghost keys: seq<nat>, ghost places: map<Place, nat>)
    requires Closed(heap) && RowsNamed(heap) && forall i :: 0 <= i < |rows| ==> RowCells(heap, rows[i])
    ensures Ledger(heap, namer, nodes, rank, keys) && Knows(known, rank, nodes) && Traced(heap, namer, nodes, keys, [], places)
    ensures r.Ok? ==> RowsRecorded(heap, nodes, rank, rows, r.value, ids, cells) && DecisionsNew(places, 0)
    ensures r.Err? ==> RowsFault(heap, rows, r.error)
  {
    hide Ledger, Knows, Closed, RowsNamed, IsRow, Cyclic, Traced, RowCells, RowsNew, RowRecorded, DecisionsNew;
    ids, cells, nodes, known, rank, keys, places := [], [], [], map[], map[], [], map[];
    var rowIds: seq<bytes> := [];
    var seen: set<bytes> := {};
    EmptyLedger(heap, namer);
    NothingNew();
    if |rows| > MAX_ROWS {
      return Err(Limit), ids, cells, nodes, known, rank, keys, places;
    }
    assert rows[..0] == [];
    for n := 0 to |rows|
      invariant Ledger(heap, namer, nodes, rank, keys) && Knows(known, rank, nodes) && Traced(heap, namer, nodes, keys, [], places)
      invariant RowsNew(places, n) && RowsRecorded(heap, nodes, rank, rows[..n], rowIds, ids, cells)
      invariant forall k :: 0 <= k < n ==> RowIdOf(heap, rows[k]) == Some(rowIds[k])
      invariant forall id :: id in seen <==> id in rowIds
    {
      var row := rows[n];
      if row.NotMap? {
        assert RowRefused(heap, rows, n) == Some(Type);
        return Err(Type), ids, cells, nodes, known, rank, keys, places;
      }
      RootThere(heap, row);
      if row.derivation.None? || !IsRow(heap[row.derivation.value].facts.details) {
        assert RowRefused(heap, rows, n) == Some(UnsupportedValue);
        return Err(UnsupportedValue), ids, cells, nodes, known, rank, keys, places;
      }
      var rowId := heap[row.derivation.value].facts.text;
      if rowId == [] || rowId in seen {
        assert RowRefused(heap, rows, n) == Some(Schema);
        return Err(Schema), ids, cells, nodes, known, rank, keys, places;
      }
      ghost var (oldNodes, oldRank, oldKeys) := (nodes, rank, keys);
      var id, fields;
      id, fields, nodes, known, rank, keys, places := VisitRow(heap, namer, n, row, nodes, known, rank, keys, places);
      if id.Err? {
        return Err(id.error), ids, cells, nodes, known, rank, keys, places;
      }
      RowsStay(heap, namer, oldNodes, oldRank, oldKeys, nodes, rank, keys, rows[..n], rowIds, ids, cells);
      RowAdded(heap, nodes, rank, rows[..n], rowIds, ids, cells, row, rowId, id.value, fields);
      assert rows[..n + 1] == rows[..n] + [row];
      rowIds, ids, cells, seen := rowIds + [rowId], ids + [id.value], cells + [fields], seen + {rowId};
    }
    assert rows[..|rows|] == rows;
    RowsOver(places, |rows|);
    return Ok(rowIds), ids, cells, nodes, known, rank, keys, places;
  }

  lemma EmptyLedger(heap: Heap, namer: Namer)
    ensures Ledger(heap, namer, [], map[], []) && Knows(map[], map[], []) && Traced(heap, namer, [], [], [], map[])
  {}

  lemma RootThere(heap: Heap, row: Row)
    requires RowCells(heap, row) && row.Row?
    ensures row.derivation.Some? ==> row.derivation.value in heap
  {}

  lemma RowsOver(places: map<Place, nat>, n: nat)
    requires RowsNew(places, n)
    ensures DecisionsNew(places, 0)
  {}

  lemma RowAdded(
    heap: Heap, nodes: seq<Node>, rank: map<nat, nat>, rows: seq<Row>, rowIds: seq<bytes>, ids: seq<bytes>, cells: seq<seq<(bytes, bytes)>>,
    row: Row, rowId: bytes, id: bytes, fields: seq<(bytes, bytes)>)
    requires RowsRecorded(heap, nodes, rank, rows, rowIds, ids, cells) && RowRecorded(heap, nodes, rank, row, rowId, id, fields)
    requires rowId !in rowIds
    ensures RowsRecorded(heap, nodes, rank, rows + [row], rowIds + [rowId], ids + [id], cells + [fields])
  {
    hide RowRecorded;
  }

  /** What a run makes, with the cells of its nodes, the places it visited and the groups of its exclusions. */
  ghost predicate RunMade(
    heap: Heap, namer: Namer, split: Split, rows: seq<Row>, decisions: seq<Decision>, run: Run,
    rank: map<nat, nat>, keys: seq<nat>, places: map<Place, nat>, groups: seq<Group>)
  {
    && Ledger(heap, namer, run.nodes, rank, keys) && Traced(heap, namer, run.nodes, keys, [], places)
    && RowsRecorded(heap, run.nodes, rank, rows, run.rowIds, run.rowDerivations, run.cellDerivations)
    && AllRecorded(heap, run.nodes, rank, split, decisions, groups) && run.exclusions == Flat(groups)
  }

  ghost predicate ListRefused(heap: Heap, rank: map<nat, nat>, split: Split, decisions: seq<Decision>, error: Error) {
    Ranked(heap, rank) && ListFault(heap, rank, split, decisions, error)
  }

  ghost predicate RunRefused(heap: Heap, split: Split, rows: seq<Row>, decisions: seq<Decision>, error: Error) {
    RowsFault(heap, rows, error) || exists rank :: ListRefused(heap, rank, split, decisions, error)
  }

  /**
   `from_run`. Its nodes are a ledger in which every node has the path of its place, its rows and cells are saved under
   the identities of their nodes, and its exclusions are those of its decisions.
   */
  method FromRun(
    heap: Heap, namer: Namer, split: Split, query: bytes, digest: bytes, rows: Option<seq<Row>>, decisions: seq<Decision>)
    returns (r: Result<Run>, ghost rank: map<nat, nat>, ghost keys: seq<nat>, ghost places: map<Place, nat>, ghost groups: seq<Group>)
    requires Closed(heap) && RowsNamed(heap) && forall i :: 0 <= i < |decisions| ==> DecisionCells(heap, decisions[i])
    requires rows.Some? ==> forall i :: 0 <= i < |rows.value| ==> RowCells(heap, rows.value[i])
    ensures r.Ok? ==> GoodQuery(query, digest) && rows.Some?
    ensures r.Ok? ==> exists rank, keys, places, groups :: RunMade(heap, namer, split, rows.value, decisions, r.value, rank, keys, places, groups)
    ensures r.Ok? ==> RunMade(heap, namer, split, rows.value, decisions, r.value, rank, keys, places, groups)
    ensures r.Err? ==>
              if !GoodQuery(query, digest) then r.error == InvalidParameters
              else if rows.None? then r.error == Type
              else RunRefused(heap, split, rows.value, decisions, r.error)
  {
    hide Ledger, Knows, Closed, RowsNamed, IsRow, Traced, RowCells, RowRecorded, DecisionsNew, DecisionCells, Ranked, AllRecorded,
         ListFault, RowsFault, Flat;
    rank, keys, places, groups := map[], [], map[], [];
    if !GoodQuery(query, digest) {
      return Err(InvalidParameters), rank, keys, places, groups;
    }
    if rows.None? {
      return Err(Type), rank, keys, places, groups;
    }
    var rowIds, ids, cells, nodes, known;
    rowIds, ids, cells, nodes, known, rank, keys, places := VisitRows(heap, namer, rows.value);
    if rowIds.Err? {
      return Err(rowIds.error), rank, keys, places, groups;
    }
    ghost var (oldNodes, oldRank, oldKeys) := (nodes, rank, keys);
    var exclusions;
    exclusions, nodes, rank, keys, places, groups := ListExclusions(heap, namer, split, decisions, nodes, known, rank, keys, places);
    if exclusions.Err? {
      assert ListRefused(heap, rank, split, decisions, exclusions.error);
      return Err(exclusions.error), rank, keys, places, groups;
    }
    RowsStay(heap, namer, oldNodes, oldRank, oldKeys, nodes, rank, keys, rows.value, rowIds.value, ids, cells);
    var run := Run(rowIds.value, ids, cells, exclusions.value, nodes);
    assert RunMade(heap, namer, split, rows.value, decisions, run, rank, keys, places, groups);
    return Ok(run), rank, keys, places, groups;
  }
}
