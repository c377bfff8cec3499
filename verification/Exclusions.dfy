/**
 Why source rows are missing from a result (`DatasetIdentity::from_run`), and how a saved list of that is checked
 (`validate` in `dataset_snapshot.rs`).
 */
module Exclusions {
  import opened Bytes
  import opened Dag
  import opened DagIdentity
  import opened DagPaths

  type Split = bytes -> Option<(bytes, bytes)>

  /** A row that the evaluation left out: its cell, the operation and reason, and the predicate that decided it. */
  datatype Decision = Decision(operation: bytes, reason: bytes, input: nat, decider: Option<nat>, value: Option<bool>)

  datatype Exclusion = Exclusion(
    source: bytes, row: bytes, operation: bytes, reason: bytes, input: bytes, decider: Option<bytes>, value: Option<bool>)

  /** The exclusions of one decision: one for each source row below what was left out. */
  datatype Group = Group(
    operation: bytes, reason: bytes, input: bytes, decider: Option<bytes>, value: Option<bool>, pairs: seq<(bytes, bytes)>)

  function Entry(g: Group, pair: (bytes, bytes)): Exclusion {
    Exclusion(pair.0, pair.1, g.operation, g.reason, g.input, g.decider, g.value)
  }

  function Entries(g: Group): (entries: seq<Exclusion>)
    ensures |entries| == |g.pairs| && forall i :: 0 <= i < |entries| ==> entries[i] == Entry(g, g.pairs[i])
  {
    seq(|g.pairs|, i requires 0 <= i < |g.pairs| => Entry(g, g.pairs[i]))
  }

  function Flat(groups: seq<Group>): seq<Exclusion> {
    if groups == [] then [] else Entries(groups[0]) + Flat(groups[1..])
  }

  lemma {:induction false} FlatMore(groups: seq<Group>, g: Group)
    ensures Flat(groups + [g]) == Flat(groups) + Entries(g)
  {
    if groups == [] {
      assert [g][1..] == [] && Entries(g) + [] == Entries(g) && [] + [g] == [g];
    } else {
      FlatMore(groups[1..], g);
      assert (groups + [g])[1..] == groups[1..] + [g];
      assert Entries(groups[0]) + (Flat(groups[1..]) + Entries(g)) == Flat(groups) + Entries(g);
    }
  }

  // ----- listing the exclusions of a run

  /** The nodes of the cell and of the predicate of a decision. */
  ghost predicate Named(nodes: seq<Node>, rank: map<nat, nat>, d: Decision, input: bytes, decider: Option<bytes>) {
    && d.input in rank && rank[d.input] < |nodes| && input == nodes[rank[d.input]].id
    && (match d.decider
        case None => decider == None
        case Some(k) => k in rank && rank[k] < |nodes| && decider == Some(nodes[rank[k]].id))
  }

  /** The group names the cell and the predicate of its decision, and the source rows below the cell in order. */
  ghost predicate Records(heap: Heap, nodes: seq<Node>, rank: map<nat, nat>, split: Split, d: Decision, g: Group)
    requires Ranked(heap, rank)
  {
    && d.input in rank && d.input in heap && Named(nodes, rank, d, g.input, g.decider)
    && g.operation == d.operation && g.reason == d.reason && g.value == d.value
    && g.pairs != [] && Parsed(split, CellSources(heap, rank, d.input), g.pairs)
  }

  /** The sources below a cell stay as the ledger grows. */
  lemma {:induction false} SourcesStay(heap: Heap, before: map<nat, nat>, after: map<nat, nat>, k: nat)
    requires Ranked(heap, before) && Ranked(heap, after) && k in before && k in heap
    requires forall x :: x in before ==> x in after && after[x] == before[x]
    ensures CellSources(heap, after, k) == CellSources(heap, before, k)
    decreases before[k], 1, 0
  {
    hide IsSource;
    if !IsSource(heap[k].facts.operation, heap[k].facts.details) {
      InputsStay(heap, before, after, heap[k].inputs, before[k]);
    }
  }

  lemma {:induction false} InputsStay(heap: Heap, before: map<nat, nat>, after: map<nat, nat>, inputs: seq<nat>, bound: nat)
    requires Ranked(heap, before) && Ranked(heap, after)
    requires forall j :: 0 <= j < |inputs| ==> inputs[j] in before && inputs[j] in heap && before[inputs[j]] < bound
    requires forall x :: x in before ==> x in after && after[x] == before[x]
    ensures InputSources(heap, after, inputs, bound) == InputSources(heap, before, inputs, bound)
    decreases bound, 0, |inputs|
  {
    hide CellSources, Ranked;
    if inputs != [] {
      SourcesStay(heap, before, after, inputs[0]);
      InputsStay(heap, before, after, inputs[1..], bound);
    }
  }

  /** A cell keeps its position. */
  lemma RanksStay(
    heap: Heap, namer: Namer, nodes: seq<Node>, rank: map<nat, nat>, keys: seq<nat>,
    more: seq<Node>, moreRank: map<nat, nat>, moreKeys: seq<nat>)
    requires Ledger(heap, namer, nodes, rank, keys) && Ledger(heap, namer, more, moreRank, moreKeys)
    requires nodes <= more && keys <= moreKeys
    ensures Ranked(heap, rank) && Ranked(heap, moreRank)
    ensures forall k :: k in rank ==> k in moreRank && moreRank[k] == rank[k] && rank[k] < |nodes|
  {
    hide Names, Ranked;
    forall k | k in rank ensures k in moreRank && moreRank[k] == rank[k] {
      assert keys[rank[k]] == k && moreKeys[rank[k]] == k;
    }
  }

  lemma RecordStays(
    heap: Heap, namer: Namer, nodes: seq<Node>, rank: map<nat, nat>, keys: seq<nat>,
    more: seq<Node>, moreRank: map<nat, nat>, moreKeys: seq<nat>, split: Split, d: Decision, g: Group)
    requires Ledger(heap, namer, nodes, rank, keys) && Ledger(heap, namer, more, moreRank, moreKeys)
    requires nodes <= more && keys <= moreKeys && Ranked(heap, rank) && Ranked(heap, moreRank)
    requires Records(heap, nodes, rank, split, d, g)
    ensures Records(heap, more, moreRank, split, d, g)
  {
    hide Ledger, Ranked, Parsed;
    RanksStay(heap, namer, nodes, rank, keys, more, moreRank, moreKeys);
    SourcesStay(heap, rank, moreRank, d.input);
  }

  /** Each group records its decision. */
  ghost predicate AllRecorded(
    heap: Heap, nodes: seq<Node>, rank: map<nat, nat>, split: Split, decisions: seq<Decision>, groups: seq<Group>)
  {
    && Ranked(heap, rank) && |groups| == |decisions|
    && forall i :: 0 <= i < |groups| ==> Records(heap, nodes, rank, split, decisions[i], groups[i])
  }

  lemma AllStay(
    heap: Heap, namer: Namer, nodes: seq<Node>, rank: map<nat, nat>, keys: seq<nat>,
    more: seq<Node>, moreRank: map<nat, nat>, moreKeys: seq<nat>, split: Split, decisions: seq<Decision>, groups: seq<Group>)
    requires Ledger(heap, namer, nodes, rank, keys) && Ledger(heap, namer, more, moreRank, moreKeys)
    requires nodes <= more && keys <= moreKeys && AllRecorded(heap, nodes, rank, split, decisions, groups)
    ensures AllRecorded(heap, more, moreRank, split, decisions, groups)
  {
    hide Ledger, Ranked, Records;
    RanksStay(heap, namer, nodes, rank, keys, more, moreRank, moreKeys);
    forall i | 0 <= i < |groups| ensures Records(heap, more, moreRank, split, decisions[i], groups[i]) {
      RecordStays(heap, namer, nodes, rank, keys, more, moreRank, moreKeys, split, decisions[i], groups[i]);
    }
  }

  /** What a decision is about is in the heap; a predicate that is itself a row is below the row it decided. */
  ghost predicate DecisionCells(heap: Heap, d: Decision) {
    && d.input in heap
    && (d.decider.Some? ==>
          && d.decider.value in heap
          && (!IsRow(heap[d.decider.value].facts.details) || Reaches(EdgesOf(heap), d.input, d.decider.value)))
  }

  /** No decision from here on has been visited. */
  ghost predicate DecisionsNew(cells: map<Place, nat>, n: nat) {
    forall i :: i >= n ==> RootPlace(ExclusionRoot(i)) !in cells && RootPlace(DeciderRoot(i)) !in cells
  }

  /** The visits of one decision. */
  method VisitDecision(
    heap: Heap, namer: Namer, n: nat, d: Decision, start: seq<Node>, index: map<nat, bytes>,
    ghost startRank: map<nat, nat>, ghost startKeys: seq<nat>, ghost startCells: map<Place, nat>)
    returns (r: Result<bytes>, decider: Option<bytes>, nodes: seq<Node>, known: map<nat, bytes>,
             ghost rank: map<nat, nat>, ghost keys: seq<nat>, ghost cells: map<Place, nat>)
    requires Closed(heap) && RowsNamed(heap) && DecisionCells(heap, d) && IsRow(heap[d.input].facts.details)
    requires Ledger(heap, namer, start, startRank, startKeys) && Knows(index, startRank, start)
    requires Traced(heap, namer, start, startKeys, [], startCells) && DecisionsNew(startCells, n)
    ensures Ledger(heap, namer, nodes, rank, keys) && Knows(known, rank, nodes) && start <= nodes && startKeys <= keys
    ensures Traced(heap, namer, nodes, keys, [], cells) && DecisionsNew(cells, n + 1)
    ensures r.Ok? ==> Named(nodes, rank, d, r.value, decider)
    ensures r.Err? ==> r.error == Limit && (Cyclic(heap) || |heap| >= 100_000)
  {
    hide Ledger, Knows, Closed, RowsNamed, IsRow, Cyclic, Traced;
    var row := heap[d.input].facts.text;
    RowNamed(heap, d.input);
    r, nodes, known, rank, keys, cells := Visit(heap, namer, d.input, row, ExclusionRoot(n), start, index, startRank, startKeys, startCells);
    decider := None;
    LedgerRanked(heap, namer, nodes, rank, keys);
    if r.Err? || d.decider.None? {
      return;
    }
    DeciderFramed(heap, namer, nodes, rank, keys, known, d, row);
    ghost var (midNodes, midRank, midKeys) := (nodes, rank, keys);
    var found;
    found, nodes, known, rank, keys, cells := Visit(heap, namer, d.decider.value, row, DeciderRoot(n), nodes, known, rank, keys, cells);
    if found.Err? {
      r := found;
      return;
    }
    decider := Some(found.value);
    LedgerRanked(heap, namer, nodes, rank, keys);
    RanksStay(heap, namer, midNodes, midRank, midKeys, nodes, rank, keys);
  }

  /** Why the exclusions of a run cannot be listed. */
  ghost predicate ListFault(heap: Heap, rank: map<nat, nat>, split: Split, decisions: seq<Decision>, error: Error)
    requires Ranked(heap, rank)
  {
    || (error == UnsupportedValue && exists i :: 0 <= i < |decisions| && NotRow(heap, decisions[i]))
    || (error == Limit && (Cyclic(heap) || |heap| >= 100_000))
    || exists i :: 0 <= i < |decisions| && decisions[i].input in rank && decisions[i].input in heap
                   && SourcesFault(heap, rank, split, decisions[i].input, error)
  }

  predicate NotRow(heap: Heap, d: Decision) { d.input in heap && !IsRow(heap[d.input].facts.details) }

  /** The decision loop of `from_run`. */
  method ListExclusions(
    heap: Heap, namer: Namer, split: Split, decisions: seq<Decision>, start: seq<Node>, index: map<nat, bytes>,
    ghost startRank: map<nat, nat>, ghost startKeys: seq<nat>, ghost startCells: map<Place, nat>)
    returns (
      r: Result<seq<Exclusion>>, nodes: seq<Node>, ghost rank: map<nat, nat>, ghost keys: seq<nat>, ghost cells: map<Place, nat>,
      ghost groups: seq<Group>)
    requires Closed(heap) && RowsNamed(heap) && forall i :: 0 <= i < |decisions| ==> DecisionCells(heap, decisions[i])
    requires Ledger(heap, namer, start, startRank, startKeys) && Knows(index, startRank, start)
    requires Traced(heap, namer, start, startKeys, [], startCells) && DecisionsNew(startCells, 0)
    ensures Ledger(heap, namer, nodes, rank, keys) && start <= nodes && startKeys <= keys
    ensures Traced(heap, namer, nodes, keys, [], cells)
    ensures r.Ok? ==> AllRecorded(heap, nodes, rank, split, decisions, groups) && r.value == Flat(groups)
    ensures r.Ok? ==> forall i :: 0 <= i < |decisions| ==> IsRow(heap[decisions[i].input].facts.details)
    ensures Ranked(heap, rank) && (r.Err? ==> ListFault(heap, rank, split, decisions, r.error))
  {
    hide SourcesFault, Cyclic, Ledger, Knows, Closed, RowsNamed, IsRow, Parsed, Ranked, CellSources, Named, AllRecorded, DecisionCells, Flat,
         Traced, DecisionsNew;
    nodes, rank, keys, cells, groups := start, startRank, startKeys, startCells, [];
    var known := index;
    var exclusions: seq<Exclusion> := [];
    LedgerRanked(heap, namer, nodes, rank, keys);
    NoneRecorded(heap, nodes, rank, split, decisions);
    for n := 0 to |decisions|
      invariant Ledger(heap, namer, nodes, rank, keys) && Knows(known, rank, nodes) && start <= nodes && startKeys <= keys
      invariant Traced(heap, namer, nodes, keys, [], cells) && DecisionsNew(cells, n)
      invariant Ranked(heap, rank)
      invariant AllRecorded(heap, nodes, rank, split, decisions[..n], groups) && exclusions == Flat(groups)
      invariant forall i :: 0 <= i < n ==> decisions[i].input in heap && IsRow(heap[decisions[i].input].facts.details)
    {
      var d := decisions[n];
      assert DecisionCells(heap, d);
      InputThere(heap, d);
      if !IsRow(heap[d.input].facts.details) {
        assert NotRow(heap, decisions[n]);
        return Err(UnsupportedValue), nodes, rank, keys, cells, groups;
      }
      ghost var (oldNodes, oldRank, oldKeys) := (nodes, rank, keys);
      var id, decider;
      id, decider, nodes, known, rank, keys, cells := VisitDecision(heap, namer, n, d, nodes, known, rank, keys, cells);
      LedgerRanked(heap, namer, nodes, rank, keys);
      if id.Err? {
        return Err(id.error), nodes, rank, keys, cells, groups;
      }
      AllStay(heap, namer, oldNodes, oldRank, oldKeys, nodes, rank, keys, split, decisions[..n], groups);
      InputKnown(nodes, rank, d, id.value, decider);
      var pairs := ContributingSources(heap, rank, split, d.input);
      if pairs.Err? {
        return Err(pairs.error), nodes, rank, keys, cells, groups;
      }
      ghost var g := Group(d.operation, d.reason, id.value, decider, d.value, pairs.value);
      for k := 0 to |pairs.value|
        invariant exclusions == Flat(groups) + Entries(g)[..k]
      {
        var (source, sourceRow) := pairs.value[k];
        assert Entries(g)[..k + 1] == Entries(g)[..k] + [Entries(g)[k]];
        exclusions := exclusions + [Exclusion(source, sourceRow, d.operation, d.reason, id.value, decider, d.value)];
      }
      assert Entries(g)[..|pairs.value|] == Entries(g);
      FlatMore(groups, g);
      Recorded(heap, nodes, rank, split, decisions[..n], groups, d, g);
      assert decisions[..n + 1] == decisions[..n] + [d];
      groups := groups + [g];
    }
    assert decisions[..|decisions|] == decisions;
    return Ok(exclusions), nodes, rank, keys, cells, groups;
  }

  lemma InputThere(heap: Heap, d: Decision)
    requires DecisionCells(heap, d)
    ensures d.input in heap
  {}

  lemma InputKnown(nodes: seq<Node>, rank: map<nat, nat>, d: Decision, input: bytes, decider: Option<bytes>)
    requires Named(nodes, rank, d, input, decider)
    ensures d.input in rank
  {}

  lemma NoneRecorded(heap: Heap, nodes: seq<Node>, rank: map<nat, nat>, split: Split, decisions: seq<Decision>)
    requires Ranked(heap, rank)
    ensures AllRecorded(heap, nodes, rank, split, decisions[..0], []) && Flat([]) == []
  {}

  lemma LedgerRanked(heap: Heap, namer: Namer, nodes: seq<Node>, rank: map<nat, nat>, keys: seq<nat>)
    requires Ledger(heap, namer, nodes, rank, keys)
    ensures Ranked(heap, rank) && forall k :: k in rank ==> k in heap && rank[k] < |nodes|
  {}

  lemma RowNamed(heap: Heap, k: nat)
    requires RowsNamed(heap) && k in heap && IsRow(heap[k].facts.details)
    ensures heap[k].facts.text != []
  {}

  /** A predicate that is a row is known once the row it decided is. */
  lemma DeciderFramed(
    heap: Heap, namer: Namer, nodes: seq<Node>, rank: map<nat, nat>, keys: seq<nat>, known: map<nat, bytes>, d: Decision, row: bytes)
    requires Ledger(heap, namer, nodes, rank, keys) && Knows(known, rank, nodes)
    requires DecisionCells(heap, d) && d.decider.Some? && d.input in rank && row != []
    ensures forall path :: Framed(heap, known, Frame(d.decider.value, row, path, 0))
  {
    hide Names;
    var (e, k) := (EdgesOf(heap), d.decider.value);
    if IsRow(heap[k].facts.details) {
      var path :| Chain(e, d.input, path, k);
      ClosedUnderChain(e, rank.Keys, d.input, path, k);
    }
  }

  lemma Recorded(
    heap: Heap, nodes: seq<Node>, rank: map<nat, nat>, split: Split, decisions: seq<Decision>, groups: seq<Group>, d: Decision, g: Group)
    requires AllRecorded(heap, nodes, rank, split, decisions, groups) && Ranked(heap, rank) && d.input in heap
    requires Named(nodes, rank, d, g.input, g.decider)
    requires g == Group(d.operation, d.reason, g.input, g.decider, d.value, g.pairs)
    requires g.pairs != [] && Parsed(split, CellSources(heap, rank, d.input), g.pairs)
    ensures AllRecorded(heap, nodes, rank, split, decisions + [d], groups + [g])
  {
    hide Ranked, Parsed;
    assert Records(heap, nodes, rank, split, d, g);
  }
  // ----- the check of a saved list

  /** "filter_false", "limit", "limit_excluded", "join", "no_matching_key" */
  const FILTER_FALSE: bytes := [
    'f' as int, 'i' as int, 'l' as int, 't' as int, 'e' as int, 'r' as int, '_' as int,
    'f' as int, 'a' as int, 'l' as int, 's' as int, 'e' as int]
  const LIMIT_NAME: bytes := ['l' as int, 'i' as int, 'm' as int, 'i' as int, 't' as int]
  const LIMIT_EXCLUDED: bytes := [
    'l' as int, 'i' as int, 'm' as int, 'i' as int, 't' as int, '_' as int,
    'e' as int, 'x' as int, 'c' as int, 'l' as int, 'u' as int, 'd' as int, 'e' as int, 'd' as int]
  const JOIN: bytes := ['j' as int, 'o' as int, 'i' as int, 'n' as int]
  const NO_MATCHING_KEY: bytes := [
    'n' as int, 'o' as int, '_' as int, 'm' as int, 'a' as int, 't' as int, 'c' as int, 'h' as int, 'i' as int, 'n' as int, 'g' as int,
    '_' as int, 'k' as int, 'e' as int, 'y' as int]

  /** The operations that leave rows out, with what each must say. */
  predicate Sound(operation: bytes, reason: bytes, value: Option<bool>, decided: bool) {
    || (reason == FILTER_FALSE && operation == FILTER && value == Some(false))
    || (reason == LIMIT_EXCLUDED && operation == LIMIT_NAME && value == None && !decided)
    || (reason == NO_MATCHING_KEY && operation == JOIN && value == None && !decided)
  }

  /** A group that the saved nodes bear out. */
  ghost predicate Borne(nodes: seq<Node>, position: map<bytes, nat>, split: Split, g: Group)
    requires Resolved(nodes, position) && Positions(nodes, position)
  {
    && g.input in position && (g.decider.Some? ==> g.decider.value in position)
    && Sound(g.operation, g.reason, g.value, g.decider.Some?)
    && g.pairs != [] && Parsed(split, NodeSources(nodes, position, position[g.input]), g.pairs)
  }

  ghost function Work(nodes: seq<Node>, position: map<bytes, nat>, groups: seq<Group>): nat
    requires Resolved(nodes, position) && Positions(nodes, position)
    requires forall i :: 0 <= i < |groups| ==> groups[i].input in position
  {
    if groups == [] then 0 else NodeWork(nodes, position, position[groups[0].input]) + Work(nodes, position, groups[1..])
  }

  /** The list is made of these groups, all borne out, and reading their sources costs no more than the budget. */
  ghost predicate MadeOf(
    nodes: seq<Node>, position: map<bytes, nat>, split: Split, exclusions: seq<Exclusion>, budget: nat, groups: seq<Group>)
    requires Resolved(nodes, position) && Positions(nodes, position)
  {
    && (forall i :: 0 <= i < |groups| ==> Borne(nodes, position, split, groups[i]))
    && exclusions == Flat(groups) && Work(nodes, position, groups) <= budget
  }

  ghost predicate Explained(nodes: seq<Node>, position: map<bytes, nat>, split: Split, exclusions: seq<Exclusion>, budget: nat)
    requires Resolved(nodes, position) && Positions(nodes, position)
  {
    exists groups :: MadeOf(nodes, position, split, exclusions, budget, groups)
  }

  /** What the group of the first exclusion must be, but for its sources. */
  function Leading(e: Exclusion, pairs: seq<(bytes, bytes)>): Group {
    Group(e.operation, e.reason, e.input, e.decider, e.value, pairs)
  }

  lemma FirstGroup(
    nodes: seq<Node>, position: map<bytes, nat>, split: Split, exclusions: seq<Exclusion>, budget: nat, groups: seq<Group>)
    requires Resolved(nodes, position) && Positions(nodes, position) && exclusions != []
    requires MadeOf(nodes, position, split, exclusions, budget, groups)
    ensures groups != [] && Borne(nodes, position, split, groups[0])
    ensures groups[0] == Leading(exclusions[0], groups[0].pairs)
    ensures var work := NodeWork(nodes, position, position[groups[0].input]);
            && work <= budget && Entries(groups[0]) <= exclusions
            && MadeOf(nodes, position, split, exclusions[|groups[0].pairs|..], budget - work, groups[1..])
  {
    hide Resolved, Positions, Borne, NodeWork;
    assert groups != [];
    BorneParts(nodes, position, split, groups[0]);
    assert exclusions == Entries(groups[0]) + Flat(groups[1..]);
    assert exclusions[|groups[0].pairs|..] == Flat(groups[1..]);
    assert exclusions[0] == Entries(groups[0])[0];
    forall i | 0 <= i < |groups[1..]| ensures Borne(nodes, position, split, groups[1..][i]) {
      assert Borne(nodes, position, split, groups[i + 1]);
    }
  }

  lemma BorneParts(nodes: seq<Node>, position: map<bytes, nat>, split: Split, g: Group)
    requires Resolved(nodes, position) && Positions(nodes, position) && Borne(nodes, position, split, g)
    ensures g.input in position && position[g.input] < |nodes| && g.pairs != []
  {}

  lemma NextGroup(
    nodes: seq<Node>, position: map<bytes, nat>, split: Split, exclusions: seq<Exclusion>, budget: nat, g: Group, rest: seq<Group>)
    requires Resolved(nodes, position) && Positions(nodes, position) && Borne(nodes, position, split, g)
    requires Entries(g) <= exclusions && NodeWork(nodes, position, position[g.input]) <= budget
    requires MadeOf(nodes, position, split, exclusions[|g.pairs|..], budget - NodeWork(nodes, position, position[g.input]), rest)
    ensures MadeOf(nodes, position, split, exclusions, budget, [g] + rest)
  {
    hide Resolved, Positions, Borne, NodeWork;
    var groups := [g] + rest;
    assert groups[1..] == rest && groups[0] == g;
    BorneParts(nodes, position, split, g);
    forall i | 0 <= i < |groups| ensures Borne(nodes, position, split, groups[i]) {
      assert i > 0 ==> groups[i] == rest[i - 1];
    }
    assert exclusions == Entries(g) + exclusions[|g.pairs|..];
  }

  lemma SamePairs(split: Split, labels: seq<bytes>, a: seq<(bytes, bytes)>, b: seq<(bytes, bytes)>)
    requires Parsed(split, labels, a) && Parsed(split, labels, b)
    ensures a == b
  {
    forall i | 0 <= i < |a| ensures a[i] == b[i] {
      assert split(labels[i]) == Some(a[i]) && split(labels[i]) == Some(b[i]);
    }
  }
  /** The list opens with a group of these sources, and the rest is explained by what is left of the budget. */
  ghost predicate Opens(
    nodes: seq<Node>, position: map<bytes, nat>, split: Split, exclusions: seq<Exclusion>, budget: nat, pairs: seq<(bytes, bytes)>)
    requires Resolved(nodes, position) && Positions(nodes, position) && exclusions != []
  {
    var g := Leading(exclusions[0], pairs);
    && Borne(nodes, position, split, g) && Entries(g) <= exclusions
    && NodeWork(nodes, position, position[g.input]) <= budget
    && Explained(nodes, position, split, exclusions[|pairs|..], budget - NodeWork(nodes, position, position[g.input]))
  }

  lemma ExplainedStep(nodes: seq<Node>, position: map<bytes, nat>, split: Split, exclusions: seq<Exclusion>, budget: nat)
    requires Resolved(nodes, position) && Positions(nodes, position) && exclusions != []
    ensures Explained(nodes, position, split, exclusions, budget) <==>
            exists pairs :: Opens(nodes, position, split, exclusions, budget, pairs)
  {
    hide Resolved, Positions, Borne, NodeWork, MadeOf;
    if groups: seq<Group> :| MadeOf(nodes, position, split, exclusions, budget, groups) {
      FirstGroup(nodes, position, split, exclusions, budget, groups);
      BorneParts(nodes, position, split, groups[0]);
      assert Opens(nodes, position, split, exclusions, budget, groups[0].pairs);
    }
    if pairs: seq<(bytes, bytes)> :| Opens(nodes, position, split, exclusions, budget, pairs) {
      var g := Leading(exclusions[0], pairs);
      BorneParts(nodes, position, split, g);
      var work := NodeWork(nodes, position, position[g.input]);
      var rest: seq<Group> :| MadeOf(nodes, position, split, exclusions[|pairs|..], budget - work, rest);
      NextGroup(nodes, position, split, exclusions, budget, g, rest);
    }
  }

  /** A list that opens soundly opens with just the sources that its first exclusion's node has. */
  lemma OpensWith(
    nodes: seq<Node>, position: map<bytes, nat>, split: Split, exclusions: seq<Exclusion>, budget: nat, pairs: seq<(bytes, bytes)>)
    requires Resolved(nodes, position) && Positions(nodes, position) && exclusions != [] && exclusions[0].input in position
    requires Parsed(split, NodeSources(nodes, position, position[exclusions[0].input]), pairs)
    ensures Explained(nodes, position, split, exclusions, budget) <==> Opens(nodes, position, split, exclusions, budget, pairs)
  {
    hide Resolved, NodeWork, Explained, Parsed, NodeSources, Sound, Entries;
    ExplainedStep(nodes, position, split, exclusions, budget);
    forall other | Opens(nodes, position, split, exclusions, budget, other) ensures other == pairs {
      SamePairs(split, NodeSources(nodes, position, position[exclusions[0].input]), other, pairs);
    }
  }

  lemma NeverOpens(nodes: seq<Node>, position: map<bytes, nat>, split: Split, exclusions: seq<Exclusion>, budget: nat)
    requires Resolved(nodes, position) && Positions(nodes, position) && exclusions != []
    requires var e := exclusions[0];
             || e.input !in position || (e.decider.Some? && e.decider.value !in position)
             || !Sound(e.operation, e.reason, e.value, e.decider.Some?)
             || (var labels := NodeSources(nodes, position, position[e.input]);
                 labels == [] || !AllParse(split, labels) || NodeWork(nodes, position, position[e.input]) > budget)
    ensures !Explained(nodes, position, split, exclusions, budget)
  {
    hide Resolved, NodeWork, Explained, NodeSources, Sound, Entries;
    ExplainedStep(nodes, position, split, exclusions, budget);
  }

  /** One turn of the exclusion loop of `validate`: the group that starts at `index`, and what is left of the budget. */
  method CheckGroup(
    nodes: seq<Node>, position: map<bytes, nat>, split: Split, exclusions: seq<Exclusion>, index: nat, budget: nat)
    returns (ok: bool, next: nat, remaining: nat)
    requires Resolved(nodes, position) && Positions(nodes, position) && index < |exclusions|
    ensures ok ==> index < next <= |exclusions|
    ensures Explained(nodes, position, split, exclusions[index..], budget) <==>
            ok && Explained(nodes, position, split, exclusions[next..], remaining)
  {
    hide Resolved, Positions, NodeWork, Explained, NodeSources, Sound, Opens, AllParse;
    ghost var rest := exclusions[index..];
    var e := exclusions[index];
    if e.input !in position || (e.decider.Some? && e.decider.value !in position) || !Sound(e.operation, e.reason, e.value, e.decider.Some?) {
      NeverOpens(nodes, position, split, rest, budget);
      return false, index, budget;
    }
    PositionIn(nodes, position, e.input);
    var sources;
    sources, remaining := SourceNodes(nodes, position, split, e.input, budget);
    if sources.Err? {
      NeverOpens(nodes, position, split, rest, budget);
      return false, index, budget;
    }
    var pairs := sources.value;
    OpensWith(nodes, position, split, rest, budget, pairs);
    for offset := 0 to |pairs|
      invariant index + offset <= |exclusions|
      invariant forall k :: 0 <= k < offset ==> rest[k] == Entry(Leading(e, pairs), pairs[k])
    {
      if index + offset >= |exclusions| || exclusions[index + offset] != Entry(Leading(e, pairs), pairs[offset]) {
        NotOpened(nodes, position, split, rest, budget, pairs, offset);
        return false, index, budget;
      }
    }
    Opened(nodes, position, split, rest, budget, pairs);
    next := index + |pairs|;
    assert rest[|pairs|..] == exclusions[next..];
    return true, next, remaining;
  }

  lemma PositionIn(nodes: seq<Node>, position: map<bytes, nat>, id: bytes)
    requires Positions(nodes, position) && id in position
    ensures position[id] < |nodes|
  {}

  lemma NotOpened(
    nodes: seq<Node>, position: map<bytes, nat>, split: Split, rest: seq<Exclusion>, budget: nat, pairs: seq<(bytes, bytes)>, k: nat)
    requires Resolved(nodes, position) && Positions(nodes, position) && rest != [] && k < |pairs|
    requires k >= |rest| || rest[k] != Entry(Leading(rest[0], pairs), pairs[k])
    ensures !Opens(nodes, position, split, rest, budget, pairs)
  {
    hide Resolved, Positions, NodeWork, Explained, Borne;
    var entries := Entries(Leading(rest[0], pairs));
    if k < |rest| {
      assert entries[k] != rest[k];
    }
  }

  lemma Opened(
    nodes: seq<Node>, position: map<bytes, nat>, split: Split, rest: seq<Exclusion>, budget: nat, pairs: seq<(bytes, bytes)>)
    requires Resolved(nodes, position) && Positions(nodes, position) && rest != [] && 0 < |pairs| <= |rest|
    requires forall k :: 0 <= k < |pairs| ==> rest[k] == Entry(Leading(rest[0], pairs), pairs[k])
    requires var e := rest[0];
             && e.input in position && (e.decider.Some? ==> e.decider.value in position)
             && Sound(e.operation, e.reason, e.value, e.decider.Some?)
             && Parsed(split, NodeSources(nodes, position, position[e.input]), pairs)
             && NodeWork(nodes, position, position[e.input]) <= budget
    ensures Opens(nodes, position, split, rest, budget, pairs) <==>
            Explained(nodes, position, split, rest[|pairs|..], budget - NodeWork(nodes, position, position[rest[0].input]))
  {
    hide Resolved, Positions, NodeWork, Explained, Sound, Parsed, NodeSources;
    var entries := Entries(Leading(rest[0], pairs));
    assert entries == rest[..|pairs|];
  }

  /** The exclusion loop of `validate`. */
  method ValidateExclusions(nodes: seq<Node>, position: map<bytes, nat>, split: Split, exclusions: seq<Exclusion>, budget: nat)
    returns (ok: bool)
    requires Resolved(nodes, position) && Positions(nodes, position)
    ensures ok <==> Explained(nodes, position, split, exclusions, budget)
  {
    hide Resolved, Positions, Explained;
    var index: nat, remaining := 0, budget;
    assert exclusions[0..] == exclusions;
    while index < |exclusions|
      invariant index <= |exclusions|
      invariant Explained(nodes, position, split, exclusions, budget) <==> Explained(nodes, position, split, exclusions[index..], remaining)
    {
      var sound, next, left := CheckGroup(nodes, position, split, exclusions, index, remaining);
      if !sound {
        return false;
      }
      index, remaining := next, left;
    }
    assert exclusions[index..] == [];
    NothingExplained(nodes, position, split, remaining);
    return true;
  }

  lemma NothingExplained(nodes: seq<Node>, position: map<bytes, nat>, split: Split, budget: nat)
    requires Resolved(nodes, position) && Positions(nodes, position)
    ensures Explained(nodes, position, split, [], budget)
  {
    assert MadeOf(nodes, position, split, [], budget, []);
  }

  // ----- what a run lists is explained

  /** The saved nodes bear out the group of a decision if and only if the decision says what its operation must. */
  lemma RecordedBorne(
    heap: Heap, namer: Namer, nodes: seq<Node>, rank: map<nat, nat>, keys: seq<nat>, position: map<bytes, nat>,
    split: Split, d: Decision, g: Group)
    requires Ledger(heap, namer, nodes, rank, keys) && Resolved(nodes, position) && Positions(nodes, position)
    requires Ranked(heap, rank) && Records(heap, nodes, rank, split, d, g)
    ensures g.input in position && position[g.input] < |nodes| && g.pairs != []
    ensures Parsed(split, NodeSources(nodes, position, position[g.input]), g.pairs)
    ensures Borne(nodes, position, split, g) <==> Sound(d.operation, d.reason, d.value, d.decider.Some?)
  {
    hide Ledger, Ranked, Parsed, Sound, NodeSources, CellSources;
    assert nodes[rank[d.input]].id in position && position[g.input] == rank[d.input];
    SourcesAgree(heap, namer, nodes, rank, keys, position, d.input);
  }

  /** A list has one way to be made of groups. */
  lemma {:induction false} OneWay(
    nodes: seq<Node>, position: map<bytes, nat>, split: Split, exclusions: seq<Exclusion>, budget: nat, groups: seq<Group>, other: seq<Group>)
    requires Resolved(nodes, position) && Positions(nodes, position)
    requires MadeOf(nodes, position, split, exclusions, budget, other) && exclusions == Flat(groups)
    requires forall i :: 0 <= i < |groups| ==>
               groups[i].input in position && groups[i].pairs != []
               && Parsed(split, NodeSources(nodes, position, position[groups[i].input]), groups[i].pairs)
    ensures groups == other
    decreases |groups|
  {
    hide Resolved, NodeSources, NodeWork, Parsed, Work, Sound;
    if groups == [] {
      assert other == [] || Borne(nodes, position, split, other[0]);
    } else {
      assert groups[0].pairs != [];
      assert exclusions == Entries(groups[0]) + Flat(groups[1..]);
      assert exclusions[0] == Entries(groups[0])[0];
      FirstGroup(nodes, position, split, exclusions, budget, other);
      SamePairs(split, NodeSources(nodes, position, position[groups[0].input]), groups[0].pairs, other[0].pairs);
      assert exclusions[|groups[0].pairs|..] == Flat(groups[1..]);
      OneWay(nodes, position, split, exclusions[|groups[0].pairs|..],
             budget - NodeWork(nodes, position, position[other[0].input]), groups[1..], other[1..]);
    }
  }

  /**
   The validator accepts the exclusions of a run if and only if each decision says what its operation must and
   reading all their sources stays within the budget.
   */
  lemma ExclusionsValidate(
    heap: Heap, namer: Namer, nodes: seq<Node>, rank: map<nat, nat>, keys: seq<nat>, position: map<bytes, nat>,
    split: Split, decisions: seq<Decision>, groups: seq<Group>, budget: nat)
    requires Ledger(heap, namer, nodes, rank, keys) && Resolved(nodes, position) && Positions(nodes, position)
    requires AllRecorded(heap, nodes, rank, split, decisions, groups)
    ensures forall i :: 0 <= i < |groups| ==> groups[i].input in position
    ensures Explained(nodes, position, split, Flat(groups), budget) <==>
            && (forall i :: 0 <= i < |decisions| ==> Sound(decisions[i].operation, decisions[i].reason, decisions[i].value, decisions[i].decider.Some?))
            && Work(nodes, position, groups) <= budget
  {
    hide Ledger, Ranked, Resolved, Positions, Parsed, Sound, Records, Work, NodeSources, Borne;
    forall i | 0 <= i < |groups|
      ensures groups[i].input in position && groups[i].pairs != []
      ensures position[groups[i].input] < |nodes| && Parsed(split, NodeSources(nodes, position, position[groups[i].input]), groups[i].pairs)
      ensures Borne(nodes, position, split, groups[i]) <==>
              Sound(decisions[i].operation, decisions[i].reason, decisions[i].value, decisions[i].decider.Some?)
    {
      RecordedBorne(heap, namer, nodes, rank, keys, position, split, decisions[i], groups[i]);
    }
    if other: seq<Group> :| MadeOf(nodes, position, split, Flat(groups), budget, other) {
      OneWay(nodes, position, split, Flat(groups), budget, groups, other);
    }
    if (forall i :: 0 <= i < |groups| ==> Borne(nodes, position, split, groups[i])) && Work(nodes, position, groups) <= budget {
      assert MadeOf(nodes, position, split, Flat(groups), budget, groups);
    }
  }
}
