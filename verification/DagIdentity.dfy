/** Stable identities of derivations and the evidence saved with them (`dataset_identity.rs`, `dataset_snapshot.rs`). */
module DagIdentity {
  import opened Bytes
  import opened Dag
  import opened DagPaths

  const LIMIT := 100_000

  /** "dataset_source", "dataset_row", "source_row" */
  const DATASET_SOURCE: bytes := [
    'd' as int, 'a' as int, 't' as int, 'a' as int, 's' as int, 'e' as int, 't' as int, '_' as int,
    's' as int, 'o' as int, 'u' as int, 'r' as int, 'c' as int, 'e' as int]
  const DATASET_ROW: bytes := [
    'd' as int, 'a' as int, 't' as int, 'a' as int, 's' as int, 'e' as int, 't' as int, '_' as int, 'r' as int, 'o' as int, 'w' as int]
  const SOURCE_ROW: bytes := [
    's' as int, 'o' as int, 'u' as int, 'r' as int, 'c' as int, 'e' as int, '_' as int, 'r' as int, 'o' as int, 'w' as int]

  /** "filter", "true" */
  const FILTER: bytes := ['f' as int, 'i' as int, 'l' as int, 't' as int, 'e' as int, 'r' as int]
  const TRUE: bytes := ['t' as int, 'r' as int, 'u' as int, 'e' as int]

  /** A derivation with its identity, the identities of its inputs and the rows they are of. */
  datatype Node = Node(
    id: bytes, operation: bytes, inputIds: seq<bytes>, inputRows: seq<bytes>, outputRow: bytes, path: bytes,
    kind: nat, exactness: nat, outcome: nat, reason: bytes, text: bytes, details: bytes)

  predicate IsRow(details: bytes) { details == DATASET_ROW || details == SOURCE_ROW }

  /** `row_path` */
  function RowPath(f: Facts, row: bytes): bytes { if IsRow(f.details) then f.text else row }

  /** The cells whose positions are known, each with inputs that come first. */
  ghost predicate Ranked(heap: Heap, rank: map<nat, nat>) {
    forall k, j :: k in rank && k in heap && 0 <= j < |heap[k].inputs| ==>
      heap[k].inputs[j] in rank && rank[heap[k].inputs[j]] < rank[k] && heap[k].inputs[j] in heap
  }

  /** Node `rank[k]` identifies the cell at `k`. */
  ghost predicate Names(heap: Heap, namer: Namer, nodes: seq<Node>, rank: map<nat, nat>, k: nat)
    requires k in rank && k in heap && rank[k] < |nodes|
    requires forall j :: 0 <= j < |heap[k].inputs| ==>
               heap[k].inputs[j] in rank && heap[k].inputs[j] in heap && rank[heap[k].inputs[j]] < |nodes|
  {
    var (cell, n) := (heap[k], nodes[rank[k]]);
    var f := cell.facts;
    && n.operation == f.operation && n.kind == f.kind && n.exactness == f.exactness && n.outcome == f.outcome
    && n.reason == f.reason && n.text == f.text && n.details == f.details
    && |n.inputIds| == |cell.inputs| && |n.inputRows| == |cell.inputs|
    && (forall j :: 0 <= j < |cell.inputs| ==>
          && n.inputIds[j] == nodes[rank[cell.inputs[j]]].id
          && n.inputRows[j] == RowPath(heap[cell.inputs[j]].facts, n.outputRow))
    && n.id == namer.id(n.path, n.operation, n.outputRow, n.inputRows)
    && (IsRow(f.details) ==> n.outputRow == f.text) && n.outputRow != []
  }

  /** Every node identifies one cell, and comes after the nodes of the cell's inputs. */
  ghost predicate Ledger(heap: Heap, namer: Namer, nodes: seq<Node>, rank: map<nat, nat>, keys: seq<nat>) {
    && |keys| == |nodes|
    && (forall k :: k in rank ==> k in heap && rank[k] < |nodes| && keys[rank[k]] == k)
    && (forall i :: 0 <= i < |keys| ==> keys[i] in rank && rank[keys[i]] == i)
    && Ranked(heap, rank)
    && (forall k :: k in rank ==> Names(heap, namer, nodes, rank, k))
  }

  /** `known` gives the identity of every cell in the ledger. */
  ghost predicate Knows(known: map<nat, bytes>, rank: map<nat, nat>, nodes: seq<Node>) {
    known.Keys == rank.Keys && forall k :: k in rank ==> rank[k] < |nodes| && known[k] == nodes[rank[k]].id
  }

  /** Rows have names. */
  ghost predicate RowsNamed(heap: Heap) { forall k :: k in heap && IsRow(heap[k].facts.details) ==> heap[k].facts.text != [] }

  // ----- `Builder::visit`

  datatype Frame = Frame(key: nat, outputRow: bytes, path: bytes, next: nat)

  ghost predicate FrameOk(heap: Heap, f: Frame) {
    && f.key in heap && f.next <= |heap[f.key].inputs| && f.outputRow != []
    && (IsRow(heap[f.key].facts.details) ==> f.outputRow == heap[f.key].facts.text)
  }

  /** A frame to work on, or one of a cell that is known already. */
  ghost predicate Framed(heap: Heap, known: map<nat, bytes>, f: Frame) {
    f.key in heap && f.next <= |heap[f.key].inputs| && (f.key in known || FrameOk(heap, f))
  }

  /** The frame above is for the input that the frame below is at. */
  predicate Linked(heap: Heap, below: Frame, above: Frame) {
    && below.key in heap && 0 < below.next <= |heap[below.key].inputs|
    && heap[below.key].inputs[below.next - 1] == above.key
  }

  predicate InputDone(heap: Heap, f: Frame, i: nat, known: map<nat, bytes>) {
    f.key in heap && i < |heap[f.key].inputs| && heap[f.key].inputs[i] in known
  }

  /** Each frame has done the inputs before `next`, but for the one the frame above is for. */
  ghost predicate StackOk(heap: Heap, root: nat, stack: seq<Frame>, known: map<nat, bytes>) {
    && (forall p :: 0 <= p < |stack| ==> Framed(heap, known, stack[p]))
    && (forall q :: 1 <= q < |stack| ==> Linked(heap, stack[q - 1], stack[q]))
    && (forall p, i :: 0 <= p < |stack| && 0 <= i < stack[p].next ==>
          InputDone(heap, stack[p], i, known) || (i == stack[p].next - 1 && p + 1 < |stack|))
    && (if stack == [] then root in known else stack[0].key == root)
  }

  function KnownFrames(stack: seq<Frame>, known: map<nat, bytes>): nat {
    if stack == [] then 0
    else KnownFrames(stack[..|stack| - 1], known) + if stack[|stack| - 1].key in known then 1 else 0
  }

  function Pending(heap: Heap, stack: seq<Frame>): nat {
    if stack == [] || stack[|stack| - 1].key !in heap then 0 else
    var top := stack[|stack| - 1];
    if top.next <= |heap[top.key].inputs| then |heap[top.key].inputs| - top.next else 0
  }

  ghost predicate Cyclic(heap: Heap) { exists k :: Below(EdgesOf(heap), k, k) }

  /** No frame is for a cell that is known, but for one that was known from the start. */
  predicate Fresh(stack: seq<Frame>, known: map<nat, bytes>) {
    |stack| > 1 ==> forall p :: 0 <= p < |stack| ==> stack[p].key !in known
  }

  lemma {:induction false} FramesBelow(heap: Heap, root: nat, stack: seq<Frame>, known: map<nat, bytes>, p: nat, q: nat)
    requires StackOk(heap, root, stack, known) && p < q < |stack|
    ensures Below(EdgesOf(heap), stack[p].key, stack[q].key)
    decreases q
  {
    hide Framed, InputDone, Below;
    var e := EdgesOf(heap);
    assert Linked(heap, stack[q - 1], stack[q]);
    assert Edge(e, stack[q - 1].key, stack[q].key);
    if p == q - 1 {
      EdgeBelow(e, stack[p].key, stack[q].key);
    } else {
      FramesBelow(heap, root, stack, known, p, q - 1);
      BelowStep(e, stack[p].key, stack[q - 1].key, stack[q].key);
    }
  }

  /** Without a cycle no two frames are for one cell. */
  lemma FramesDistinct(heap: Heap, root: nat, stack: seq<Frame>, known: map<nat, bytes>)
    requires StackOk(heap, root, stack, known) && !Cyclic(heap)
    ensures forall p, q :: 0 <= p < q < |stack| ==> stack[p].key != stack[q].key
    ensures forall p :: 0 <= p < |stack| ==> stack[p].key in heap
  {
    hide Below, InputDone, Linked;
    forall p, q | 0 <= p < q < |stack| ensures stack[p].key != stack[q].key {
      FramesBelow(heap, root, stack, known, p, q);
    }
  }

  function KeysOf(stack: seq<Frame>): set<nat> { set f | f in stack :: f.key }

  lemma {:induction false} KeysCounted(stack: seq<Frame>)
    requires forall p, q :: 0 <= p < q < |stack| ==> stack[p].key != stack[q].key
    ensures |KeysOf(stack)| == |stack|
    decreases |stack|
  {
    if stack != [] {
      var (rest, top) := (stack[..|stack| - 1], stack[|stack| - 1]);
      KeysCounted(rest);
      assert stack == rest + [top];
      assert KeysOf(stack) == KeysOf(rest) + {top.key};
    }
  }

  /** A visit that reaches its limit is in a heap with a cycle or with as many cells as the limit. */
  lemma LimitReached(heap: Heap, root: nat, stack: seq<Frame>, known: map<nat, bytes>)
    requires StackOk(heap, root, stack, known) && known.Keys <= heap.Keys && |known| + |stack| > LIMIT
    requires !Cyclic(heap) ==> Fresh(stack, known)
    ensures Cyclic(heap) || |heap| >= 100_000
  {
    hide StackOk, Cyclic;
    if !Cyclic(heap) {
      FramesDistinct(heap, root, stack, known);
      KeysCounted(stack);
      var (cells, keys) := (known.Keys, KeysOf(stack));
      if |stack| > 1 {
        assert cells !! keys;
        Within(cells + keys, heap.Keys);
      } else {
        Within(cells, heap.Keys);
      }
    }
  }

  lemma {:induction false} Within(a: set<nat>, b: set<nat>)
    requires a <= b
    ensures |a| <= |b|
    decreases |a|
  {
    if a != {} {
      var x :| x in a;
      Within(a - {x}, b - {x});
    }
  }

  /** The frames left stay fresh when the top one's cell becomes known. */
  lemma FreshClosed(heap: Heap, root: nat, stack: seq<Frame>, known: map<nat, bytes>, id: bytes)
    requires StackOk(heap, root, stack, known) && stack != [] && (!Cyclic(heap) ==> Fresh(stack, known))
    ensures !Cyclic(heap) ==> Fresh(stack[..|stack| - 1], known[stack[|stack| - 1].key := id])
  {
    hide StackOk, Cyclic;
    if !Cyclic(heap) {
      FramesDistinct(heap, root, stack, known);
    }
  }

  lemma FreshMoved(stack: seq<Frame>, known: map<nat, bytes>)
    requires stack != [] && Fresh(stack, known)
    ensures Fresh(Moved(stack), known) && Fresh(stack[..|stack| - 1], known)
    ensures stack[|stack| - 1].key !in known ==> forall below: Frame :: below.key !in known ==> Fresh(Moved(stack) + [below], known)
  {}

  lemma OneFresh(f: Frame, known: map<nat, bytes>)
    ensures Fresh([f], known)
  {}

  lemma KnownInHeap(heap: Heap, namer: Namer, nodes: seq<Node>, rank: map<nat, nat>, keys: seq<nat>, known: map<nat, bytes>)
    requires Ledger(heap, namer, nodes, rank, keys) && Knows(known, rank, nodes)
    ensures known.Keys <= heap.Keys
  {
    hide Names;
  }

  // ----- paths

  /** Every node and every frame has the path of a place of its cell, unless paths collide. */
  ghost predicate Traced(
    heap: Heap, namer: Namer, nodes: seq<Node>, keys: seq<nat>, stack: seq<Frame>, cells: map<Place, nat>)
  {
    || Collide(namer, cells.Keys)
    || (&& Grown(heap, namer, cells)
        && |keys| == |nodes| && (forall i :: 0 <= i < |nodes| ==> PathIs(namer, cells, nodes[i].path, keys[i]))
        && (forall q :: 0 <= q < |stack| ==> PathIs(namer, cells, stack[q].path, stack[q].key)))
  }

  lemma TracedMore(
    heap: Heap, namer: Namer, nodes: seq<Node>, keys: seq<nat>, stack: seq<Frame>, cells: map<Place, nat>, more: map<Place, nat>)
    requires Traced(heap, namer, nodes, keys, stack, cells) && Extends(cells, more)
    requires !Collide(namer, cells.Keys) && !Collide(namer, more.Keys) ==> Grown(heap, namer, more)
    ensures Traced(heap, namer, nodes, keys, stack, more)
  {
    hide Grown, PathIs, Collide, Extends;
    if Collide(namer, cells.Keys) {
      CollisionStays(namer, cells, more);
    } else if !Collide(namer, more.Keys) {
      forall i | 0 <= i < |nodes| ensures PathIs(namer, more, nodes[i].path, keys[i]) {
        PathStays(namer, cells, more, nodes[i].path, keys[i]);
      }
      forall q | 0 <= q < |stack| ensures PathIs(namer, more, stack[q].path, stack[q].key) {
        PathStays(namer, cells, more, stack[q].path, stack[q].key);
      }
    }
  }

  lemma TracedStart(
    heap: Heap, namer: Namer, nodes: seq<Node>, keys: seq<nat>, cells: map<Place, nat>, origin: Root, f: Frame)
    requires Traced(heap, namer, nodes, keys, [], cells) && RootPlace(origin) !in cells && f.path == namer.root(origin)
    ensures Traced(heap, namer, nodes, keys, [f], cells[RootPlace(origin) := f.key])
  {
    hide Grown, PathIs, Collide, Extends;
    var more := cells[RootPlace(origin) := f.key];
    GrowRoot(heap, namer, cells, origin, f.key);
    assert !Collide(namer, cells.Keys) && !Collide(namer, more.Keys) ==> Grown(heap, namer, more);
    TracedMore(heap, namer, nodes, keys, [], cells, more);
  }

  lemma TracedMoved(heap: Heap, namer: Namer, nodes: seq<Node>, keys: seq<nat>, stack: seq<Frame>, cells: map<Place, nat>)
    requires Traced(heap, namer, nodes, keys, stack, cells) && stack != []
    ensures Traced(heap, namer, nodes, keys, Moved(stack), cells) && Traced(heap, namer, nodes, keys, stack[..|stack| - 1], cells)
  {
    hide Grown, PathIs, Collide;
    var after := Moved(stack);
    assert forall q :: 0 <= q < |stack| ==> after[q].path == stack[q].path && after[q].key == stack[q].key;
  }

  lemma TracedDown(
    heap: Heap, namer: Namer, nodes: seq<Node>, keys: seq<nat>, stack: seq<Frame>, cells: map<Place, nat>, below: Frame)
    requires Traced(heap, namer, nodes, keys, stack, cells) && stack != []
    requires var top := stack[|stack| - 1];
             top.key in heap && top.next < |heap[top.key].inputs| && heap[top.key].inputs[top.next] == below.key
             && below.path == namer.child(top.path, top.next)
    ensures var top := stack[|stack| - 1];
            Traced(heap, namer, nodes, keys, Moved(stack) + [below], WithChild(cells, top.path, top.next, below.key))
  {
    hide Grown, PathIs, Collide, Extends, WithChild, Moved;
    var top := stack[|stack| - 1];
    var more := WithChild(cells, top.path, top.next, below.key);
    WithChildExtends(cells, top.path, top.next, below.key);
    if !Collide(namer, cells.Keys) {
      GrowChild(heap, namer, cells, top.path, top.key, top.next);
    }
    TracedMoved(heap, namer, nodes, keys, stack, cells);
    TracedMore(heap, namer, nodes, keys, Moved(stack), cells, more);
    if Collide(namer, cells.Keys) {
      CollisionStays(namer, cells, more);
    }
  }

  lemma TracedDone(
    heap: Heap, namer: Namer, nodes: seq<Node>, keys: seq<nat>, stack: seq<Frame>, cells: map<Place, nat>, node: Node)
    requires Traced(heap, namer, nodes, keys, stack, cells) && stack != [] && node.path == stack[|stack| - 1].path
    ensures Traced(heap, namer, nodes + [node], keys + [stack[|stack| - 1].key], stack[..|stack| - 1], cells)
  {
    hide Grown, PathIs, Collide;
  }

  lemma TracedKept(heap: Heap, namer: Namer, nodes: seq<Node>, keys: seq<nat>, stack: seq<Frame>, cells: map<Place, nat>)
    requires Traced(heap, namer, nodes, keys, stack, cells)
    ensures Traced(heap, namer, nodes, keys, [], cells)
  {
    hide Grown, PathIs, Collide;
  }

  /** `visit`: the nodes of the root and of all below it that are not there yet. It stops only at its limit. */
  method Visit(
    heap: Heap, namer: Namer, root: nat, outputRow: bytes, origin: Root, start: seq<Node>, index: map<nat, bytes>,
    ghost startRank: map<nat, nat>, ghost startKeys: seq<nat>, ghost startCells: map<Place, nat>)
    returns (
      r: Result<bytes>, nodes: seq<Node>, known: map<nat, bytes>,
      ghost rank: map<nat, nat>, ghost keys: seq<nat>, ghost cells: map<Place, nat>)
    requires Closed(heap) && RowsNamed(heap) && Framed(heap, index, Frame(root, outputRow, namer.root(origin), 0))
    requires Ledger(heap, namer, start, startRank, startKeys) && Knows(index, startRank, start)
    requires Traced(heap, namer, start, startKeys, [], startCells) && RootPlace(origin) !in startCells
    ensures Ledger(heap, namer, nodes, rank, keys) && Knows(known, rank, nodes) && start <= nodes && startKeys <= keys
    ensures Traced(heap, namer, nodes, keys, [], cells) && Extends(startCells, cells)
    ensures forall o :: RootPlace(o) in cells ==> o == origin || RootPlace(o) in startCells
    ensures r.Ok? ==> root in rank && r.value == nodes[rank[root]].id
    ensures r.Err? ==> r.error == Limit && (Cyclic(heap) || |heap| >= 100_000)
  {
    hide Ledger, Knows, StackOk, Closed, RowsNamed, FrameOk, Framed, KnownFrames, Pending, Moved, Cyclic, Fresh, Traced, WithChild;
    nodes, known, rank, keys := start, index, startRank, startKeys;
    var stack := [Frame(root, outputRow, namer.root(origin), 0)];
    cells := startCells[RootPlace(origin) := root];
    Started(heap, root, stack[0], known);
    TracedStart(heap, namer, nodes, keys, startCells, origin, stack[0]);
    assert Fresh(stack, known) by { OneFresh(stack[0], known); }
    while stack != []
      invariant Ledger(heap, namer, nodes, rank, keys) && Knows(known, rank, nodes) && start <= nodes && startKeys <= keys
      invariant StackOk(heap, root, stack, known) && |stack| <= LIMIT + 1 && (!Cyclic(heap) ==> Fresh(stack, known))
      invariant Traced(heap, namer, nodes, keys, stack, cells) && Extends(startCells, cells)
      invariant forall o :: RootPlace(o) in cells ==> o == origin || RootPlace(o) in startCells
      decreases heap.Keys - known.Keys, KnownFrames(stack, known), LIMIT + 1 - |stack|, Pending(heap, stack)
    {
      if |known| + |stack| > LIMIT {
        KnownInHeap(heap, namer, nodes, rank, keys, known);
        LimitReached(heap, root, stack, known);
        TracedKept(heap, namer, nodes, keys, stack, cells);
        return Err(Limit), nodes, known, rank, keys, cells;
      }
      var n := |stack| - 1;
      var top := stack[n];
      TopOk(heap, root, stack, known);
      TracedMoved(heap, namer, nodes, keys, stack, cells);
      if !Cyclic(heap) { FreshMoved(stack, known); }
      if top.key in known {
        Popped(heap, root, stack, known);
        stack := stack[..n];
        continue;
      }
      if top.next < |heap[top.key].inputs| {
        var input := heap[top.key].inputs[top.next];
        InputInHeap(heap, top.key, top.next);
        if input in known {
          Advanced(heap, root, stack, known);
          stack := Moved(stack);
        } else {
          var below := Frame(input, RowPath(heap[input].facts, top.outputRow), namer.child(top.path, top.next), 0);
          Entered(heap, root, stack, known, below);
          TracedDown(heap, namer, nodes, keys, stack, cells, below);
          WithChildExtends(cells, top.path, top.next, input);
          cells := WithChild(cells, top.path, top.next, input);
          stack := Moved(stack) + [below];
        }
        continue;
      }
      InputsKnown(heap, root, stack, known, top.key);
      var ids := LookUpAll(known, heap[top.key].inputs);
      var rows := RowsOf(heap, heap[top.key].inputs, top.outputRow);
      var node := MakeNode(namer, heap[top.key].facts, top, ids, rows);
      Finished(heap, namer, nodes, rank, keys, known, top, node);
      FrameClosed(heap, root, stack, known, node.id);
      FreshClosed(heap, root, stack, known, node.id);
      TracedDone(heap, namer, nodes, keys, stack, cells, node);
      assert heap.Keys - known[top.key := node.id].Keys < heap.Keys - known.Keys by {
        assert top.key in heap.Keys - known.Keys;
      }
      rank := rank[top.key := |nodes|];
      keys := keys + [top.key];
      nodes := nodes + [node];
      known := known[top.key := node.id];
      stack := stack[..n];
    }
    RootKnown(heap, root, known, rank, nodes, namer, keys);
    return Ok(known[root]), nodes, known, rank, keys, cells;
  }

  function MakeNode(namer: Namer, f: Facts, top: Frame, ids: seq<bytes>, rows: seq<bytes>): Node {
    Node(namer.id(top.path, f.operation, top.outputRow, rows), f.operation, ids, rows, top.outputRow, top.path,
         f.kind, f.exactness, f.outcome, f.reason, f.text, f.details)
  }

  method RowsOf(heap: Heap, inputs: seq<nat>, row: bytes) returns (rows: seq<bytes>)
    requires forall i :: 0 <= i < |inputs| ==> inputs[i] in heap
    ensures |rows| == |inputs| && forall i :: 0 <= i < |inputs| ==> rows[i] == RowPath(heap[inputs[i]].facts, row)
  {
    rows := [];
    for i := 0 to |inputs|
      invariant |rows| == i && forall j :: 0 <= j < i ==> rows[j] == RowPath(heap[inputs[j]].facts, row)
    {
      rows := rows + [RowPath(heap[inputs[i]].facts, row)];
    }
  }

  lemma Started(heap: Heap, root: nat, f: Frame, known: map<nat, bytes>)
    requires Framed(heap, known, f) && f.key == root && f.next == 0
    ensures StackOk(heap, root, [f], known)
  {}

  lemma TopOk(heap: Heap, root: nat, stack: seq<Frame>, known: map<nat, bytes>)
    requires StackOk(heap, root, stack, known) && stack != []
    ensures var top := stack[|stack| - 1]; top.key in heap && (top.key in known || FrameOk(heap, top))
  {}

  lemma InputInHeap(heap: Heap, key: nat, i: nat)
    requires Closed(heap) && key in heap && i < |heap[key].inputs|
    ensures heap[key].inputs[i] in heap
  {}

  lemma Popped(heap: Heap, root: nat, stack: seq<Frame>, known: map<nat, bytes>)
    requires StackOk(heap, root, stack, known) && stack != [] && stack[|stack| - 1].key in known
    ensures StackOk(heap, root, stack[..|stack| - 1], known)
    ensures KnownFrames(stack[..|stack| - 1], known) < KnownFrames(stack, known)
  {
    hide Framed, Linked, InputDone;
    var n := |stack| - 1;
    if n > 0 {
      LinkDone(heap, stack[n - 1], stack[n], known);
    }
  }

  lemma LinkDone(heap: Heap, below: Frame, above: Frame, known: map<nat, bytes>)
    requires Linked(heap, below, above) && above.key in known
    ensures InputDone(heap, below, below.next - 1, known)
  {}

  /** A frame moved on by one input. */
  function Moved(stack: seq<Frame>): (after: seq<Frame>)
    requires stack != []
    ensures |after| == |stack|
  {
    var n := |stack| - 1;
    stack[..n] + [stack[n].(next := stack[n].next + 1)]
  }

  lemma MovedFrames(heap: Heap, root: nat, stack: seq<Frame>, known: map<nat, bytes>)
    requires StackOk(heap, root, stack, known) && stack != [] && stack[|stack| - 1].key in heap
    requires stack[|stack| - 1].next < |heap[stack[|stack| - 1].key].inputs|
    ensures var (after, moved) := (Moved(stack), Moved(stack)[|stack| - 1]);
            && after[0].key == root
            && (forall p :: 0 <= p < |after| ==> Framed(heap, known, after[p]))
            && (forall q :: 1 <= q < |after| ==> Linked(heap, after[q - 1], after[q]))
            && (forall p, i :: 0 <= p < |after| - 1 && 0 <= i < after[p].next ==>
                  InputDone(heap, after[p], i, known) || i == after[p].next - 1)
            && (forall i :: 0 <= i < moved.next - 1 ==> InputDone(heap, moved, i, known))
            && KnownFrames(after, known) == KnownFrames(stack, known)
  {
    hide InputDone;
    var n := |stack| - 1;
    var after := Moved(stack);
    assert after[..n] == stack[..n];
    assert Framed(heap, known, stack[n]);
    forall i | 0 <= i < after[n].next - 1 ensures InputDone(heap, after[n], i, known) {
      assert InputDone(heap, stack[n], i, known);
      SameInput(heap, stack[n], after[n], i, known);
    }
  }

  lemma SameInput(heap: Heap, f: Frame, g: Frame, i: nat, known: map<nat, bytes>)
    requires f.key == g.key && InputDone(heap, f, i, known)
    ensures InputDone(heap, g, i, known)
  {}

  /** Replacing the top frame by itself past one more input that is known. */
  lemma Advanced(heap: Heap, root: nat, stack: seq<Frame>, known: map<nat, bytes>)
    requires StackOk(heap, root, stack, known) && stack != [] && stack[|stack| - 1].key in heap
    requires var top := stack[|stack| - 1]; top.next < |heap[top.key].inputs| && heap[top.key].inputs[top.next] in known
    ensures StackOk(heap, root, Moved(stack), known) && KnownFrames(Moved(stack), known) == KnownFrames(stack, known)
    ensures Pending(heap, Moved(stack)) < Pending(heap, stack)
  {
    hide Framed, Linked, Moved;
    MovedFrames(heap, root, stack, known);
    MovedTop(stack);
    var top := Moved(stack)[|stack| - 1];
    assert InputDone(heap, top, top.next - 1, known);
  }

  lemma BelowOk(heap: Heap, top: Frame, below: Frame)
    requires FrameOk(heap, top) && RowsNamed(heap) && below.key in heap && below.next == 0
    requires below.outputRow == RowPath(heap[below.key].facts, top.outputRow)
    ensures FrameOk(heap, below)
  {}

  /** Going down to an input that is not known yet. */
  lemma Entered(heap: Heap, root: nat, stack: seq<Frame>, known: map<nat, bytes>, below: Frame)
    requires StackOk(heap, root, stack, known) && stack != [] && stack[|stack| - 1].key in heap && RowsNamed(heap)
    requires var top := stack[|stack| - 1]; top.next < |heap[top.key].inputs| && heap[top.key].inputs[top.next] == below.key
    requires below.key in heap && below.key !in known && below.next == 0 && stack[|stack| - 1].key !in known
    requires below.outputRow == RowPath(heap[below.key].facts, stack[|stack| - 1].outputRow)
    ensures StackOk(heap, root, Moved(stack) + [below], known)
    ensures KnownFrames(Moved(stack) + [below], known) == KnownFrames(stack, known)
  {
    hide FrameOk, InputDone, Moved;
    MovedFrames(heap, root, stack, known);
    assert Framed(heap, known, stack[|stack| - 1]);
    BelowOk(heap, stack[|stack| - 1], below);
    var moved := Moved(stack);
    var after := moved + [below];
    MovedTop(stack);
    assert after[..|moved|] == moved;
    assert Linked(heap, moved[|moved| - 1], below);
  }

  lemma MovedTop(stack: seq<Frame>)
    requires stack != []
    ensures var (top, moved) := (stack[|stack| - 1], Moved(stack)[|stack| - 1]);
            moved.key == top.key && moved.next == top.next + 1
  {}

  lemma InputsKnown(heap: Heap, root: nat, stack: seq<Frame>, known: map<nat, bytes>, key: nat)
    requires Closed(heap) && StackOk(heap, root, stack, known) && stack != [] && stack[|stack| - 1].key == key && key in heap
    requires stack[|stack| - 1].next >= |heap[key].inputs|
    ensures forall i :: 0 <= i < |heap[key].inputs| ==> heap[key].inputs[i] in known && heap[key].inputs[i] in heap
  {
    forall i | 0 <= i < |heap[key].inputs| ensures heap[key].inputs[i] in known {
      assert InputDone(heap, stack[|stack| - 1], i, known);
    }
  }

  /** A name in the ledger stays as the ledger grows. */
  lemma NameKept(heap: Heap, namer: Namer, nodes: seq<Node>, rank: map<nat, nat>, node: Node, key: nat, k: nat)
    requires k in rank && k in heap && rank[k] < |nodes| && key !in rank
    requires forall j :: 0 <= j < |heap[k].inputs| ==>
               heap[k].inputs[j] in rank && heap[k].inputs[j] in heap && rank[heap[k].inputs[j]] < |nodes|
    requires Names(heap, namer, nodes, rank, k)
    ensures Names(heap, namer, nodes + [node], rank[key := |nodes|], k)
  {
    hide IsRow;
  }

  lemma Named(
    heap: Heap, namer: Namer, nodes: seq<Node>, rank: map<nat, nat>, known: map<nat, bytes>, top: Frame, node: Node)
    requires Knows(known, rank, nodes) && FrameOk(heap, top) && top.key !in known
    requires forall i :: 0 <= i < |heap[top.key].inputs| ==> heap[top.key].inputs[i] in known && heap[top.key].inputs[i] in heap
    requires |node.inputIds| == |node.inputRows| == |heap[top.key].inputs|
    requires forall i :: 0 <= i < |node.inputIds| ==> node.inputIds[i] == known[heap[top.key].inputs[i]]
    requires forall i :: 0 <= i < |node.inputRows| ==> node.inputRows[i] == RowPath(heap[heap[top.key].inputs[i]].facts, top.outputRow)
    requires node == MakeNode(namer, heap[top.key].facts, top, node.inputIds, node.inputRows)
    ensures Names(heap, namer, nodes + [node], rank[top.key := |nodes|], top.key)
  {
    hide IsRow, RowPath;
  }

  /** The finished cell joins the ledger. */
  lemma Finished(
    heap: Heap, namer: Namer, nodes: seq<Node>, rank: map<nat, nat>, keys: seq<nat>, known: map<nat, bytes>, top: Frame, node: Node)
    requires Ledger(heap, namer, nodes, rank, keys) && Knows(known, rank, nodes) && FrameOk(heap, top) && top.key !in known
    requires forall i :: 0 <= i < |heap[top.key].inputs| ==> heap[top.key].inputs[i] in known && heap[top.key].inputs[i] in heap
    requires |node.inputIds| == |node.inputRows| == |heap[top.key].inputs|
    requires forall i :: 0 <= i < |node.inputIds| ==> node.inputIds[i] == known[heap[top.key].inputs[i]]
    requires forall i :: 0 <= i < |node.inputRows| ==> node.inputRows[i] == RowPath(heap[heap[top.key].inputs[i]].facts, top.outputRow)
    requires node == MakeNode(namer, heap[top.key].facts, top, node.inputIds, node.inputRows)
    ensures Ledger(heap, namer, nodes + [node], rank[top.key := |nodes|], keys + [top.key])
    ensures Knows(known[top.key := node.id], rank[top.key := |nodes|], nodes + [node])
  {
    hide Names, RowPath, MakeNode, FrameOk;
    var longer, later := nodes + [node], rank[top.key := |nodes|];
    assert top.key in heap by { KeyInHeap(heap, top); }
    RankedMore(heap, rank, top.key, |nodes|);
    forall k | k in later ensures k in heap && later[k] < |longer| && Names(heap, namer, longer, later, k) {
      if k != top.key {
        NameKept(heap, namer, nodes, rank, node, top.key, k);
      } else {
        Named(heap, namer, nodes, rank, known, top, node);
      }
    }
  }

  lemma KeyInHeap(heap: Heap, f: Frame)
    requires FrameOk(heap, f)
    ensures f.key in heap
  {}

  lemma RankedMore(heap: Heap, rank: map<nat, nat>, key: nat, position: nat)
    requires Ranked(heap, rank) && key in heap && key !in rank && forall k :: k in rank ==> rank[k] < position && k in heap
    requires forall i :: 0 <= i < |heap[key].inputs| ==> heap[key].inputs[i] in rank
    ensures Ranked(heap, rank[key := position])
  {}

  lemma FrameClosed(heap: Heap, root: nat, stack: seq<Frame>, known: map<nat, bytes>, id: bytes)
    requires StackOk(heap, root, stack, known) && stack != []
    ensures StackOk(heap, root, stack[..|stack| - 1], known[stack[|stack| - 1].key := id])
  {
    hide FrameOk, Linked;
    var n := |stack| - 1;
    var later := known[stack[n].key := id];
    if n > 0 {
      LinkDone(heap, stack[n - 1], stack[n], later);
    }
    forall p, i | 0 <= p < n && 0 <= i < stack[p].next
      ensures InputDone(heap, stack[p], i, later) || (i == stack[p].next - 1 && p + 1 < n)
    {
      assert InputDone(heap, stack[p], i, known) || (i == stack[p].next - 1 && p + 1 < |stack|);
    }
  }

  lemma RootKnown(heap: Heap, root: nat, known: map<nat, bytes>, rank: map<nat, nat>, nodes: seq<Node>, namer: Namer, keys: seq<nat>)
    requires StackOk(heap, root, [], known) && Knows(known, rank, nodes)
    ensures root in known && root in rank && rank[root] < |nodes| && known[root] == nodes[rank[root]].id
  {}

  // ----- the validator

  predicate EarlierIn(nodes: seq<Node>, to: nat, id: bytes) { exists p :: 0 <= p < to && p < |nodes| && nodes[p].id == id }

  /** The row an input is of, as the validator works it out from the saved nodes. */
  predicate RowExpected(nodes: seq<Node>, i: nat, j: nat)
    requires i < |nodes| && j < |nodes[i].inputIds| && |nodes[i].inputIds| == |nodes[i].inputRows|
  {
    forall p :: 0 <= p < i && nodes[p].id == nodes[i].inputIds[j] ==>
      nodes[i].inputRows[j] == if IsRow(nodes[p].details) then nodes[p].text else nodes[i].outputRow
  }

  /** What the validator asks of one node's own fields. `parses` says whether a source label is well formed. */
  predicate FieldsOk(namer: Namer, parses: bytes -> bool, n: Node) {
    && n.id == namer.id(n.path, n.operation, n.outputRow, n.inputRows)
    && |n.inputIds| == |n.inputRows| && n.outputRow != [] && n.operation != []
    && n.kind < 8 && n.exactness < 3 && n.outcome < 4
    && (n.details == DATASET_ROW ==>
          && n.kind == 2 && n.exactness == 0 && n.outcome == 0 && n.text == n.outputRow
          && (n.operation == FILTER ==> n.reason == TRUE))
    && (n.details == SOURCE_ROW ==> n.operation == DATASET_SOURCE && n.kind == 0 && n.text == n.outputRow && parses(n.text))
  }

  predicate Accepts(namer: Namer, parses: bytes -> bool, nodes: seq<Node>, i: nat)
    requires i < |nodes|
  {
    && FieldsOk(namer, parses, nodes[i])
    && (forall j :: 0 <= j < |nodes[i].inputIds| ==> EarlierIn(nodes, i, nodes[i].inputIds[j]))
    && !EarlierIn(nodes, i, nodes[i].id)
    && (forall j :: 0 <= j < |nodes[i].inputIds| ==> RowExpected(nodes, i, j))
  }

  /** Every node has its position, and its inputs come before it. */
  ghost predicate Resolved(nodes: seq<Node>, position: map<bytes, nat>) {
    && (forall i :: 0 <= i < |nodes| ==> nodes[i].id in position && position[nodes[i].id] == i)
    && (forall i, j :: 0 <= i < |nodes| && 0 <= j < |nodes[i].inputIds| ==>
          nodes[i].inputIds[j] in position && position[nodes[i].inputIds[j]] < i)
  }

  /** Only nodes have positions. */
  ghost predicate Positions(nodes: seq<Node>, position: map<bytes, nat>) {
    forall id :: id in position ==> position[id] < |nodes| && nodes[position[id]].id == id
  }

  /** The node loop of `validate`, and the positions it gives. */
  method ValidateNodes(namer: Namer, parses: bytes -> bool, nodes: seq<Node>) returns (ok: bool, positions: map<bytes, nat>)
    ensures ok <==> forall i :: 0 <= i < |nodes| ==> Accepts(namer, parses, nodes, i)
    ensures ok ==> Resolved(nodes, positions) && Positions(nodes, positions)
  {
    hide FieldsOk, IsRow, Resolved, Positions;
    positions := map[];
    for i := 0 to |nodes|
      invariant forall k :: 0 <= k < i ==> Accepts(namer, parses, nodes, k)
      invariant forall id :: id in positions <==> EarlierIn(nodes, i, id)
      invariant forall id :: id in positions ==> positions[id] < i && nodes[positions[id]].id == id
      invariant forall p :: 0 <= p < i ==> nodes[p].id in positions && positions[nodes[p].id] == p
    {
      var node := nodes[i];
      if !FieldsOk(namer, parses, node) {
        assert !Accepts(namer, parses, nodes, i);
        return false, positions;
      }
      for j := 0 to |node.inputIds|
        invariant forall k :: 0 <= k < j ==> EarlierIn(nodes, i, node.inputIds[k])
      {
        if node.inputIds[j] !in positions {
          assert !EarlierIn(nodes, i, nodes[i].inputIds[j]);
          assert !Accepts(namer, parses, nodes, i);
          return false, positions;
        }
      }
      if node.id in positions {
        assert !Accepts(namer, parses, nodes, i);
        return false, positions;
      }
      FieldLengths(namer, parses, node);
      for j := 0 to |node.inputIds|
        invariant forall k :: 0 <= k < j ==> RowExpected(nodes, i, k)
      {
        var input := nodes[positions[node.inputIds[j]]];
        if node.inputRows[j] != (if IsRow(input.details) then input.text else node.outputRow) {
          assert !RowExpected(nodes, i, j);
          assert !Accepts(namer, parses, nodes, i);
          return false, positions;
        }
      }
      var here: nat := i;
      positions := positions[node.id := here];
    }
    AllResolved(namer, parses, nodes, positions);
    return true, positions;
  }

  lemma AllResolved(namer: Namer, parses: bytes -> bool, nodes: seq<Node>, positions: map<bytes, nat>)
    requires forall i :: 0 <= i < |nodes| ==> Accepts(namer, parses, nodes, i)
    requires forall id :: id in positions ==> positions[id] < |nodes| && nodes[positions[id]].id == id
    requires forall p :: 0 <= p < |nodes| ==> nodes[p].id in positions && positions[nodes[p].id] == p
    ensures Resolved(nodes, positions) && Positions(nodes, positions)
  {
    hide FieldsOk, RowExpected;
    forall k, j | 0 <= k < |nodes| && 0 <= j < |nodes[k].inputIds|
      ensures nodes[k].inputIds[j] in positions && positions[nodes[k].inputIds[j]] < k
    {
      assert Accepts(namer, parses, nodes, k) && EarlierIn(nodes, k, nodes[k].inputIds[j]);
    }
  }

  lemma FieldLengths(namer: Namer, parses: bytes -> bool, n: Node)
    requires FieldsOk(namer, parses, n)
    ensures |n.inputIds| == |n.inputRows|
  {}

  /** What evaluation guarantees of the cells it makes. */
  ghost predicate CellsOk(heap: Heap, parses: bytes -> bool) {
    forall k :: k in heap ==>
      var f := heap[k].facts;
      && f.operation != [] && f.kind < 8 && f.exactness < 3 && f.outcome < 4
      && (f.details == DATASET_ROW ==>
            f.kind == 2 && f.exactness == 0 && f.outcome == 0 && (f.operation == FILTER ==> f.reason == TRUE))
      && (f.details == SOURCE_ROW ==> f.operation == DATASET_SOURCE && f.kind == 0 && parses(f.text))
  }

  predicate DistinctIds(nodes: seq<Node>) { forall i, j :: 0 <= i < j < |nodes| ==> nodes[i].id != nodes[j].id }

  /** Two nodes have one identity though it is the hash of different paths. */
  predicate IdsCollide(nodes: seq<Node>) {
    exists i, j :: 0 <= i < j < |nodes| && nodes[i].path != nodes[j].path && nodes[i].id == nodes[j].id
  }

  /** Nodes of different cells have different paths, unless the hashes of two places collide. */
  lemma PathsDistinct(
    heap: Heap, namer: Namer, nodes: seq<Node>, rank: map<nat, nat>, keys: seq<nat>, cells: map<Place, nat>)
    requires Ledger(heap, namer, nodes, rank, keys) && Traced(heap, namer, nodes, keys, [], cells)
    ensures Collide(namer, cells.Keys) || forall i, j :: 0 <= i < j < |nodes| ==> nodes[i].path != nodes[j].path
  {
    hide Collide, PathIs, Grown, Names, Ranked;
    if !Collide(namer, cells.Keys) {
      forall i, j | 0 <= i < j < |nodes| ensures nodes[i].path != nodes[j].path {
        assert rank[keys[i]] == i && rank[keys[j]] == j;
        if nodes[i].path == nodes[j].path {
          OnePath(namer, cells, nodes[i].path, keys[i], keys[j]);
        }
      }
    }
  }

  /**
   Evidence validates itself: the validator accepts the nodes of a run if and only if their identities are distinct, and
   they are unless a hash collides, of two places on the way or of two nodes.
   */
  lemma EvidenceValidates(
    heap: Heap, namer: Namer, parses: bytes -> bool, nodes: seq<Node>, rank: map<nat, nat>, keys: seq<nat>, cells: map<Place, nat>)
    requires Ledger(heap, namer, nodes, rank, keys) && CellsOk(heap, parses) && Traced(heap, namer, nodes, keys, [], cells)
    ensures (forall i :: 0 <= i < |nodes| ==> Accepts(namer, parses, nodes, i)) <==> DistinctIds(nodes)
    ensures DistinctIds(nodes) || IdsCollide(nodes) || Collide(namer, cells.Keys)
    ensures Injective(namer) ==> forall i :: 0 <= i < |nodes| ==> Accepts(namer, parses, nodes, i)
  {
    hide Ledger, CellsOk, FieldsOk, Traced, Collide, Injective;
    PathsDistinct(heap, namer, nodes, rank, keys, cells);
    if Injective(namer) {
      NoneCollide(heap, namer, nodes, rank, keys, cells.Keys);
    }
    if DistinctIds(nodes) {
      forall i | 0 <= i < |nodes| ensures Accepts(namer, parses, nodes, i) {
        NodeAccepted(heap, namer, parses, nodes, rank, keys, i);
      }
    } else {
      var i, j :| 0 <= i < j < |nodes| && nodes[i].id == nodes[j].id;
      assert EarlierIn(nodes, j, nodes[j].id);
      assert !Accepts(namer, parses, nodes, j);
    }
  }

  lemma NoneCollide(heap: Heap, namer: Namer, nodes: seq<Node>, rank: map<nat, nat>, keys: seq<nat>, places: set<Place>)
    requires Ledger(heap, namer, nodes, rank, keys) && Injective(namer)
    ensures !Collide(namer, places) && !IdsCollide(nodes)
  {
    forall i | 0 <= i < |nodes| ensures nodes[i].id == namer.id(nodes[i].path, nodes[i].operation, nodes[i].outputRow, nodes[i].inputRows) {
      assert Names(heap, namer, nodes, rank, keys[i]);
    }
  }

  lemma NodeAccepted(
    heap: Heap, namer: Namer, parses: bytes -> bool, nodes: seq<Node>, rank: map<nat, nat>, keys: seq<nat>, i: nat)
    requires Ledger(heap, namer, nodes, rank, keys) && CellsOk(heap, parses) && DistinctIds(nodes) && i < |nodes|
    ensures Accepts(namer, parses, nodes, i)
  {
    var k := keys[i];
    assert rank[k] == i && Names(heap, namer, nodes, rank, k);
    forall j | 0 <= j < |nodes[i].inputIds| ensures EarlierIn(nodes, i, nodes[i].inputIds[j]) && RowExpected(nodes, i, j) {
      var input := heap[k].inputs[j];
      assert rank[input] < i && nodes[rank[input]].id == nodes[i].inputIds[j];
      assert Names(heap, namer, nodes, rank, input);
      assert forall p :: 0 <= p < i && nodes[p].id == nodes[i].inputIds[j] ==> p == rank[input];
    }
  }

  // ----- the sources a derivation comes from

  predicate IsSource(operation: bytes, details: bytes) { operation == DATASET_SOURCE && details == SOURCE_ROW }

  /** The labels of the source rows below a cell, in order, once for each way to reach them. */
  ghost function CellSources(heap: Heap, rank: map<nat, nat>, k: nat): seq<bytes>
    requires Ranked(heap, rank) && k in rank && k in heap
    decreases rank[k], 1, 0
  {
    if IsSource(heap[k].facts.operation, heap[k].facts.details) then [heap[k].facts.text]
    else InputSources(heap, rank, heap[k].inputs, rank[k])
  }

  ghost function InputSources(heap: Heap, rank: map<nat, nat>, inputs: seq<nat>, bound: nat): seq<bytes>
    requires Ranked(heap, rank) && forall j :: 0 <= j < |inputs| ==> inputs[j] in rank && inputs[j] in heap && rank[inputs[j]] < bound
    decreases bound, 0, |inputs|
  {
    if inputs == [] then [] else CellSources(heap, rank, inputs[0]) + InputSources(heap, rank, inputs[1..], bound)
  }

  ghost function NodeSources(nodes: seq<Node>, position: map<bytes, nat>, i: nat): seq<bytes>
    requires Resolved(nodes, position) && i < |nodes|
    decreases i, 1, 0
  {
    if IsSource(nodes[i].operation, nodes[i].details) then [nodes[i].text]
    else IdSources(nodes, position, nodes[i].inputIds, i)
  }

  ghost function IdSources(nodes: seq<Node>, position: map<bytes, nat>, ids: seq<bytes>, bound: nat): seq<bytes>
    requires Resolved(nodes, position) && bound <= |nodes|
    requires forall j :: 0 <= j < |ids| ==> ids[j] in position && position[ids[j]] < bound
    decreases bound, 0, |ids|
  {
    if ids == [] then [] else NodeSources(nodes, position, position[ids[0]]) + IdSources(nodes, position, ids[1..], bound)
  }

  /** The sources read from the saved nodes are the sources of the derivation itself, in the same order. */
  lemma {:induction false} SourcesAgree(
    heap: Heap, namer: Namer, nodes: seq<Node>, rank: map<nat, nat>, keys: seq<nat>, position: map<bytes, nat>, k: nat)
    requires Ledger(heap, namer, nodes, rank, keys) && Resolved(nodes, position) && k in rank
    ensures k in heap && rank[k] < |nodes| && NodeSources(nodes, position, rank[k]) == CellSources(heap, rank, k)
    decreases rank[k], 1, 0
  {
    hide IsSource, IsRow;
    assert Names(heap, namer, nodes, rank, k);
    if !IsSource(heap[k].facts.operation, heap[k].facts.details) {
      InputsAgree(heap, namer, nodes, rank, keys, position, heap[k].inputs, nodes[rank[k]].inputIds, rank[k]);
    }
  }

  lemma {:induction false} InputsAgree(
    heap: Heap, namer: Namer, nodes: seq<Node>, rank: map<nat, nat>, keys: seq<nat>, position: map<bytes, nat>,
    inputs: seq<nat>, ids: seq<bytes>, bound: nat)
    requires Ledger(heap, namer, nodes, rank, keys) && Resolved(nodes, position) && bound <= |nodes| && |ids| == |inputs|
    requires forall j :: 0 <= j < |inputs| ==>
               inputs[j] in rank && inputs[j] in heap && rank[inputs[j]] < bound && ids[j] == nodes[rank[inputs[j]]].id
    ensures forall j :: 0 <= j < |ids| ==> ids[j] in position && position[ids[j]] < bound
    ensures IdSources(nodes, position, ids, bound) == InputSources(heap, rank, inputs, bound)
    decreases bound, 0, |inputs|
  {
    hide Names, IsRow;
    if inputs != [] {
      SourcesAgree(heap, namer, nodes, rank, keys, position, inputs[0]);
      InputsAgree(heap, namer, nodes, rank, keys, position, inputs[1..], ids[1..], bound);
    }
  }

  // ----- the loops over sources

  function Reverse<T(!new)>(s: seq<T>): (r: seq<T>)
    ensures |r| == |s|
    ensures forall x :: x in r <==> x in s
  {
    if s == [] then [] else Reverse(s[1..]) + [s[0]]
  }

  ghost predicate OnStack(heap: Heap, rank: map<nat, nat>, stack: seq<nat>) {
    forall p :: 0 <= p < |stack| ==> stack[p] in rank && stack[p] in heap
  }

  /** The sources still to come, the top of the stack first. */
  ghost function StackSources(heap: Heap, rank: map<nat, nat>, stack: seq<nat>): seq<bytes>
    requires Ranked(heap, rank) && OnStack(heap, rank, stack)
  {
    if stack == [] then [] else
    CellSources(heap, rank, stack[|stack| - 1]) + StackSources(heap, rank, stack[..|stack| - 1])
  }

  lemma {:induction false} PushedSources(heap: Heap, rank: map<nat, nat>, rest: seq<nat>, inputs: seq<nat>, bound: nat)
    requires Ranked(heap, rank) && OnStack(heap, rank, rest)
    requires forall j :: 0 <= j < |inputs| ==> inputs[j] in rank && inputs[j] in heap && rank[inputs[j]] < bound
    ensures OnStack(heap, rank, rest + Reverse(inputs))
    ensures StackSources(heap, rank, rest + Reverse(inputs)) == InputSources(heap, rank, inputs, bound) + StackSources(heap, rank, rest)
    decreases |inputs|
  {
    hide Ranked, CellSources;
    if inputs == [] {
      assert rest + [] == rest;
      assert [] + StackSources(heap, rank, rest) == StackSources(heap, rank, rest);
    } else {
      PushedSources(heap, rank, rest, inputs[1..], bound);
      var (below, whole) := (rest + Reverse(inputs[1..]), rest + Reverse(inputs));
      assert whole == below + [inputs[0]];
      assert whole[..|whole| - 1] == below && whole[|whole| - 1] == inputs[0];
      assert OnStack(heap, rank, whole);
      var (a, b, c) := (CellSources(heap, rank, inputs[0]), InputSources(heap, rank, inputs[1..], bound), StackSources(heap, rank, rest));
      assert a + (b + c) == a + b + c;
    }
  }

  /** How many cells the walk below `k` visits, once for each way to reach them. */
  ghost function Weight(heap: Heap, rank: map<nat, nat>, k: nat): nat
    requires Ranked(heap, rank) && k in rank && k in heap
    decreases rank[k], 1, 0
  {
    1 + InputWeight(heap, rank, heap[k].inputs, rank[k])
  }

  ghost function InputWeight(heap: Heap, rank: map<nat, nat>, inputs: seq<nat>, bound: nat): nat
    requires Ranked(heap, rank) && forall j :: 0 <= j < |inputs| ==> inputs[j] in rank && inputs[j] in heap && rank[inputs[j]] < bound
    decreases bound, 0, |inputs|
  {
    if inputs == [] then 0 else Weight(heap, rank, inputs[0]) + InputWeight(heap, rank, inputs[1..], bound)
  }

  ghost function StackWeight(heap: Heap, rank: map<nat, nat>, stack: seq<nat>): nat
    requires Ranked(heap, rank) && OnStack(heap, rank, stack)
  {
    if stack == [] then 0 else Weight(heap, rank, stack[|stack| - 1]) + StackWeight(heap, rank, stack[..|stack| - 1])
  }

  lemma {:induction false} PushedWeight(heap: Heap, rank: map<nat, nat>, rest: seq<nat>, inputs: seq<nat>, bound: nat)
    requires Ranked(heap, rank) && OnStack(heap, rank, rest)
    requires forall j :: 0 <= j < |inputs| ==> inputs[j] in rank && inputs[j] in heap && rank[inputs[j]] < bound
    ensures OnStack(heap, rank, rest + Reverse(inputs))
    ensures StackWeight(heap, rank, rest + Reverse(inputs)) == InputWeight(heap, rank, inputs, bound) + StackWeight(heap, rank, rest)
    decreases |inputs|
  {
    hide Ranked, Weight;
    if inputs == [] {
      assert rest + [] == rest;
    } else {
      PushedWeight(heap, rank, rest, inputs[1..], bound);
      var (below, whole) := (rest + Reverse(inputs[1..]), rest + Reverse(inputs));
      assert whole == below + [inputs[0]];
      assert whole[..|whole| - 1] == below && whole[|whole| - 1] == inputs[0];
      assert OnStack(heap, rank, whole);
    }
  }

  /** Each pair is what its label parses to. */
  ghost predicate Parsed(split: bytes -> Option<(bytes, bytes)>, labels: seq<bytes>, pairs: seq<(bytes, bytes)>) {
    |labels| == |pairs| && forall i :: 0 <= i < |labels| ==> split(labels[i]) == Some(pairs[i])
  }

  predicate AllParse(split: bytes -> Option<(bytes, bytes)>, labels: seq<bytes>) {
    forall i :: 0 <= i < |labels| ==> split(labels[i]).Some?
  }

  /** Why the sources of a cell cannot be read: the walk is too long, a label is malformed, or there are none. */
  ghost predicate SourcesFault(heap: Heap, rank: map<nat, nat>, split: bytes -> Option<(bytes, bytes)>, root: nat, error: Error)
    requires Ranked(heap, rank) && root in rank && root in heap
  {
    || (error == Limit && Weight(heap, rank, root) > 100_000)
    || (error == Corruption && !AllParse(split, CellSources(heap, rank, root)))
    || (error == UnsupportedValue && CellSources(heap, rank, root) == [])
  }

  lemma {:induction false} StackWeightAtLeast(heap: Heap, rank: map<nat, nat>, stack: seq<nat>)
    requires Ranked(heap, rank) && OnStack(heap, rank, stack)
    ensures StackWeight(heap, rank, stack) >= |stack|
  {
    hide Ranked, OnStack;
    if stack != [] {
      assert OnStack(heap, rank, stack[..|stack| - 1]) by { ShorterStack(heap, rank, stack); }
      StackWeightAtLeast(heap, rank, stack[..|stack| - 1]);
    }
  }

  lemma ShorterStack(heap: Heap, rank: map<nat, nat>, stack: seq<nat>)
    requires OnStack(heap, rank, stack) && stack != []
    ensures OnStack(heap, rank, stack[..|stack| - 1]) && stack[|stack| - 1] in rank && stack[|stack| - 1] in heap
  {}

  /** `contributing_sources`: the source rows a derivation comes from. */
  method ContributingSources(heap: Heap, ghost rank: map<nat, nat>, split: bytes -> Option<(bytes, bytes)>, root: nat)
    returns (r: Result<seq<(bytes, bytes)>>)
    requires Ranked(heap, rank) && root in rank && root in heap
    ensures r.Ok? ==> r.value != [] && Parsed(split, CellSources(heap, rank, root), r.value)
    ensures r.Err? ==> SourcesFault(heap, rank, split, root, r.error)
  {
    hide Ranked, Weight, IsSource;
    var stack := [root];
    var sources: seq<(bytes, bytes)> := [];
    ghost var seen: seq<bytes> := [];
    OneOnStack(heap, rank, root);
    while stack != []
      invariant OnStack(heap, rank, stack) && Parsed(split, seen, sources)
      invariant seen + StackSources(heap, rank, stack) == CellSources(heap, rank, root)
      invariant |sources| + StackWeight(heap, rank, stack) <= Weight(heap, rank, root)
      decreases StackWeight(heap, rank, stack)
    {
      var n := |stack| - 1;
      var key := stack[n];
      assert OnStack(heap, rank, stack[..n]);
      ghost var rest := StackSources(heap, rank, stack[..n]);
      StackWeightAtLeast(heap, rank, stack);
      WeightOf(heap, rank, key);
      if |sources| + n > LIMIT {
        return Err(Limit);
      }
      stack := stack[..n];
      var f := heap[key].facts;
      if IsSource(f.operation, f.details) {
        var pair := split(f.text);
        assert seen + ([f.text] + rest) == seen + [f.text] + rest;
        if pair.None? {
          assert (seen + [f.text] + rest)[|seen|] == f.text;
          return Err(Corruption);
        }
        seen := seen + [f.text];
        sources := sources + [pair.value];
      } else {
        PushedSources(heap, rank, stack, heap[key].inputs, rank[key]);
        PushedWeight(heap, rank, stack, heap[key].inputs, rank[key]);
        stack := stack + Reverse(heap[key].inputs);
      }
    }
    assert seen + [] == seen;
    return if sources == [] then Err(UnsupportedValue) else Ok(sources);
  }

  lemma WeightOf(heap: Heap, rank: map<nat, nat>, k: nat)
    requires Ranked(heap, rank) && k in rank && k in heap
    ensures InputsIn(heap, rank, k) && Weight(heap, rank, k) == 1 + InputWeight(heap, rank, heap[k].inputs, rank[k])
  {}

  predicate InputsIn(heap: Heap, rank: map<nat, nat>, k: nat)
    requires k in rank && k in heap
  {
    forall j :: 0 <= j < |heap[k].inputs| ==>
      heap[k].inputs[j] in rank && heap[k].inputs[j] in heap && rank[heap[k].inputs[j]] < rank[k]
  }

  lemma OneOnStack(heap: Heap, rank: map<nat, nat>, root: nat)
    requires Ranked(heap, rank) && root in rank && root in heap
    ensures OnStack(heap, rank, [root]) && [] + StackSources(heap, rank, [root]) == CellSources(heap, rank, root)
    ensures StackWeight(heap, rank, [root]) == Weight(heap, rank, root)
  {
    assert StackWeight(heap, rank, []) == 0;
    assert [root][..0] == [] && StackSources(heap, rank, []) == [];
    assert CellSources(heap, rank, root) + [] == CellSources(heap, rank, root);
  }

  ghost predicate IdsOnStack(nodes: seq<Node>, position: map<bytes, nat>, stack: seq<bytes>) {
    forall p :: 0 <= p < |stack| ==> stack[p] in position && position[stack[p]] < |nodes|
  }

  ghost function StackIdSources(nodes: seq<Node>, position: map<bytes, nat>, stack: seq<bytes>): seq<bytes>
    requires Resolved(nodes, position) && IdsOnStack(nodes, position, stack)
  {
    if stack == [] then [] else
    NodeSources(nodes, position, position[stack[|stack| - 1]]) + StackIdSources(nodes, position, stack[..|stack| - 1])
  }

  lemma {:induction false} PushedIds(nodes: seq<Node>, position: map<bytes, nat>, rest: seq<bytes>, ids: seq<bytes>, bound: nat)
    requires Resolved(nodes, position) && IdsOnStack(nodes, position, rest) && bound <= |nodes|
    requires forall j :: 0 <= j < |ids| ==> ids[j] in position && position[ids[j]] < bound
    ensures IdsOnStack(nodes, position, rest + Reverse(ids))
    ensures StackIdSources(nodes, position, rest + Reverse(ids))
         == IdSources(nodes, position, ids, bound) + StackIdSources(nodes, position, rest)
    decreases |ids|
  {
    hide Resolved, NodeSources;
    if ids == [] {
      assert rest + [] == rest;
      assert [] + StackIdSources(nodes, position, rest) == StackIdSources(nodes, position, rest);
    } else {
      PushedIds(nodes, position, rest, ids[1..], bound);
      var (below, whole) := (rest + Reverse(ids[1..]), rest + Reverse(ids));
      assert whole == below + [ids[0]];
      assert whole[..|whole| - 1] == below && whole[|whole| - 1] == ids[0];
      assert IdsOnStack(nodes, position, whole);
      var (a, b, c) := (
        NodeSources(nodes, position, position[ids[0]]), IdSources(nodes, position, ids[1..], bound),
        StackIdSources(nodes, position, rest));
      assert a + (b + c) == a + b + c;
    }
  }

  /** How many nodes the walk below one visits, once for each way to reach them. */
  ghost function NodeWork(nodes: seq<Node>, position: map<bytes, nat>, i: nat): nat
    requires Resolved(nodes, position) && i < |nodes|
    decreases i, 1, 0
  {
    1 + if IsSource(nodes[i].operation, nodes[i].details) then 0 else IdWork(nodes, position, nodes[i].inputIds, i)
  }

  ghost function IdWork(nodes: seq<Node>, position: map<bytes, nat>, ids: seq<bytes>, bound: nat): nat
    requires Resolved(nodes, position) && bound <= |nodes|
    requires forall j :: 0 <= j < |ids| ==> ids[j] in position && position[ids[j]] < bound
    decreases bound, 0, |ids|
  {
    if ids == [] then 0 else NodeWork(nodes, position, position[ids[0]]) + IdWork(nodes, position, ids[1..], bound)
  }

  ghost function StackWork(nodes: seq<Node>, position: map<bytes, nat>, stack: seq<bytes>): nat
    requires Resolved(nodes, position) && IdsOnStack(nodes, position, stack)
  {
    if stack == [] then 0 else
    NodeWork(nodes, position, position[stack[|stack| - 1]]) + StackWork(nodes, position, stack[..|stack| - 1])
  }

  lemma {:induction false} PushedWork(nodes: seq<Node>, position: map<bytes, nat>, rest: seq<bytes>, ids: seq<bytes>, bound: nat)
    requires Resolved(nodes, position) && IdsOnStack(nodes, position, rest) && bound <= |nodes|
    requires forall j :: 0 <= j < |ids| ==> ids[j] in position && position[ids[j]] < bound
    ensures IdsOnStack(nodes, position, rest + Reverse(ids))
    ensures StackWork(nodes, position, rest + Reverse(ids))
         == IdWork(nodes, position, ids, bound) + StackWork(nodes, position, rest)
    decreases |ids|
  {
    hide Resolved, NodeWork;
    if ids == [] {
      assert rest + [] == rest;
    } else {
      PushedWork(nodes, position, rest, ids[1..], bound);
      var (below, whole) := (rest + Reverse(ids[1..]), rest + Reverse(ids));
      assert whole == below + [ids[0]];
      assert whole[..|whole| - 1] == below && whole[|whole| - 1] == ids[0];
      assert IdsOnStack(nodes, position, whole);
    }
  }

  /** `source_nodes`: the same, read from saved nodes, on a budget of visits. */
  method SourceNodes(
    nodes: seq<Node>, position: map<bytes, nat>, split: bytes -> Option<(bytes, bytes)>, root: bytes, budget: nat)
    returns (r: Result<seq<(bytes, bytes)>>, remaining: nat)
    requires Resolved(nodes, position) && root in position && position[root] < |nodes|
    ensures r.Ok? <==> var labels := NodeSources(nodes, position, position[root]);
                       labels != [] && AllParse(split, labels) && NodeWork(nodes, position, position[root]) <= budget
    ensures r.Ok? ==> Parsed(split, NodeSources(nodes, position, position[root]), r.value)
    ensures r.Ok? ==> remaining == budget - NodeWork(nodes, position, position[root])
  {
    hide Resolved;
    remaining := budget;
    var stack := [root];
    var sources: seq<(bytes, bytes)> := [];
    ghost var seen: seq<bytes> := [];
    OneId(nodes, position, root);
    while stack != []
      invariant IdsOnStack(nodes, position, stack) && Parsed(split, seen, sources) && remaining <= budget
      invariant seen + StackIdSources(nodes, position, stack) == NodeSources(nodes, position, position[root])
      invariant budget - remaining + StackWork(nodes, position, stack) == NodeWork(nodes, position, position[root])
      decreases remaining
    {
      var n := |stack| - 1;
      var at := position[stack[n]];
      assert IdsOnStack(nodes, position, stack[..n]);
      ghost var rest := StackIdSources(nodes, position, stack[..n]);
      if remaining == 0 {
        return Err(Limit), remaining;
      }
      remaining := remaining - 1;
      stack := stack[..n];
      var node := nodes[at];
      if IsSource(node.operation, node.details) {
        var pair := split(node.text);
        assert seen + ([node.text] + rest) == seen + [node.text] + rest;
        if pair.None? {
          assert (seen + [node.text] + rest)[|seen|] == node.text;
          return Err(Corruption), remaining;
        }
        seen := seen + [node.text];
        sources := sources + [pair.value];
      } else {
        IdsResolved(nodes, position, at);
        PushedIds(nodes, position, stack, node.inputIds, at);
        PushedWork(nodes, position, stack, node.inputIds, at);
        stack := stack + Reverse(node.inputIds);
      }
    }
    assert seen + [] == seen;
    return if sources == [] then Err(Corruption) else Ok(sources), remaining;
  }

  lemma OneId(nodes: seq<Node>, position: map<bytes, nat>, root: bytes)
    requires Resolved(nodes, position) && root in position && position[root] < |nodes|
    ensures IdsOnStack(nodes, position, [root])
    ensures [] + StackIdSources(nodes, position, [root]) == NodeSources(nodes, position, position[root])
    ensures StackWork(nodes, position, [root]) == NodeWork(nodes, position, position[root])
  {
    assert StackWork(nodes, position, []) == 0;
    assert [root][..0] == [] && StackIdSources(nodes, position, []) == [];
    assert NodeSources(nodes, position, position[root]) + [] == NodeSources(nodes, position, position[root]);
  }

  lemma IdsResolved(nodes: seq<Node>, position: map<bytes, nat>, i: nat)
    requires Resolved(nodes, position) && i < |nodes|
    ensures forall j :: 0 <= j < |nodes[i].inputIds| ==> nodes[i].inputIds[j] in position && position[nodes[i].inputIds[j]] < i
  {}
}
