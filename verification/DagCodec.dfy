/** Saving a shared derivation graph as a list of nodes, and building it again (`dataset_source_codec.rs`). */
module DagCodec {
  import opened Bytes
  import opened Dag

  /** A saved derivation; its inputs are positions in the list. */
  datatype Saved = Saved(facts: Facts, inputs: seq<nat>)

  const MAX_NODES := 100_000

  /** The nodes are the cells at `keys`, each once, in an order where inputs come first. */
  ghost predicate Saves(heap: Heap, nodes: seq<Saved>, keys: seq<nat>) {
    && |keys| == |nodes|
    && (forall i, j :: 0 <= i < j < |keys| ==> keys[i] != keys[j])
    && (forall i :: 0 <= i < |nodes| ==> keys[i] in heap && NodeSaves(heap[keys[i]], nodes[i], keys, i))
  }

  ghost predicate NodeSaves(cell: Derivation, node: Saved, keys: seq<nat>, i: nat) {
    && !cell.differentiated && node.facts == cell.facts && |node.inputs| == |cell.inputs|
    && forall j :: 0 <= j < |node.inputs| ==> node.inputs[j] < i && node.inputs[j] < |keys| && keys[node.inputs[j]] == cell.inputs[j]
  }

  /** `known` finds the position of every saved cell. */
  ghost predicate Indexes(known: map<nat, nat>, keys: seq<nat>) {
    && (forall k :: k in known ==> known[k] < |keys| && keys[known[k]] == k)
    && (forall i :: 0 <= i < |keys| ==> keys[i] in known && known[keys[i]] == i)
  }

  datatype Frame = Frame(key: nat, visited: bool)

  // ----- what the walk of `save_node` keeps

  /** Frames above an opened cell are below it in the graph, and hold all its inputs that are not saved. */
  ghost predicate StackOk(heap: Heap, root: nat, stack: seq<Frame>, active: set<nat>, known: map<nat, nat>) {
    && (forall p :: 0 <= p < |stack| ==> stack[p].key in heap && Reaches(EdgesOf(heap), root, stack[p].key))
    && (forall p :: 0 <= p < |stack| && stack[p].visited ==> stack[p].key in active)
    && (forall k :: k in active ==> k !in known && Frame(k, true) in stack)
    && (forall p, q :: 0 <= p < q < |stack| && stack[p].visited ==>
          Below(EdgesOf(heap), stack[p].key, stack[q].key) && (stack[q].visited ==> stack[p].key != stack[q].key))
    && (forall p, i :: 0 <= p < |stack| && stack[p].visited && 0 <= i < |heap[stack[p].key].inputs| ==>
          InputWaits(heap[stack[p].key].inputs[i], stack, p, known))
    && (root in known || Waits(root, stack, 0))
  }

  predicate Waits(key: nat, stack: seq<Frame>, from: nat) { exists q :: from <= q < |stack| && stack[q].key == key }

  predicate InputWaits(input: nat, stack: seq<Frame>, p: nat, known: map<nat, nat>) {
    input in known || Waits(input, stack, p + 1)
  }

  ghost predicate Cyclic(heap: Heap, root: nat) {
    exists k :: Reaches(EdgesOf(heap), root, k) && Below(EdgesOf(heap), k, k)
  }

  ghost predicate MeetsDifferentiated(heap: Heap, root: nat) {
    exists k :: Reaches(EdgesOf(heap), root, k) && k in heap && heap[k].differentiated
  }

  /** More cells than the limit are saved already or reachable. */
  ghost predicate TooMany(heap: Heap, root: nat, keys: seq<nat>) {
    exists cells: set<nat> :: |cells| > 100_000 && Among(heap, root, keys, cells)
  }

  ghost predicate Among(heap: Heap, root: nat, keys: seq<nat>, cells: set<nat>) {
    forall k :: k in cells ==> k in keys || Reaches(EdgesOf(heap), root, k)
  }

  lemma StartOk(heap: Heap, root: nat, known: map<nat, nat>)
    requires root in heap
    ensures StackOk(heap, root, [Frame(root, false)], {}, known)
  {
    ReachesSelf(EdgesOf(heap), root);
    assert [Frame(root, false)][0].key == root;
  }

  /** A frame that is saved already is dropped. */
  lemma Dropped(heap: Heap, root: nat, stack: seq<Frame>, active: set<nat>, known: map<nat, nat>)
    requires StackOk(heap, root, stack, active, known) && stack != [] && stack[|stack| - 1].key in known
    ensures StackOk(heap, root, stack[..|stack| - 1], active, known)
  {
    hide Reaches, Below;
    var n := |stack| - 1;
    var rest := stack[..n];
    var top := stack[n];
    forall k | k in active ensures Frame(k, true) in rest {
      var p :| 0 <= p < |stack| && stack[p] == Frame(k, true);
      assert p < n;
      assert rest[p] == Frame(k, true);
    }
    forall p, i | 0 <= p < |rest| && rest[p].visited && 0 <= i < |heap[rest[p].key].inputs|
      ensures InputWaits(heap[rest[p].key].inputs[i], rest, p, known)
    {
      StillWaits(heap[stack[p].key].inputs[i], stack, p, known);
    }
    if root !in known {
      var q :| 0 <= q < |stack| && stack[q].key == root;
      assert rest[q].key == root;
    }
  }

  lemma StillWaits(input: nat, stack: seq<Frame>, p: nat, known: map<nat, nat>)
    requires InputWaits(input, stack, p, known) && stack != [] && stack[|stack| - 1].key in known
    ensures InputWaits(input, stack[..|stack| - 1], p, known)
  {
    if input !in known {
      var q :| p + 1 <= q < |stack| && stack[q].key == input;
      assert stack[..|stack| - 1][q].key == input;
    }
  }

  /** A cell met again while it is open is below itself. */
  lemma MetOpen(heap: Heap, root: nat, stack: seq<Frame>, active: set<nat>, known: map<nat, nat>)
    requires StackOk(heap, root, stack, active, known) && stack != []
    requires !stack[|stack| - 1].visited && stack[|stack| - 1].key in active
    ensures Cyclic(heap, root)
  {
    hide Reaches, Below;
    var n := |stack| - 1;
    var k := stack[n].key;
    var p :| 0 <= p < |stack| && stack[p] == Frame(k, true);
    assert Below(EdgesOf(heap), stack[p].key, stack[n].key);
  }

  function Reversed(inputs: seq<nat>): seq<Frame> {
    if inputs == [] then [] else Reversed(inputs[1..]) + [Frame(inputs[0], false)]
  }

  lemma {:induction false} ReversedFrames(inputs: seq<nat>)
    ensures |Reversed(inputs)| == |inputs|
    ensures forall i :: 0 <= i < |inputs| ==> Reversed(inputs)[|inputs| - 1 - i] == Frame(inputs[i], false)
    ensures forall f :: f in Reversed(inputs) ==> !f.visited && f.key in inputs
  {
    if inputs != [] {
      ReversedFrames(inputs[1..]);
    }
  }

  /** The stack once the top cell is opened: its frame stays, marked, under frames for its inputs. */
  function Opening(heap: Heap, stack: seq<Frame>): seq<Frame>
    requires stack != [] && stack[|stack| - 1].key in heap
  {
    var n := |stack| - 1;
    stack[..n] + [Frame(stack[n].key, true)] + Reversed(heap[stack[n].key].inputs)
  }

  lemma OpeningFrames(heap: Heap, stack: seq<Frame>)
    requires stack != [] && stack[|stack| - 1].key in heap
    ensures var (after, n, inputs) := (Opening(heap, stack), |stack| - 1, heap[stack[|stack| - 1].key].inputs);
            && |after| == n + 1 + |inputs| && after[n] == Frame(stack[n].key, true)
            && (forall p :: 0 <= p < n ==> after[p] == stack[p])
            && (forall p :: n < p < |after| ==> !after[p].visited && after[p].key in inputs)
            && (forall i :: 0 <= i < |inputs| ==> Waits(inputs[i], after, n + 1))
  {
    hide Reversed;
    var (after, n, inputs) := (Opening(heap, stack), |stack| - 1, heap[stack[|stack| - 1].key].inputs);
    ReversedFrames(inputs);
    forall p | n < p < |after| ensures !after[p].visited && after[p].key in inputs {
      assert after[p] in Reversed(inputs);
    }
    forall i | 0 <= i < |inputs| ensures Waits(inputs[i], after, n + 1) {
      assert after[n + 1 + (|inputs| - 1 - i)] == Frame(inputs[i], false);
    }
  }

  lemma Opened(heap: Heap, root: nat, stack: seq<Frame>, active: set<nat>, known: map<nat, nat>)
    requires Closed(heap) && StackOk(heap, root, stack, active, known) && stack != []
    requires var top := stack[|stack| - 1]; !top.visited && top.key !in active && top.key !in known
    ensures StackOk(heap, root, Opening(heap, stack), active + {stack[|stack| - 1].key}, known)
  {
    hide Reaches, Below, Opening, InputWaits, Waits;
    var n := |stack| - 1;
    var key := stack[n].key;
    var after := Opening(heap, stack);
    var e := EdgesOf(heap);
    OpeningFrames(heap, stack);
    forall p | 0 <= p < |after| ensures after[p].key in heap && Reaches(e, root, after[p].key) {
      if p > n {
        ReachesStep(e, root, key, after[p].key);
      }
    }
    forall k | k in active + {key} ensures k !in known && Frame(k, true) in after {
      if k != key {
        var p :| 0 <= p < |stack| && stack[p] == Frame(k, true);
        assert after[p] == Frame(k, true);
      }
    }
    forall p, q | 0 <= p < q < |after| && after[p].visited
      ensures Below(e, after[p].key, after[q].key) && (after[q].visited ==> after[p].key != after[q].key)
    {
      OpenedBelow(heap, root, stack, active, known, p, q);
    }
    OpenedWaits(heap, root, stack, active, known);
  }

  lemma OpenedWaits(heap: Heap, root: nat, stack: seq<Frame>, active: set<nat>, known: map<nat, nat>)
    requires StackOk(heap, root, stack, active, known) && stack != []
    requires forall p :: 0 <= p < |Opening(heap, stack)| ==> Opening(heap, stack)[p].key in heap
    ensures var after := Opening(heap, stack);
            && (forall p, i :: 0 <= p < |after| && after[p].visited && 0 <= i < |heap[after[p].key].inputs| ==>
                  InputWaits(heap[after[p].key].inputs[i], after, p, known))
            && (root in known || Waits(root, after, 0))
  {
    hide Reaches, Below, Opening;
    var n := |stack| - 1;
    var after := Opening(heap, stack);
    OpeningFrames(heap, stack);
    forall p, i | 0 <= p < |after| && after[p].visited && 0 <= i < |heap[after[p].key].inputs|
      ensures InputWaits(heap[after[p].key].inputs[i], after, p, known)
    {
      var input := heap[after[p].key].inputs[i];
      if p < n && input !in known {
        assert InputWaits(heap[stack[p].key].inputs[i], stack, p, known);
        var q :| p + 1 <= q < |stack| && stack[q].key == input;
        assert after[q].key == input;
      }
    }
    if root !in known {
      var q :| 0 <= q < |stack| && stack[q].key == root;
      assert after[q].key == root;
    }
  }

  lemma OpenedBelow(heap: Heap, root: nat, stack: seq<Frame>, active: set<nat>, known: map<nat, nat>, p: nat, q: nat)
    requires StackOk(heap, root, stack, active, known) && stack != [] && stack[|stack| - 1].key !in active
    requires p < q < |Opening(heap, stack)| && Opening(heap, stack)[p].visited
    ensures var after := Opening(heap, stack);
            Below(EdgesOf(heap), after[p].key, after[q].key) && (after[q].visited ==> after[p].key != after[q].key)
  {
    hide Reaches, Below, Opening, InputWaits, Waits;
    var n := |stack| - 1;
    var key := stack[n].key;
    var after := Opening(heap, stack);
    var e := EdgesOf(heap);
    OpeningFrames(heap, stack);
    if q > n {
      if p == n {
        EdgeBelow(e, key, after[q].key);
      } else {
        BelowStep(e, stack[p].key, key, after[q].key);
      }
    }
  }

  /** Closing a cell: everything above it is done, so its inputs are saved. */
  lemma ClosedInputs(heap: Heap, root: nat, stack: seq<Frame>, active: set<nat>, known: map<nat, nat>, key: nat)
    requires StackOk(heap, root, stack, active, known) && stack != [] && stack[|stack| - 1] == Frame(key, true)
    ensures forall i :: 0 <= i < |heap[key].inputs| ==> heap[key].inputs[i] in known
  {
    forall i | 0 <= i < |heap[key].inputs| ensures heap[key].inputs[i] in known {
      assert InputWaits(heap[stack[|stack| - 1].key].inputs[i], stack, |stack| - 1, known);
    }
  }

  lemma ClosedFrame(heap: Heap, root: nat, stack: seq<Frame>, active: set<nat>, known: map<nat, nat>, position: nat)
    requires StackOk(heap, root, stack, active, known) && stack != [] && stack[|stack| - 1].visited
    ensures var key := stack[|stack| - 1].key;
            StackOk(heap, root, stack[..|stack| - 1], active - {key}, known[key := position])
  {
    hide Reaches, Below, InputWaits, Waits;
    var n := |stack| - 1;
    var key := stack[n].key;
    var rest := stack[..n];
    var later := known[key := position];
    forall p | 0 <= p < |rest| && rest[p].visited ensures rest[p].key in active - {key} {
      assert stack[p].key != stack[n].key;
    }
    forall k | k in active - {key} ensures k !in later && Frame(k, true) in rest {
      var p :| 0 <= p < |stack| && stack[p] == Frame(k, true);
      assert p < n;
      assert rest[p] == Frame(k, true);
    }
    forall p, i | 0 <= p < |rest| && rest[p].visited && 0 <= i < |heap[rest[p].key].inputs|
      ensures InputWaits(heap[rest[p].key].inputs[i], rest, p, later)
    {
      ClosedWaits(heap[stack[p].key].inputs[i], stack, p, known, position);
    }
    if root !in later {
      RootWaits(root, stack, key);
    }
  }

  lemma ClosedWaits(input: nat, stack: seq<Frame>, p: nat, known: map<nat, nat>, position: nat)
    requires stack != [] && InputWaits(input, stack, p, known)
    ensures InputWaits(input, stack[..|stack| - 1], p, known[stack[|stack| - 1].key := position])
  {
    var n := |stack| - 1;
    if input !in known && input != stack[n].key {
      var q :| p + 1 <= q < |stack| && stack[q].key == input;
      assert stack[..n][q].key == input;
    }
  }

  lemma RootWaits(root: nat, stack: seq<Frame>, key: nat)
    requires stack != [] && stack[|stack| - 1].key == key != root && Waits(root, stack, 0)
    ensures Waits(root, stack[..|stack| - 1], 0)
  {
    var q :| 0 <= q < |stack| && stack[q].key == root;
    assert stack[..|stack| - 1][q].key == root;
  }

  lemma Appended(heap: Heap, nodes: seq<Saved>, keys: seq<nat>, known: map<nat, nat>, key: nat, inputs: seq<nat>)
    requires Saves(heap, nodes, keys) && Indexes(known, keys) && key in heap && key !in known && !heap[key].differentiated
    requires |inputs| == |heap[key].inputs|
    requires forall i :: 0 <= i < |inputs| ==> heap[key].inputs[i] in known && inputs[i] == known[heap[key].inputs[i]]
    ensures Saves(heap, nodes + [Saved(heap[key].facts, inputs)], keys + [key])
    ensures Indexes(known[key := |nodes|], keys + [key])
  {
    var longer, later := nodes + [Saved(heap[key].facts, inputs)], keys + [key];
    assert key !in keys;
    forall i | 0 <= i < |longer| ensures later[i] in heap && NodeSaves(heap[later[i]], longer[i], later, i) {
      if i < |nodes| {
        assert NodeSaves(heap[keys[i]], nodes[i], keys, i);
      }
    }
  }

  function Members(keys: seq<nat>): set<nat> { set k | k in keys }

  lemma {:induction false} KeySet(keys: seq<nat>)
    requires forall i, j :: 0 <= i < j < |keys| ==> keys[i] != keys[j]
    ensures |Members(keys)| == |keys|
  {
    var all := Members(keys);
    if keys == [] {
      assert all == {};
    } else {
      var n := |keys| - 1;
      KeySet(keys[..n]);
      var front := Members(keys[..n]);
      assert keys[n] !in front;
      assert all == front + {keys[n]} && front * {keys[n]} == {};
      assert |all| == |front| + 1;
    }
  }

  lemma OverLimit(heap: Heap, root: nat, start: seq<nat>, keys: seq<nat>, active: set<nat>)
    requires forall i, j :: 0 <= i < j < |keys| ==> keys[i] != keys[j]
    requires forall k :: k in active ==> k !in keys && Reaches(EdgesOf(heap), root, k)
    requires forall k :: k in keys ==> k in start || Reaches(EdgesOf(heap), root, k)
    requires |keys| + |active| > MAX_NODES
    ensures TooMany(heap, root, start)
  {
    hide Reaches;
    var saved := Members(keys);
    KeySet(keys);
    assert saved !! active;
    assert |saved + active| == |saved| + |active|;
    var cells := saved + active;
    assert saved * active == {} && |cells| > MAX_NODES;
    assert Among(heap, root, start, cells);
  }

  /**
   `save_node`: every cell that the root reaches is saved once, after its inputs. It fails only
   for a cycle or a differentiated cell that the root reaches, or for too many cells.
   */
  method SaveNode(heap: Heap, root: nat, start: seq<Saved>, index: map<nat, nat>, ghost startKeys: seq<nat>)
    returns (r: Result<nat>, nodes: seq<Saved>, known: map<nat, nat>, ghost keys: seq<nat>)
    requires Closed(heap) && root in heap && Saves(heap, start, startKeys) && Indexes(index, startKeys)
    ensures r.Ok? ==> Saves(heap, nodes, keys) && Indexes(known, keys) && startKeys <= keys && start <= nodes
    ensures r.Ok? ==> r.value < |nodes| && keys[r.value] == root
    ensures r.Ok? ==> forall k :: k in keys ==> k in startKeys || Reaches(EdgesOf(heap), root, k)
    ensures r.Err? ==>
              || (r.error == UnsupportedValue && (Cyclic(heap, root) || MeetsDifferentiated(heap, root)))
              || (r.error == Limit && TooMany(heap, root, startKeys))
  {
    hide Saves, Indexes, StackOk, Reaches, Below, TooMany, Opening;
    nodes, known, keys := start, index, startKeys;
    var stack := [Frame(root, false)];
    var active: set<nat> := {};
    StartOk(heap, root, known);
    while stack != []
      invariant Saves(heap, nodes, keys) && Indexes(known, keys) && startKeys <= keys && start <= nodes
      invariant forall k :: k in keys ==> k in startKeys || Reaches(EdgesOf(heap), root, k)
      invariant active <= heap.Keys && StackOk(heap, root, stack, active, known)
      decreases heap.Keys - active - known.Keys, |stack|
    {
      var n := |stack| - 1;
      var top := stack[n];
      TopInHeap(heap, root, stack, active, known);
      if top.key in known {
        Dropped(heap, root, stack, active, known);
        stack := stack[..n];
        continue;
      }
      if !top.visited {
        if top.key in active {
          MetOpen(heap, root, stack, active, known);
          return Err(UnsupportedValue), nodes, known, keys;
        }
        Opened(heap, root, stack, active, known);
        assert heap.Keys - (active + {top.key}) - known.Keys < heap.Keys - active - known.Keys by {
          assert top.key in heap.Keys - active - known.Keys;
        }
        active := active + {top.key};
        stack := Opening(heap, stack);
        if |nodes| + |active| > MAX_NODES {
          ActiveReached(heap, root, stack, active, known, keys, nodes);
          OverLimit(heap, root, startKeys, keys, active);
          return Err(Limit), nodes, known, keys;
        }
        continue;
      }
      if heap[top.key].differentiated {
        return Err(UnsupportedValue), nodes, known, keys;
      }
      ClosedInputs(heap, root, stack, active, known, top.key);
      var inputs := LookUpAll(known, heap[top.key].inputs);
      Appended(heap, nodes, keys, known, top.key, inputs);
      ClosedFrame(heap, root, stack, active, known, |nodes|);
      TopActive(heap, root, stack, active, known);
      assert heap.Keys - (active - {top.key}) - known[top.key := |nodes|].Keys == heap.Keys - active - known.Keys;
      active := active - {top.key};
      known := known[top.key := |nodes|];
      keys := keys + [top.key];
      nodes := nodes + [Saved(heap[top.key].facts, inputs)];
      stack := stack[..n];
    }
    RootKnown(heap, root, active, known, keys, nodes);
    return Ok(known[root]), nodes, known, keys;
  }

  lemma TopInHeap(heap: Heap, root: nat, stack: seq<Frame>, active: set<nat>, known: map<nat, nat>)
    requires StackOk(heap, root, stack, active, known) && stack != []
    ensures stack[|stack| - 1].key in heap && Reaches(EdgesOf(heap), root, stack[|stack| - 1].key)
  {
    hide Reaches, Below, InputWaits, Waits;
  }

  lemma TopActive(heap: Heap, root: nat, stack: seq<Frame>, active: set<nat>, known: map<nat, nat>)
    requires StackOk(heap, root, stack, active, known) && stack != [] && stack[|stack| - 1].visited
    ensures stack[|stack| - 1].key in active
  {
    hide Reaches, Below, InputWaits, Waits;
  }

  lemma ActiveReached(
    heap: Heap, root: nat, stack: seq<Frame>, active: set<nat>, known: map<nat, nat>, keys: seq<nat>, nodes: seq<Saved>)
    requires StackOk(heap, root, stack, active, known) && Indexes(known, keys) && Saves(heap, nodes, keys)
    ensures forall k :: k in active ==> k !in keys && Reaches(EdgesOf(heap), root, k)
    ensures forall i, j :: 0 <= i < j < |keys| ==> keys[i] != keys[j]
    ensures |keys| == |nodes|
  {
    hide Reaches, Below, InputWaits, Waits;
    forall k | k in active ensures k !in keys && Reaches(EdgesOf(heap), root, k) {
      var p :| 0 <= p < |stack| && stack[p] == Frame(k, true);
      assert Reaches(EdgesOf(heap), root, stack[p].key);
    }
  }

  lemma RootKnown(heap: Heap, root: nat, active: set<nat>, known: map<nat, nat>, keys: seq<nat>, nodes: seq<Saved>)
    requires StackOk(heap, root, [], active, known) && Indexes(known, keys) && Saves(heap, nodes, keys)
    ensures root in known && known[root] < |keys| == |nodes| && keys[known[root]] == root
  {}

  // ----- what a saved list says of the graph

  /** All that a saved cell reaches is saved, and no saved cell is below itself. */
  lemma SavedReach(heap: Heap, nodes: seq<Saved>, keys: seq<nat>, a: nat, b: nat)
    requires Saves(heap, nodes, keys) && a in keys
    ensures Reaches(EdgesOf(heap), a, b) ==> b in keys
    ensures !Below(EdgesOf(heap), a, a)
  {
    var e := EdgesOf(heap);
    var rank := map k | k in keys :: Rank(keys, k);
    forall k, i | k in rank && k in e && 0 <= i < |e[k]| ensures e[k][i] in rank && rank[e[k][i]] < rank[k] {
      InputRank(heap, nodes, keys, k, i);
    }
    if path :| Chain(e, a, path, b) {
      RanksFall(e, rank, a, path, b);
    }
    if Below(e, a, a) {
      var path :| path != [] && Chain(e, a, path, a);
      RanksFall(e, rank, a, path, a);
    }
  }

  function Rank(keys: seq<nat>, key: nat): (i: nat)
    requires key in keys
    ensures i < |keys| && keys[i] == key
  {
    if keys[0] == key then 0 else 1 + Rank(keys[1..], key)
  }

  lemma InputRank(heap: Heap, nodes: seq<Saved>, keys: seq<nat>, key: nat, i: nat)
    requires Saves(heap, nodes, keys) && key in keys && key in heap && i < |heap[key].inputs|
    ensures heap[key].inputs[i] in keys && Rank(keys, heap[key].inputs[i]) < Rank(keys, key)
  {
    var at := Rank(keys, key);
    assert NodeSaves(heap[keys[at]], nodes[at], keys, at);
    var from := nodes[at].inputs[i];
    assert keys[from] == heap[key].inputs[i];
    var found := Rank(keys, keys[from]);
    assert keys[found] == keys[from];
  }

  /** A graph with a reachable cycle cannot be saved. */
  lemma CycleRefused(heap: Heap, root: nat, nodes: seq<Saved>, keys: seq<nat>)
    requires Cyclic(heap, root) && Saves(heap, nodes, keys)
    ensures root !in keys
  {
    hide Saves, Reaches, Below;
    if root in keys {
      var k :| Reaches(EdgesOf(heap), root, k) && Below(EdgesOf(heap), k, k);
      SavedReach(heap, nodes, keys, root, k);
      SavedReach(heap, nodes, keys, k, k);
    }
  }

  // ----- building the graph again

  predicate FactsOk(f: Facts) { f.revision < U64 && f.kind < 8 && f.exactness < 3 && f.outcome < 4 }

  predicate NodeBuilds(node: Saved, i: nat) { FactsOk(node.facts) && forall j :: 0 <= j < |node.inputs| ==> node.inputs[j] < i }

  /** The cells that a list stands for. */
  function Built(nodes: seq<Saved>): (cells: seq<Derivation>)
    ensures |cells| == |nodes| && forall i :: 0 <= i < |nodes| ==> cells[i] == Derivation(nodes[i].facts, nodes[i].inputs, false)
  {
    seq(|nodes|, i requires 0 <= i < |nodes| => Derivation(nodes[i].facts, nodes[i].inputs, false))
  }

  /** The rebuild in `Decoder::row`: each node becomes a new cell, whose inputs are the cells built before. */
  method Rebuild(nodes: seq<Saved>) returns (r: Result<seq<Derivation>>)
    ensures r.Ok? <==> forall i :: 0 <= i < |nodes| ==> NodeBuilds(nodes[i], i)
    ensures r.Ok? ==> r.value == Built(nodes)
    ensures r.Err? ==> r.error == Corruption
  {
    var built: seq<Derivation> := [];
    for i := 0 to |nodes|
      invariant |built| == i
      invariant forall k :: 0 <= k < i ==> NodeBuilds(nodes[k], k) && built[k] == Derivation(nodes[k].facts, nodes[k].inputs, false)
    {
      var node := nodes[i];
      if !FactsOk(node.facts) {
        return Err(Corruption);
      }
      var inputs: seq<nat> := [];
      for j := 0 to |node.inputs|
        invariant inputs == node.inputs[..j] && forall k :: 0 <= k < j ==> node.inputs[k] < i
      {
        if node.inputs[j] >= |built| {
          return Err(Corruption);
        }
        inputs := inputs + [node.inputs[j]];
      }
      assert inputs == node.inputs;
      built := built + [Derivation(node.facts, inputs, false)];
    }
    return Ok(built);
  }

  /** Position for position, the built cells are the saved ones: same facts, same inputs in order, nothing shared more or less. */
  ghost predicate Isomorphic(heap: Heap, keys: seq<nat>, built: seq<Derivation>) {
    && |keys| == |built|
    && (forall i, j :: 0 <= i < j < |keys| ==> keys[i] != keys[j])
    && (forall i :: 0 <= i < |keys| ==>
          && keys[i] in heap && built[i].facts == heap[keys[i]].facts && !built[i].differentiated
          && |built[i].inputs| == |heap[keys[i]].inputs|
          && forall j :: 0 <= j < |built[i].inputs| ==> built[i].inputs[j] < |keys| && keys[built[i].inputs[j]] == heap[keys[i]].inputs[j])
  }

  /** What was saved builds, into a graph that is the original one up to addresses: what was shared is shared. */
  lemma BuiltIsSaved(heap: Heap, nodes: seq<Saved>, keys: seq<nat>)
    requires Saves(heap, nodes, keys) && forall k :: k in heap ==> FactsOk(heap[k].facts)
    ensures forall i :: 0 <= i < |nodes| ==> NodeBuilds(nodes[i], i)
    ensures Isomorphic(heap, keys, Built(nodes))
  {
    hide FactsOk;
    forall i | 0 <= i < |nodes| ensures NodeBuilds(nodes[i], i) {
      assert NodeSaves(heap[keys[i]], nodes[i], keys, i);
    }
  }

  // ----- the decoder's check that every node is used

  function NodeEdges(nodes: seq<Saved>): Edges { map i: nat | i < |nodes| :: nodes[i].inputs }

  ghost predicate Used(nodes: seq<Saved>, roots: seq<nat>, i: nat) {
    exists r :: 0 <= r < |roots| && Reaches(NodeEdges(nodes), roots[r], i)
  }

  lemma UsedStep(nodes: seq<Saved>, roots: seq<nat>, i: nat, j: nat)
    requires Used(nodes, roots, i) && i < |nodes| && j in nodes[i].inputs
    ensures Used(nodes, roots, j)
  {
    hide Reaches;
    var r :| 0 <= r < |roots| && Reaches(NodeEdges(nodes), roots[r], i);
    ReachesStep(NodeEdges(nodes), roots[r], i, j);
  }

  /** The walk of `validate_evidence` from the evidence nodes: which nodes they reach, or a position that is not there. */
  method MarkUsed(nodes: seq<Saved>, roots: seq<nat>) returns (r: Result<set<nat>>)
    ensures r.Ok? ==> forall i :: i in r.value <==> Used(nodes, roots, i)
    ensures r.Err? ==> r.error == Corruption && exists i :: i >= |nodes| && Used(nodes, roots, i)
  {
    hide Reaches, Used;
    var stack := roots;
    var used: set<nat> := {};
    ghost var all := UpTo(|nodes|);
    forall k | 0 <= k < |stack| ensures Used(nodes, roots, stack[k]) {
      RootUsed(nodes, roots, k);
    }
    while stack != []
      invariant used <= all && forall i :: i in used ==> Used(nodes, roots, i)
      invariant forall k :: 0 <= k < |stack| ==> Used(nodes, roots, stack[k])
      invariant forall k :: 0 <= k < |roots| ==> roots[k] in used || roots[k] in stack
      invariant forall i, k :: i in used && 0 <= k < |nodes[i].inputs| ==> nodes[i].inputs[k] in used || nodes[i].inputs[k] in stack
      decreases all - used, |stack|
    {
      var n := |stack| - 1;
      var index := stack[n];
      assert stack == stack[..n] + [index];
      if index >= |nodes| {
        return Err(Corruption);
      }
      stack := stack[..n];
      if index !in used {
        used := used + {index};
        forall j | j in nodes[index].inputs ensures Used(nodes, roots, j) {
          UsedStep(nodes, roots, index, j);
        }
        stack := stack + nodes[index].inputs;
      }
    }
    forall i | Used(nodes, roots, i) ensures i in used {
      UsedInside(nodes, roots, used, i);
    }
    return Ok(used);
  }

  ghost function UpTo(n: nat): (all: set<nat>)
    ensures forall i: nat :: i in all <==> i < n
  {
    if n == 0 then {} else UpTo(n - 1) + {n - 1}
  }

  lemma RootUsed(nodes: seq<Saved>, roots: seq<nat>, k: nat)
    requires k < |roots|
    ensures Used(nodes, roots, roots[k])
  {
    ReachesSelf(NodeEdges(nodes), roots[k]);
  }

  lemma UsedInside(nodes: seq<Saved>, roots: seq<nat>, used: set<nat>, i: nat)
    requires Used(nodes, roots, i)
    requires forall k :: 0 <= k < |roots| ==> roots[k] in used
    requires forall j, k :: j in used && j < |nodes| && 0 <= k < |nodes[j].inputs| ==> nodes[j].inputs[k] in used
    ensures i in used
  {
    var r :| 0 <= r < |roots| && Reaches(NodeEdges(nodes), roots[r], i);
    var path :| Chain(NodeEdges(nodes), roots[r], path, i);
    ClosedUnderChain(NodeEdges(nodes), used, roots[r], path, i);
  }

  /** A chain of cells is a chain of the positions they are saved at. */
  lemma {:induction false} ChainSaved(heap: Heap, nodes: seq<Saved>, keys: seq<nat>, i: nat, path: seq<nat>, b: nat)
    requires Saves(heap, nodes, keys) && i < |keys| && Chain(EdgesOf(heap), keys[i], path, b)
    ensures exists j :: 0 <= j < |keys| && keys[j] == b && Reaches(NodeEdges(nodes), i, j)
    decreases |path|
  {
    if path == [] {
      ReachesSelf(NodeEdges(nodes), i);
    } else {
      assert NodeSaves(heap[keys[i]], nodes[i], keys, i);
      var k :| 0 <= k < |heap[keys[i]].inputs| && heap[keys[i]].inputs[k] == path[0];
      var next := nodes[i].inputs[k];
      ChainSaved(heap, nodes, keys, next, path[1..], b);
      var j :| 0 <= j < |keys| && keys[j] == b && Reaches(NodeEdges(nodes), next, j);
      var rest :| Chain(NodeEdges(nodes), next, rest, j);
      assert Edge(NodeEdges(nodes), i, next);
      assert Chain(NodeEdges(nodes), i, [next] + rest, j) by { assert ([next] + rest)[1..] == rest; }
    }
  }

  // ----- saving the derivations of a row

  ghost predicate ReachedFrom(heap: Heap, roots: seq<nat>, key: nat) {
    exists r :: 0 <= r < |roots| && Reaches(EdgesOf(heap), roots[r], key)
  }

  /** Each root is saved at its position, and nothing that no root reaches is saved. */
  ghost predicate RootsSaved(heap: Heap, roots: seq<nat>, nodes: seq<Saved>, keys: seq<nat>, positions: seq<nat>) {
    && Saves(heap, nodes, keys) && |positions| == |roots|
    && (forall r :: 0 <= r < |roots| ==> positions[r] < |keys| && keys[positions[r]] == roots[r])
    && forall k :: k in keys ==> ReachedFrom(heap, roots, k)
  }

  /** A list saved for some roots is used whole from their positions: the decoder accepts it. */
  lemma SavedIsUsed(heap: Heap, roots: seq<nat>, nodes: seq<Saved>, keys: seq<nat>, positions: seq<nat>, i: nat)
    requires RootsSaved(heap, roots, nodes, keys, positions)
    ensures Used(nodes, positions, i) <==> i < |nodes|
  {
    if i < |nodes| {
      assert keys[i] in keys;
      var r :| 0 <= r < |roots| && Reaches(EdgesOf(heap), roots[r], keys[i]);
      var path :| Chain(EdgesOf(heap), roots[r], path, keys[i]);
      ChainSaved(heap, nodes, keys, positions[r], path, keys[i]);
      var j :| 0 <= j < |keys| && keys[j] == keys[i] && Reaches(NodeEdges(nodes), positions[r], j);
      assert j == i;
    } else if Used(nodes, positions, i) {
      PositionsInside(heap, nodes, keys, positions, i);
    }
  }

  lemma PositionsInside(heap: Heap, nodes: seq<Saved>, keys: seq<nat>, positions: seq<nat>, i: nat)
    requires Saves(heap, nodes, keys) && forall r :: 0 <= r < |positions| ==> positions[r] < |nodes|
    requires Used(nodes, positions, i)
    ensures i < |nodes|
  {
    hide Reaches;
    var all := UpTo(|nodes|);
    forall j, k | j in all && j < |nodes| && 0 <= k < |nodes[j].inputs| ensures nodes[j].inputs[k] in all {
      assert NodeSaves(heap[keys[j]], nodes[j], keys, j);
    }
    UsedInside(nodes, positions, all, i);
  }

  /** Too many cells are reachable to be saved. */
  ghost predicate ManyReached(heap: Heap, roots: seq<nat>) {
    exists cells: set<nat> :: |cells| > 100_000 && AllReached(heap, roots, cells)
  }

  ghost predicate AllReached(heap: Heap, roots: seq<nat>, cells: set<nat>) { forall k :: k in cells ==> ReachedFrom(heap, roots, k) }

  lemma ReachedMore(heap: Heap, roots: seq<nat>, root: nat, key: nat)
    ensures ReachedFrom(heap, roots, key) ==> ReachedFrom(heap, roots + [root], key)
    ensures Reaches(EdgesOf(heap), root, key) ==> ReachedFrom(heap, roots + [root], key)
  {
    hide Reaches;
    var more := roots + [root];
    if r :| 0 <= r < |roots| && Reaches(EdgesOf(heap), roots[r], key) {
      assert more[r] == roots[r];
    }
    assert more[|roots|] == root;
  }

  lemma TooManyReached(heap: Heap, roots: seq<nat>, root: nat, keys: seq<nat>)
    requires TooMany(heap, root, keys) && forall k :: k in keys ==> ReachedFrom(heap, roots, k)
    ensures ManyReached(heap, roots + [root])
  {
    hide Reaches, ReachedFrom;
    var cells: set<nat> :| |cells| > MAX_NODES && Among(heap, root, keys, cells);
    forall k | k in cells ensures ReachedFrom(heap, roots + [root], k) {
      ReachedMore(heap, roots, root, k);
    }
    assert AllReached(heap, roots + [root], cells);
  }

  /** Why the derivations of a row cannot be saved. */
  ghost predicate SaveFault(heap: Heap, roots: seq<nat>, error: Error) {
    || (error == UnsupportedValue && exists r :: 0 <= r < |roots| && (Cyclic(heap, roots[r]) || MeetsDifferentiated(heap, roots[r])))
    || (error == Limit && exists n :: 0 <= n <= |roots| && ManyReached(heap, roots[..n]))
  }

  /** `Encoder::evidence`, for the derivations of a value and its parts in the order it meets them: one list for all. */
  method SaveRoots(heap: Heap, roots: seq<nat>)
    returns (r: Result<seq<nat>>, nodes: seq<Saved>, ghost keys: seq<nat>)
    requires Closed(heap) && forall i :: 0 <= i < |roots| ==> roots[i] in heap
    ensures r.Ok? ==> RootsSaved(heap, roots, nodes, keys, r.value)
    ensures r.Err? ==> SaveFault(heap, roots, r.error)
  {
    hide Saves, Indexes, Reaches, TooMany, Cyclic, MeetsDifferentiated, ManyReached, ReachedFrom, Closed;
    nodes, keys := [], [];
    var known: map<nat, nat> := map[];
    var positions: seq<nat> := [];
    NothingSaved(heap);
    for n := 0 to |roots|
      invariant Saves(heap, nodes, keys) && Indexes(known, keys) && |positions| == n
      invariant forall i :: 0 <= i < n ==> positions[i] < |keys| && keys[positions[i]] == roots[i]
      invariant forall k :: k in keys ==> ReachedFrom(heap, roots[..n], k)
    {
      ghost var before := keys;
      var at;
      at, nodes, known, keys := SaveNode(heap, roots[n], nodes, known, keys);
      assert roots[..n + 1] == roots[..n] + [roots[n]];
      if at.Err? {
        if at.error == Limit && TooMany(heap, roots[n], before) {
          TooManyReached(heap, roots[..n], roots[n], before);
        }
        return Err(at.error), nodes, keys;
      }
      SavedLengths(heap, nodes, keys);
      forall k | k in keys ensures ReachedFrom(heap, roots[..n + 1], k) {
        ReachedMore(heap, roots[..n], roots[n], k);
      }
      positions := positions + [at.value];
    }
    assert roots[..|roots|] == roots;
    return Ok(positions), nodes, keys;
  }

  lemma NothingSaved(heap: Heap)
    ensures Saves(heap, [], []) && Indexes(map[], [])
  {}

  lemma SavedLengths(heap: Heap, nodes: seq<Saved>, keys: seq<nat>)
    requires Saves(heap, nodes, keys)
    ensures |keys| == |nodes|
  {}

  /**
   What a row's derivations are saved as is accepted and built again: every node is used, and the cells that are built are
   the original graph up to addresses, with each root at its position.
   */
  method RoundTrip(heap: Heap, roots: seq<nat>)
    returns (r: Result<seq<Derivation>>, positions: seq<nat>, ghost keys: seq<nat>)
    requires Closed(heap) && forall i :: 0 <= i < |roots| ==> roots[i] in heap
    requires forall k :: k in heap ==> FactsOk(heap[k].facts)
    ensures r.Ok? ==> Isomorphic(heap, keys, r.value) && |positions| == |roots|
                      && forall i :: 0 <= i < |roots| ==> positions[i] < |keys| && keys[positions[i]] == roots[i]
    ensures r.Err? ==> SaveFault(heap, roots, r.error)
  {
    hide Saves, Used, SaveFault, Isomorphic, FactsOk, Closed, ReachedFrom, NodeBuilds;
    var saved, nodes;
    saved, nodes, keys := SaveRoots(heap, roots);
    if saved.Err? {
      return Err(saved.error), [], keys;
    }
    positions := saved.value;
    SavedLengths(heap, nodes, keys);
    var used := MarkUsed(nodes, positions);
    forall i: nat ensures Used(nodes, positions, i) <==> i < |nodes| {
      SavedIsUsed(heap, roots, nodes, keys, positions, i);
    }
    Counted(used.value, |nodes|);
    assert |used.value| == |nodes|;
    BuiltIsSaved(heap, nodes, keys);
    r := Rebuild(nodes);
  }

  lemma {:induction false} Counted(s: set<nat>, n: nat)
    requires forall i: nat :: i in s <==> i < n
    ensures |s| == n
    decreases n
  {
    if n == 0 {
      assert s == {};
    } else {
      Counted(s - {n - 1}, n - 1);
    }
  }
}
