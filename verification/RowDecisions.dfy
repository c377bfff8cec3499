/** The filters that a row of a result came through, read from the saved nodes (`row_decisions` in `dataset_snapshot.rs`). */
module RowDecisions {
  import opened Bytes
  import opened Dag
  import opened DagIdentity
  import opened DagPaths

  /** A filter that the row passed, with the node of the predicate that let it pass. */
  datatype Passed = Passed(decider: Option<bytes>)

  predicate FilterRow(n: Node) { n.operation == FILTER && n.details == DATASET_ROW }

  function PassedBy(n: Node): Passed { Passed(if |n.inputIds| > 1 then Some(n.inputIds[1]) else None) }

  /** The positions of a node's inputs. */
  ghost function NodeEdges(nodes: seq<Node>, position: map<bytes, nat>): (e: Edges)
    requires Resolved(nodes, position)
    ensures forall i :: i in e <==> 0 <= i < |nodes|
    ensures forall i :: i in e ==> |e[i]| == |nodes[i].inputIds|
    ensures forall i, j :: i in e && 0 <= j < |e[i]| ==> nodes[i].inputIds[j] in position && e[i][j] == position[nodes[i].inputIds[j]]
  {
    map i: nat | i < |nodes| ::
      seq(|nodes[i].inputIds|, j requires 0 <= j < |nodes[i].inputIds| && i < |nodes| => position[nodes[i].inputIds[j]])
  }

  /** The filters among the first `n` nodes that the root reaches, in order. */
  ghost function PassedUpTo(nodes: seq<Node>, position: map<bytes, nat>, root: nat, n: nat): seq<Passed>
    requires Resolved(nodes, position) && n <= |nodes|
  {
    if n == 0 then [] else
    PassedUpTo(nodes, position, root, n - 1)
    + if Reaches(NodeEdges(nodes, position), root, n - 1) && FilterRow(nodes[n - 1]) then [PassedBy(nodes[n - 1])] else []
  }

  /** A filter row that the root reaches did not pass. */
  ghost predicate Failing(nodes: seq<Node>, position: map<bytes, nat>, root: nat)
    requires Resolved(nodes, position)
  {
    exists i: nat :: i < |nodes| && Reaches(NodeEdges(nodes, position), root, i) && FilterRow(nodes[i]) && nodes[i].reason != TRUE
  }

  // ----- the walk

  ghost predicate Found(nodes: seq<Node>, position: map<bytes, nat>, root: nat, ids: set<bytes>)
    requires Resolved(nodes, position)
  {
    forall id :: id in ids ==> id in position && position[id] < |nodes| && Reaches(NodeEdges(nodes, position), root, position[id])
  }

  function Members(stack: seq<bytes>): set<bytes> { set id | id in stack }

  /** The inputs of all that was taken are taken or wait on the stack. */
  ghost predicate Waiting(nodes: seq<Node>, position: map<bytes, nat>, taken: set<bytes>, stack: seq<bytes>) {
    forall id, input :: id in taken && id in position && position[id] < |nodes| && input in nodes[position[id]].inputIds ==>
      input in taken || input in stack
  }

  /** How many inputs the first `n` nodes have, of those that were taken. */
  ghost function TakenWork(nodes: seq<Node>, taken: set<bytes>, n: nat): nat
    requires n <= |nodes|
  {
    if n == 0 then 0 else TakenWork(nodes, taken, n - 1) + if nodes[n - 1].id in taken then |nodes[n - 1].inputIds| else 0
  }

  /** How many inputs the first `n` nodes have, of those that the root reaches. */
  ghost function ReachWork(nodes: seq<Node>, position: map<bytes, nat>, root: nat, n: nat): nat
    requires Resolved(nodes, position) && n <= |nodes|
  {
    if n == 0 then 0 else
    ReachWork(nodes, position, root, n - 1) + if Reaches(NodeEdges(nodes, position), root, n - 1) then |nodes[n - 1].inputIds| else 0
  }

  lemma {:induction false} TakenMore(nodes: seq<Node>, position: map<bytes, nat>, taken: set<bytes>, id: bytes, n: nat)
    requires Resolved(nodes, position) && Positions(nodes, position) && id in position && id !in taken && n <= |nodes|
    ensures position[id] < |nodes|
    ensures TakenWork(nodes, taken + {id}, n)
         == TakenWork(nodes, taken, n) + if position[id] < n then |nodes[position[id]].inputIds| else 0
  {
    if n > 0 {
      TakenMore(nodes, position, taken, id, n - 1);
      assert nodes[n - 1].id == id <==> position[id] == n - 1;
    }
  }

  lemma {:induction false} TakenReach(nodes: seq<Node>, position: map<bytes, nat>, root: nat, taken: set<bytes>, n: nat)
    requires Resolved(nodes, position) && n <= |nodes|
    requires forall i: nat :: i < |nodes| && nodes[i].id in taken ==> Reaches(NodeEdges(nodes, position), root, i)
    ensures TakenWork(nodes, taken, n) <= ReachWork(nodes, position, root, n)
    ensures (forall i: nat :: i < |nodes| && Reaches(NodeEdges(nodes, position), root, i) ==> nodes[i].id in taken)
            ==> TakenWork(nodes, taken, n) == ReachWork(nodes, position, root, n)
  {
    hide Resolved, Reaches;
    if n > 0 {
      TakenReach(nodes, position, root, taken, n - 1);
    }
  }

  lemma FoundReach(nodes: seq<Node>, position: map<bytes, nat>, root: nat, taken: set<bytes>)
    requires Resolved(nodes, position) && Found(nodes, position, root, taken)
    ensures forall i: nat :: i < |nodes| && nodes[i].id in taken ==> Reaches(NodeEdges(nodes, position), root, i)
  {
    hide Reaches;
  }

  lemma {:induction false} NoneTaken(nodes: seq<Node>, n: nat)
    requires n <= |nodes|
    ensures TakenWork(nodes, {}, n) == 0
  {
    if n > 0 {
      NoneTaken(nodes, n - 1);
    }
  }

  /** The nodes below a root, on a budget of visits: one for the root and one for each input of what it reaches. */
  method ReachableFrom(nodes: seq<Node>, position: map<bytes, nat>, root: bytes, budget: nat)
    returns (ok: bool, taken: set<bytes>, remaining: nat)
    requires Resolved(nodes, position) && Positions(nodes, position) && root in position
    ensures ok ==> forall i: nat :: i < |nodes| ==> (nodes[i].id in taken <==> Reaches(NodeEdges(nodes, position), position[root], i))
    ensures ok <==> budget > ReachWork(nodes, position, position[root], |nodes|)
    ensures remaining == if ok then budget - 1 - ReachWork(nodes, position, position[root], |nodes|) else 0
  {
    hide Resolved, Reaches, Found, Waiting, TakenWork, ReachWork;
    taken, remaining := {}, budget;
    var stack := [root];
    NoneTaken(nodes, |nodes|);
    RootFound(nodes, position, root);
    while stack != []
      invariant remaining <= budget && budget - remaining + |stack| == 1 + TakenWork(nodes, taken, |nodes|)
      invariant Found(nodes, position, position[root], taken) && Found(nodes, position, position[root], Members(stack))
      invariant Waiting(nodes, position, taken, stack) && (root in taken || root in stack)
      decreases remaining
    {
      if remaining == 0 {
        FoundReach(nodes, position, position[root], taken);
        TakenReach(nodes, position, position[root], taken, |nodes|);
        return false, taken, remaining;
      }
      remaining := remaining - 1;
      var n := |stack| - 1;
      var id := stack[n];
      if id in taken {
        Dropped(nodes, position, position[root], taken, stack);
        stack := stack[..n];
        continue;
      }
      Taken(nodes, position, position[root], taken, stack);
      TakenMore(nodes, position, taken, id, |nodes|);
      taken := taken + {id};
      stack := stack[..n] + nodes[position[id]].inputIds;
    }
    AllTaken(nodes, position, root, taken);
    TakenReach(nodes, position, position[root], taken, |nodes|);
    return true, taken, remaining;
  }

  lemma RootFound(nodes: seq<Node>, position: map<bytes, nat>, root: bytes)
    requires Resolved(nodes, position) && Positions(nodes, position) && root in position
    ensures Found(nodes, position, position[root], {}) && Found(nodes, position, position[root], Members([root]))
    ensures Waiting(nodes, position, {}, [root])
  {
    ReachesSelf(NodeEdges(nodes, position), position[root]);
  }

  lemma Dropped(nodes: seq<Node>, position: map<bytes, nat>, root: nat, taken: set<bytes>, stack: seq<bytes>)
    requires Resolved(nodes, position) && stack != [] && stack[|stack| - 1] in taken
    requires Found(nodes, position, root, Members(stack)) && Waiting(nodes, position, taken, stack)
    ensures Found(nodes, position, root, Members(stack[..|stack| - 1]))
    ensures Waiting(nodes, position, taken, stack[..|stack| - 1])
    ensures forall id :: id in stack ==> id in taken || id in stack[..|stack| - 1]
  {
    hide Resolved, Reaches;
    assert stack == stack[..|stack| - 1] + [stack[|stack| - 1]];
  }

  lemma Taken(nodes: seq<Node>, position: map<bytes, nat>, root: nat, taken: set<bytes>, stack: seq<bytes>)
    requires Resolved(nodes, position) && Positions(nodes, position) && stack != []
    requires Found(nodes, position, root, taken) && Found(nodes, position, root, Members(stack))
    requires Waiting(nodes, position, taken, stack)
    ensures var id := stack[|stack| - 1];
            && id in position && position[id] < |nodes|
            && var after := stack[..|stack| - 1] + nodes[position[id]].inputIds;
            && Found(nodes, position, root, taken + {id}) && Found(nodes, position, root, Members(after))
            && Waiting(nodes, position, taken + {id}, after)
            && forall x :: x in stack ==> x == id || x in after
  {
    hide Reaches;
    var n := |stack| - 1;
    var id := stack[n];
    var e := NodeEdges(nodes, position);
    assert id in stack;
    assert stack == stack[..n] + [id];
    var i := position[id];
    forall j | 0 <= j < |nodes[i].inputIds|
      ensures var x := nodes[i].inputIds[j]; x in position && position[x] < |nodes| && Reaches(e, root, position[x])
    {
      assert e[i][j] == position[nodes[i].inputIds[j]];
      assert Edge(e, i, e[i][j]);
      ReachesStep(e, root, i, e[i][j]);
    }
  }

  lemma AllTaken(nodes: seq<Node>, position: map<bytes, nat>, root: bytes, taken: set<bytes>)
    requires Resolved(nodes, position) && Positions(nodes, position) && root in position && root in taken
    requires Found(nodes, position, position[root], taken) && Waiting(nodes, position, taken, [])
    ensures forall i: nat :: i < |nodes| ==> (nodes[i].id in taken <==> Reaches(NodeEdges(nodes, position), position[root], i))
  {
    var e := NodeEdges(nodes, position);
    var members := set i: nat | i < |nodes| && nodes[i].id in taken;
    forall k, j | k in members && k in e && 0 <= j < |e[k]| ensures e[k][j] in members {
      assert nodes[k].inputIds[j] in nodes[position[nodes[k].id]].inputIds;
      assert nodes[e[k][j]].id == nodes[k].inputIds[j];
    }
    forall i: nat | i < |nodes| ensures nodes[i].id in taken <==> Reaches(e, position[root], i) {
      if path: seq<nat> :| Chain(e, position[root], path, i) {
        ClosedUnderChain(e, members, position[root], path, i);
      }
      if nodes[i].id in taken {
        assert position[nodes[i].id] == i;
      }
    }
  }

  /** `row_decisions`: the filters below a row, in the order of their nodes. */
  method DecisionsOfRow(nodes: seq<Node>, position: map<bytes, nat>, root: bytes, budget: nat)
    returns (r: Result<seq<Passed>>, remaining: nat)
    requires Resolved(nodes, position) && Positions(nodes, position) && root in position
    ensures r == if budget <= ReachWork(nodes, position, position[root], |nodes|) then Err(Limit)
                 else if Failing(nodes, position, position[root]) then Err(Corruption)
                 else Ok(PassedUpTo(nodes, position, position[root], |nodes|))
    ensures r.Ok? ==> remaining == budget - 1 - ReachWork(nodes, position, position[root], |nodes|)
  {
    hide Resolved, Reaches, FilterRow, ReachWork;
    var ok, taken, left := ReachableFrom(nodes, position, root, budget);
    remaining := left;
    if !ok {
      return Err(Limit), remaining;
    }
    // the code sorts the positions it took; this is that order
    var decisions: seq<Passed> := [];
    for i := 0 to |nodes|
      invariant decisions == PassedUpTo(nodes, position, position[root], i)
      invariant forall k: nat :: k < i && Reaches(NodeEdges(nodes, position), position[root], k) && FilterRow(nodes[k]) ==> nodes[k].reason == TRUE
    {
      if nodes[i].id in taken && FilterRow(nodes[i]) {
        if nodes[i].reason != TRUE {
          return Err(Corruption), remaining;
        }
        decisions := decisions + [PassedBy(nodes[i])];
      }
    }
    return Ok(decisions), remaining;
  }

  // ----- the saved nodes and the derivation reach the same

  lemma {:induction false} NodesFollow(
    heap: Heap, namer: Namer, nodes: seq<Node>, rank: map<nat, nat>, keys: seq<nat>, position: map<bytes, nat>,
    a: nat, path: seq<nat>, b: nat)
    requires Ledger(heap, namer, nodes, rank, keys) && Resolved(nodes, position) && a in rank
    requires Chain(EdgesOf(heap), a, path, b)
    ensures b in rank && Reaches(NodeEdges(nodes, position), rank[a], rank[b])
    decreases |path|
  {
    var (e, saved) := (EdgesOf(heap), NodeEdges(nodes, position));
    if path == [] {
      ReachesSelf(saved, rank[a]);
    } else {
      var next := path[0];
      var j :| 0 <= j < |e[a]| && e[a][j] == next;
      InputPosition(heap, namer, nodes, rank, keys, position, a, j);
      NodesFollow(heap, namer, nodes, rank, keys, position, next, path[1..], b);
      ReachesFirst(saved, rank[a], rank[next], rank[b]);
    }
  }

  lemma {:induction false} DerivationFollows(
    heap: Heap, namer: Namer, nodes: seq<Node>, rank: map<nat, nat>, keys: seq<nat>, position: map<bytes, nat>,
    a: nat, path: seq<nat>, b: nat)
    requires Ledger(heap, namer, nodes, rank, keys) && Resolved(nodes, position) && a in rank && b in rank
    requires Chain(NodeEdges(nodes, position), rank[a], path, rank[b])
    ensures Reaches(EdgesOf(heap), a, b)
    decreases |path|
  {
    var (e, saved) := (EdgesOf(heap), NodeEdges(nodes, position));
    if path == [] {
      assert keys[rank[a]] == a && keys[rank[b]] == b;
      ReachesSelf(e, a);
    } else {
      var i := rank[a];
      var j :| 0 <= j < |saved[i]| && saved[i][j] == path[0];
      var next := heap[a].inputs[j];
      InputPosition(heap, namer, nodes, rank, keys, position, a, j);
      DerivationFollows(heap, namer, nodes, rank, keys, position, next, path[1..], b);
      ReachesFirst(e, a, next, b);
    }
  }

  lemma ReachesFirst(e: Edges, a: nat, b: nat, c: nat)
    requires Edge(e, a, b) && Reaches(e, b, c)
    ensures Reaches(e, a, c)
  {
    var path :| Chain(e, b, path, c);
    assert ([b] + path)[1..] == path;
    assert Chain(e, a, [b] + path, c);
  }

  lemma InputPosition(
    heap: Heap, namer: Namer, nodes: seq<Node>, rank: map<nat, nat>, keys: seq<nat>, position: map<bytes, nat>, a: nat, j: nat)
    requires Ledger(heap, namer, nodes, rank, keys) && Resolved(nodes, position) && a in rank
    ensures a in heap && rank[a] < |nodes| && |nodes[rank[a]].inputIds| == |heap[a].inputs|
    ensures j < |heap[a].inputs| ==>
              && heap[a].inputs[j] in rank && Edge(EdgesOf(heap), a, heap[a].inputs[j])
              && NodeEdges(nodes, position)[rank[a]][j] == rank[heap[a].inputs[j]]
              && Edge(NodeEdges(nodes, position), rank[a], rank[heap[a].inputs[j]])
  {
    assert Names(heap, namer, nodes, rank, a);
    if j < |heap[a].inputs| {
      var input := heap[a].inputs[j];
      assert nodes[rank[a]].inputIds[j] == nodes[rank[input]].id;
      assert NodeEdges(nodes, position)[rank[a]][j] == position[nodes[rank[input]].id];
      assert EdgesOf(heap)[a][j] == input;
    }
  }

  /** One node reaches another if and only if the one's cell reaches the other's: the filters read back are those of the derivation. */
  lemma ReachAgrees(
    heap: Heap, namer: Namer, nodes: seq<Node>, rank: map<nat, nat>, keys: seq<nat>, position: map<bytes, nat>, a: nat, b: nat)
    requires Ledger(heap, namer, nodes, rank, keys) && Resolved(nodes, position) && a in rank && b in rank
    ensures Reaches(NodeEdges(nodes, position), rank[a], rank[b]) <==> Reaches(EdgesOf(heap), a, b)
    ensures b in heap && rank[b] < |nodes|
    ensures FilterRow(nodes[rank[b]]) <==> heap[b].facts.operation == FILTER && heap[b].facts.details == DATASET_ROW
  {
    hide FilterRow;
    if path: seq<nat> :| Chain(EdgesOf(heap), a, path, b) {
      NodesFollow(heap, namer, nodes, rank, keys, position, a, path, b);
    }
    if path: seq<nat> :| Chain(NodeEdges(nodes, position), rank[a], path, rank[b]) {
      DerivationFollows(heap, namer, nodes, rank, keys, position, a, path, b);
    }
    SameFilter(heap, namer, nodes, rank, keys, b);
  }

  lemma SameFilter(heap: Heap, namer: Namer, nodes: seq<Node>, rank: map<nat, nat>, keys: seq<nat>, b: nat)
    requires Ledger(heap, namer, nodes, rank, keys) && b in rank
    ensures b in heap && rank[b] < |nodes|
    ensures FilterRow(nodes[rank[b]]) <==> heap[b].facts.operation == FILTER && heap[b].facts.details == DATASET_ROW
  {
    assert Names(heap, namer, nodes, rank, b);
  }
}
