/** Derivations that share inputs, as the heap holds them: cells that name other cells by address. */
module Dag {
  import opened Bytes

  /** What a derivation records besides its inputs. The enumerations are numbered as the code numbers them. */
  datatype Facts = Facts(
    revision: nat, kind: nat, operation: bytes, text: bytes, routine: bytes, line: nat,
    exactness: nat, details: bytes, outcome: nat, reason: bytes)

  datatype Derivation = Derivation(facts: Facts, inputs: seq<nat>, differentiated: bool)

  type Heap = map<nat, Derivation>

  type Edges = map<nat, seq<nat>>

  function EdgesOf(heap: Heap): Edges { map k | k in heap :: heap[k].inputs }

  ghost predicate Closed(heap: Heap) {
    forall k, i :: k in heap && 0 <= i < |heap[k].inputs| ==> heap[k].inputs[i] in heap
  }

  predicate Edge(e: Edges, a: nat, b: nat) { a in e && b in e[a] }

  /** The steps of `path` lead from `a` to `b` along inputs. */
  predicate Chain(e: Edges, a: nat, path: seq<nat>, b: nat)
    decreases |path|
  {
    if path == [] then a == b else Edge(e, a, path[0]) && Chain(e, path[0], path[1..], b)
  }

  ghost predicate Reaches(e: Edges, a: nat, b: nat) { exists path :: Chain(e, a, path, b) }

  /** By at least one step. */
  ghost predicate Below(e: Edges, a: nat, b: nat) { exists path :: path != [] && Chain(e, a, path, b) }

  lemma {:induction false} ChainStep(e: Edges, a: nat, path: seq<nat>, b: nat, c: nat)
    requires Chain(e, a, path, b) && Edge(e, b, c)
    ensures Chain(e, a, path + [c], c)
    decreases |path|
  {
    if path == [] {
      assert [] + [c] == [c];
      assert Chain(e, c, [c][1..], c);
    } else {
      ChainStep(e, path[0], path[1..], b, c);
      assert (path + [c])[1..] == path[1..] + [c];
    }
  }

  lemma ReachesSelf(e: Edges, a: nat)
    ensures Reaches(e, a, a)
  {
    assert Chain(e, a, [], a);
  }

  lemma ReachesStep(e: Edges, a: nat, b: nat, c: nat)
    requires Reaches(e, a, b) && Edge(e, b, c)
    ensures Reaches(e, a, c) && Below(e, a, c)
  {
    var path :| Chain(e, a, path, b);
    ChainStep(e, a, path, b, c);
  }

  lemma BelowStep(e: Edges, a: nat, b: nat, c: nat)
    requires Below(e, a, b) && Edge(e, b, c)
    ensures Below(e, a, c)
  {
    var path :| path != [] && Chain(e, a, path, b);
    ChainStep(e, a, path, b, c);
  }

  lemma EdgeBelow(e: Edges, a: nat, b: nat)
    requires Edge(e, a, b)
    ensures Below(e, a, b)
  {
    ReachesSelf(e, a);
    ReachesStep(e, a, a, b);
  }

  /** A set that has `a` and the inputs of all it has, has all that `a` reaches. */
  lemma {:induction false} ClosedUnderChain(e: Edges, members: set<nat>, a: nat, path: seq<nat>, b: nat)
    requires a in members && Chain(e, a, path, b)
    requires forall k, i :: k in members && k in e && 0 <= i < |e[k]| ==> e[k][i] in members
    ensures b in members
    decreases |path|
  {
    if path != [] {
      var i :| 0 <= i < |e[a]| && e[a][i] == path[0];
      assert e[a][i] in members;
      ClosedUnderChain(e, members, path[0], path[1..], b);
    }
  }

  /** When every edge of some cells leads to a smaller rank, none of them is below itself. */
  lemma {:induction false} RanksFall(e: Edges, rank: map<nat, nat>, a: nat, path: seq<nat>, b: nat)
    requires a in rank && Chain(e, a, path, b)
    requires forall k, i :: k in rank && k in e && 0 <= i < |e[k]| ==> e[k][i] in rank && rank[e[k][i]] < rank[k]
    ensures b in rank && (path != [] ==> rank[b] < rank[a]) && (path == [] ==> b == a)
    decreases |path|
  {
    if path != [] {
      var i :| 0 <= i < |e[a]| && e[a][i] == path[0];
      assert e[a][i] in rank;
      RanksFall(e, rank, path[0], path[1..], b);
    }
  }

  /** What is known of each input, in order. */
  method LookUpAll<T>(known: map<nat, T>, inputs: seq<nat>) returns (found: seq<T>)
    requires forall i :: 0 <= i < |inputs| ==> inputs[i] in known
    ensures |found| == |inputs| && forall i :: 0 <= i < |inputs| ==> found[i] == known[inputs[i]]
  {
    found := [];
    for i := 0 to |inputs|
      invariant |found| == i && forall j :: 0 <= j < i ==> found[j] == known[inputs[j]]
    {
      found := found + [known[inputs[i]]];
    }
  }
}
