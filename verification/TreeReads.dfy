/** Reading a tree back: the validator's walk over the whole array and the traversal by one row (`trees.rs`). */
module TreeReads {
  import opened Bytes
  import opened Rules
  import opened Trees
  import opened TreeSplits

  const MAX_TREE := 131_071

  function Sum(counts: seq<nat>): nat {
    if counts == [] then 0 else Sum(counts[..|counts| - 1]) + counts[|counts| - 1]
  }

  /** The features of a model, and the number of labels when its leaves count labels. */
  datatype Model = Model(schema: seq<Feature>, labels: Option<nat>)

  predicate Named(schema: seq<Feature>, name: bytes, le: bool, constant: Value) {
    exists i :: 0 <= i < |schema| && schema[i].name == name && InKind(schema[i].kind, constant) && schema[i].kind.Numbers? == le
  }

  /** What the validator asks of the node at `index`. */
  predicate NodeOk(m: Model, nodes: seq<Node>, index: nat)
    requires index < |nodes|
  {
    match nodes[index]
    case Unset => false
    case Leaf(count, labelCounts, value) =>
      && count != 0
      && if m.labels.Some? then |labelCounts| == m.labels.value && value.None? && Sum(labelCounts) == count
         else labelCounts == [] && value.Some?
    case Split(feature, le, constant, _, left, right, gain) =>
      && Named(m.schema, feature, le, constant) && gain > 0.0
      && index < left < |nodes| && index < right < |nodes| && left != right
  }

  /** How often a node has `child` as a child. */
  function Edges(node: Node, child: nat): nat {
    if !node.Split? then 0 else (if node.left == child then 1 else 0) + (if node.right == child then 1 else 0)
  }

  /** How many parents `child` has among the nodes. */
  function Parents(nodes: seq<Node>, child: nat): nat {
    if nodes == [] then 0 else Parents(nodes[..|nodes| - 1], child) + Edges(nodes[|nodes| - 1], child)
  }

  /** The nodes are a tree with its root first: every other node has one parent, before it. */
  ghost predicate ShapeOk(m: Model, nodes: seq<Node>) {
    && 0 < |nodes| <= 100_000
    && (forall i :: 0 <= i < |nodes| ==> NodeOk(m, nodes, i))
    && (forall i :: 0 < i < |nodes| ==> Parents(nodes, i) == 1)
  }

  // ----- the validator's walk

  function SeenParents(nodes: seq<Node>, seen: seq<bool>, child: nat): nat
    requires |seen| == |nodes|
  {
    if nodes == [] then 0 else
    var n := |nodes| - 1;
    SeenParents(nodes[..n], seen[..n], child) + if seen[n] then Edges(nodes[n], child) else 0
  }

  lemma {:induction false} SeenMore(nodes: seq<Node>, seen: seq<bool>, i: nat, child: nat)
    requires |seen| == |nodes| && i < |nodes| && !seen[i]
    ensures SeenParents(nodes, seen[i := true], child) == SeenParents(nodes, seen, child) + Edges(nodes[i], child)
    decreases |nodes|
  {
    var n := |nodes| - 1;
    var after := seen[i := true];
    if i < n {
      SeenMore(nodes[..n], seen[..n], i, child);
      assert after[..n] == seen[..n][i := true];
    } else {
      assert after[..n] == seen[..n];
    }
  }

  lemma {:induction false} SeenSome(nodes: seq<Node>, seen: seq<bool>, child: nat)
    requires |seen| == |nodes|
    ensures SeenParents(nodes, seen, child) <= Parents(nodes, child)
    ensures (forall i :: 0 <= i < |seen| ==> seen[i]) ==> SeenParents(nodes, seen, child) == Parents(nodes, child)
    decreases |nodes|
  {
    if nodes != [] {
      var n := |nodes| - 1;
      SeenSome(nodes[..n], seen[..n], child);
    }
  }

  lemma {:induction false} SeenNone(nodes: seq<Node>, seen: seq<bool>, child: nat)
    requires |seen| == |nodes| && forall i :: 0 <= i < |seen| ==> !seen[i] || Edges(nodes[i], child) == 0
    ensures SeenParents(nodes, seen, child) == 0
    decreases |nodes|
  {
    if nodes != [] {
      var n := |nodes| - 1;
      SeenNone(nodes[..n], seen[..n], child);
    }
  }

  lemma {:induction false} SeenParent(nodes: seq<Node>, seen: seq<bool>, parent: nat, child: nat)
    requires |seen| == |nodes| && parent < |nodes| && seen[parent] && Edges(nodes[parent], child) >= 1
    ensures SeenParents(nodes, seen, child) >= 1
    decreases |nodes|
  {
    var n := |nodes| - 1;
    if parent < n {
      SeenParent(nodes[..n], seen[..n], parent, child);
    }
  }

  lemma {:induction false} ParentOf(nodes: seq<Node>, child: nat) returns (parent: nat)
    requires Parents(nodes, child) >= 1
    ensures parent < |nodes| && Edges(nodes[parent], child) >= 1
    decreases |nodes|
  {
    var n := |nodes| - 1;
    if Edges(nodes[n], child) >= 1 {
      return n;
    }
    parent := ParentOf(nodes[..n], child);
  }

  /** Each node is reached once by each parent: on the stack until it is seen. */
  ghost predicate Balanced(nodes: seq<Node>, seen: seq<bool>, stack: seq<nat>)
    requires |seen| == |nodes|
  {
    forall i :: 0 <= i < |nodes| ==>
      SeenParents(nodes, seen, i) + (if i == 0 then 1 else 0) == (if seen[i] then 1 else 0) + multiset(stack)[i]
  }

  /** In a tree the walk cannot stop before it has seen a node. */
  lemma {:induction false} AllSeen(m: Model, nodes: seq<Node>, seen: seq<bool>, i: nat)
    requires ShapeOk(m, nodes) && |seen| == |nodes| && Balanced(nodes, seen, []) && i < |nodes|
    ensures seen[i]
    decreases i
  {
    hide NodeOk;
    if i > 0 {
      var parent := ParentOf(nodes, i);
      ChildAfter(m, nodes, parent, i);
      AllSeen(m, nodes, seen, parent);
      SeenParent(nodes, seen, parent, i);
    }
  }

  lemma ChildAfter(m: Model, nodes: seq<Node>, parent: nat, child: nat)
    requires parent < |nodes| && NodeOk(m, nodes, parent) && Edges(nodes[parent], child) >= 1
    ensures parent < child < |nodes|
  {}

  /** A node met again has two parents. */
  lemma MetAgain(m: Model, nodes: seq<Node>, seen: seq<bool>, stack: seq<nat>, index: nat)
    requires |seen| == |nodes| && Balanced(nodes, seen, stack) && index < |nodes| && seen[index] && index in stack
    requires forall i :: 0 <= i < |nodes| && seen[i] ==> NodeOk(m, nodes, i)
    ensures !ShapeOk(m, nodes)
  {
    hide NodeOk, Parents, SeenParents;
    assert multiset(stack)[index] >= 1;
    SeenSome(nodes, seen, index);
    forall i | 0 <= i < |nodes| && seen[i] ensures Edges(nodes[i], 0) == 0 {
      if Edges(nodes[i], 0) >= 1 { ChildAfter(m, nodes, i, 0); }
    }
    SeenNone(nodes, seen, 0);
  }

  lemma Popped(nodes: seq<Node>, seen: seq<bool>, stack: seq<nat>, index: nat, node: Node)
    requires |seen| == |nodes| && Balanced(nodes, seen, stack) && stack != [] && stack[|stack| - 1] == index < |nodes| && !seen[index]
    requires node == nodes[index]
    ensures var rest := stack[..|stack| - 1];
            Balanced(nodes, seen[index := true], if node.Split? then rest + [node.right] + [node.left] else rest)
  {
    hide SeenParents;
    var rest := stack[..|stack| - 1];
    assert stack == rest + [index];
    var after := seen[index := true];
    forall i | 0 <= i < |nodes| ensures SeenParents(nodes, after, i) == SeenParents(nodes, seen, i) + Edges(node, i) {
      SeenMore(nodes, seen, index, i);
    }
  }

  lemma {:induction false} Started(nodes: seq<Node>)
    ensures var seen := seq(|nodes|, _ => false); Balanced(nodes, seen, [0])
  {
    var seen := seq(|nodes|, _ => false);
    forall i | 0 <= i < |nodes| ensures SeenParents(nodes, seen, i) == 0 {
      SeenNone(nodes, seen, i);
    }
  }

  function Unseen(seen: seq<bool>): nat {
    if seen == [] then 0 else Unseen(seen[..|seen| - 1]) + if seen[|seen| - 1] then 0 else 1
  }

  lemma {:induction false} FewerUnseen(seen: seq<bool>, i: nat)
    requires i < |seen| && !seen[i]
    ensures Unseen(seen[i := true]) < Unseen(seen)
    decreases |seen|
  {
    var n := |seen| - 1;
    if i < n {
      FewerUnseen(seen[..n], i);
      assert seen[i := true][..n] == seen[..n][i := true];
    } else {
      assert seen[i := true][..n] == seen[..n];
    }
  }

  /** The node walk of `validate_model_shape`: it accepts exactly the arrays that are trees. */
  method Validate(m: Model, nodes: seq<Node>) returns (ok: bool)
    ensures ok <==> ShapeOk(m, nodes)
  {
    hide NodeOk, Parents, SeenParents, Unseen, Balanced;
    if |nodes| == 0 || |nodes| > MAX_TREE || |nodes| > MAX_NODES {
      return false;
    }
    var seen := seq(|nodes|, _ => false);
    var stack: seq<nat> := [0];
    Started(nodes);
    while stack != []
      invariant |seen| == |nodes| && Balanced(nodes, seen, stack)
      invariant forall i :: 0 <= i < |stack| ==> stack[i] < |nodes|
      invariant forall i :: 0 <= i < |nodes| && seen[i] ==> NodeOk(m, nodes, i)
      decreases Unseen(seen)
    {
      var index := stack[|stack| - 1];
      if seen[index] {
        MetAgain(m, nodes, seen, stack, index);
        return false;
      }
      var node := nodes[index];
      if !NodeOk(m, nodes, index) {
        return false;
      }
      Popped(nodes, seen, stack, index, node);
      FewerUnseen(seen, index);
      stack := stack[..|stack| - 1];
      seen := seen[index := true];
      if node.Split? {
        ChildrenInside(m, nodes, index);
        stack := stack + [node.right] + [node.left];
      }
    }
    for i := 0 to |nodes|
      invariant forall k :: 0 <= k < i ==> seen[k]
    {
      if !seen[i] {
        if ShapeOk(m, nodes) { AllSeen(m, nodes, seen, i); }
        return false;
      }
    }
    AcceptedShape(m, nodes, seen);
    return true;
  }

  lemma ChildrenInside(m: Model, nodes: seq<Node>, index: nat)
    requires index < |nodes| && NodeOk(m, nodes, index) && nodes[index].Split?
    ensures nodes[index].left < |nodes| && nodes[index].right < |nodes|
  {}

  lemma AcceptedShape(m: Model, nodes: seq<Node>, seen: seq<bool>)
    requires |seen| == |nodes| && Balanced(nodes, seen, []) && 0 < |nodes| <= MAX_NODES
    requires forall i :: 0 <= i < |nodes| ==> seen[i] && NodeOk(m, nodes, i)
    ensures ShapeOk(m, nodes)
  {
    hide NodeOk, Parents, SeenParents;
    forall i | 0 < i < |nodes| ensures Parents(nodes, i) == 1 {
      SeenSome(nodes, seen, i);
    }
  }

  // ----- the traversal

  /** Which way a row goes at a split, or why it cannot. */
  function Choice(node: Node, row: Features): Result<bool>
    requires node.Split?
  {
    var value := if node.feature in row then row[node.feature] else Value.Null;
    if value.Null? then Ok(node.missingLeft)
    else if node.le then
      if !value.Number? then Err(Type) else if !node.constant.Number? then Err(Schema)
      else Ok(value.rank <= node.constant.rank)
    else if value.Number? != node.constant.Number? || value.Boolean? != node.constant.Boolean? || value.Text? != node.constant.Text?
    then Err(Type) else Ok(value == node.constant)
  }

  /** The leaf a row is sent to. */
  function Walk(nodes: seq<Node>, row: Features, index: nat): (r: Result<nat>)
    ensures r.Ok? ==> r.value < |nodes| && nodes[r.value].Leaf?
    decreases |nodes| - index
  {
    if index >= |nodes| then Err(Schema) else
    var node := nodes[index];
    if node.Leaf? then Ok(index) else if node.Unset? then Err(Schema) else
    var left := Choice(node, row);
    if left.Err? then Err(left.error) else
    var next := if left.value then node.left else node.right;
    if next <= index || next >= |nodes| then Err(Schema) else Walk(nodes, row, next)
  }

  datatype Step = Step(node: nat, wentLeft: bool)

  function After(nodes: seq<Node>, step: Step): nat {
    if step.node < |nodes| && nodes[step.node].Split?
    then if step.wentLeft then nodes[step.node].left else nodes[step.node].right
    else 0
  }

  /** The steps lead from `index` to `end`, each to a later node. */
  predicate Leads(nodes: seq<Node>, index: nat, path: seq<Step>, end: nat) {
    if path == [] then index == end
    else path[|path| - 1].node < end == After(nodes, path[|path| - 1])
         && Leads(nodes, index, path[..|path| - 1], path[|path| - 1].node)
  }

  /** `traverse`: the loop never runs out, because each step goes to a later node. */
  method Traverse(nodes: seq<Node>, row: Features) returns (r: Result<nat>, path: seq<Step>)
    ensures r == if 0 < |nodes| <= MAX_TREE then Walk(nodes, row, 0) else Err(Schema)
    ensures r.Ok? ==> Leads(nodes, 0, path, r.value)
  {
    hide Choice;
    path := [];
    if |nodes| == 0 || |nodes| > MAX_TREE {
      return Err(Schema), path;
    }
    var index: nat := 0;
    for i := 0 to |nodes| + 1
      invariant index < |nodes| && i <= index
      invariant Walk(nodes, row, 0) == Walk(nodes, row, index)
      invariant Leads(nodes, 0, path, index)
    {
      var node := nodes[index];
      if node.Leaf? {
        return Ok(index), path;
      }
      if node.Unset? {
        return Err(Schema), path;
      }
      var left := Choice(node, row);
      if left.Err? {
        return Err(left.error), path;
      }
      var next := if left.value then node.left else node.right;
      if next <= index || next >= |nodes| {
        return Err(Schema), path;
      }
      ghost var longer := path + [Step(index, left.value)];
      assert longer[..|longer| - 1] == path;
      path := path + [Step(index, left.value)];
      index := next;
    }
    return Err(Schema), path;
  }

  /** A validated tree answers every row whose features have their kinds. */
  lemma {:induction false} ValidatedAnswers(m: Model, nodes: seq<Node>, row: Features, index: nat)
    requires ShapeOk(m, nodes) && index < |nodes|
    requires forall i :: 0 <= i < |m.schema| && m.schema[i].name in row ==> ValueOk(m.schema[i], row[m.schema[i].name])
    requires forall i, j :: 0 <= i < j < |m.schema| ==> m.schema[i].name != m.schema[j].name
    ensures Walk(nodes, row, index).Ok?
    decreases |nodes| - index
  {
    hide ShapeOk, Choice, NodeOk;
    assert NodeOk(m, nodes, index) by { NodeOf(m, nodes, index); }
    if nodes[index].Split? {
      ChoiceMade(m, nodes, row, index);
      var next := if Choice(nodes[index], row).value then nodes[index].left else nodes[index].right;
      ValidatedAnswers(m, nodes, row, next);
    } else {
      NotUnset(m, nodes, index);
    }
  }

  lemma NodeOf(m: Model, nodes: seq<Node>, index: nat)
    requires ShapeOk(m, nodes) && index < |nodes|
    ensures NodeOk(m, nodes, index)
  {
    hide NodeOk;
  }

  lemma NotUnset(m: Model, nodes: seq<Node>, index: nat)
    requires index < |nodes| && NodeOk(m, nodes, index)
    ensures !nodes[index].Unset?
  {}

  lemma ChoiceMade(m: Model, nodes: seq<Node>, row: Features, index: nat)
    requires index < |nodes| && NodeOk(m, nodes, index) && nodes[index].Split?
    requires forall i :: 0 <= i < |m.schema| && m.schema[i].name in row ==> ValueOk(m.schema[i], row[m.schema[i].name])
    ensures Choice(nodes[index], row).Ok?
    ensures index < nodes[index].left < |nodes| && index < nodes[index].right < |nodes|
  {}
}
