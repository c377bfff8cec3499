/** Growth, validation and traversal agree: what `build` lays out is a tree whose leaves are what traversal makes of them. */
module TreeTheorems {
  import opened Bytes
  import opened Rules
  import opened Trees
  import opened TreeSplits
  import opened TreeReads
  import Seqs

  // ----- where traversal sends a row, on the tree

  predicate GoesTo(f: Feature, constant: Value, missingLeft: bool, row: Features) {
    f.name in row && GoesLeft(row[f.name], f, constant, missingLeft)
  }

  /** The index of the leaf that a row reaches in a tree laid out from `at` on. */
  function Reached(tree: Tree, at: nat, row: Features): (leaf: nat)
    ensures at <= leaf < at + Count(tree)
  {
    match tree
    case Tip(_) => at
    case Fork(f, constant, missingLeft, _, left, right) =>
      if GoesTo(f, constant, missingLeft, row) then Reached(left, at + 1, row) else Reached(right, at + 1 + Count(left), row)
  }

  /** The splits of a tree are of features of the schema, with constants of their kinds. */
  ghost predicate SplitsOk(schema: seq<Feature>, tree: Tree) {
    tree.Fork? ==>
      && tree.feature in schema && InKind(tree.feature.kind, tree.constant) && tree.gain > 0.0
      && SplitsOk(schema, tree.left) && SplitsOk(schema, tree.right)
  }

  ghost predicate TipsAreLeaves(tree: Tree) {
    if tree.Tip? then tree.leaf.Leaf? else TipsAreLeaves(tree.left) && TipsAreLeaves(tree.right)
  }

  lemma {:induction false} GrownSplits(t: Task, tree: Tree, here: nat, rows: seq<nat>, depth: nat)
    requires RowsOk(t, rows) && Grown(t, tree, here, rows, depth)
    ensures SplitsOk(t.schema, tree) && TipsAreLeaves(tree)
  {
    hide Side, GainOf, NoneAbove, Chosen, Count;
    if tree.Fork? {
      GrownSplits(t, tree.left, here + 1, Side(t, rows, tree.feature, tree.constant, tree.missingLeft, true), depth + 1);
      GrownSplits(t, tree.right, here + 1 + Count(tree.left), Side(t, rows, tree.feature, tree.constant, tree.missingLeft, false), depth + 1);
    }
  }

  /** The nodes from `at` on are the layout of the tree. */
  predicate Holds(nodes: seq<Node>, at: nat, tree: Tree) {
    at + Count(tree) <= |nodes| && nodes[at..at + Count(tree)] == Flatten(tree, at)
  }

  lemma Cut<T>(s: seq<T>, at: nat, x: T, left: seq<T>, right: seq<T>)
    requires at + 1 + |left| + |right| <= |s| && s[at..at + 1 + |left| + |right|] == [x] + left + right
    ensures s[at] == x && s[at + 1..at + 1 + |left|] == left
    ensures s[at + 1 + |left|..at + 1 + |left| + |right|] == right
  {
    var whole := s[at..at + 1 + |left| + |right|];
    assert |whole| == 1 + |left| + |right|;
    assert forall i :: 0 <= i < |whole| ==> s[at + i] == whole[i];
    forall i | 0 <= i < |left| ensures s[at + 1 + i] == left[i] {
      assert whole[1 + i] == left[i];
    }
    forall i | 0 <= i < |right| ensures s[at + 1 + |left| + i] == right[i] {
      assert whole[1 + |left| + i] == right[i];
    }
    assert s[at] == whole[0];
  }

  lemma HoldsParts(nodes: seq<Node>, at: nat, tree: Tree)
    requires tree.Fork? && Holds(nodes, at, tree)
    ensures nodes[at] == Split(tree.feature.name, tree.feature.kind.Numbers?, tree.constant, tree.missingLeft,
                               at + 1, at + 1 + Count(tree.left), tree.gain)
    ensures Holds(nodes, at + 1, tree.left) && Holds(nodes, at + 1 + Count(tree.left), tree.right)
  {
    hide Flatten;
    FlattenFork(tree, at);
    var (left, right) := (Flatten(tree.left, at + 1), Flatten(tree.right, at + 1 + Count(tree.left)));
    var split := Split(tree.feature.name, tree.feature.kind.Numbers?, tree.constant, tree.missingLeft,
                       at + 1, at + 1 + Count(tree.left), tree.gain);
    assert |left| == Count(tree.left) && |right| == Count(tree.right);
    Cut(nodes, at, split, left, right);
  }

  lemma ChoiceIsGoesTo(schema: seq<Feature>, tree: Tree, node: Node, row: Features)
    requires tree.Fork? && tree.feature in schema && InKind(tree.feature.kind, tree.constant) && RowOk(schema, row)
    requires node.Split? && node.feature == tree.feature.name && node.le == tree.feature.kind.Numbers?
    requires node.constant == tree.constant && node.missingLeft == tree.missingLeft
    ensures Choice(node, row) == Ok(GoesTo(tree.feature, tree.constant, tree.missingLeft, row))
  {
    var i :| 0 <= i < |schema| && schema[i] == tree.feature;
    assert schema[i].name in row && ValueOk(schema[i], row[schema[i].name]);
  }

  lemma Inside(nodes: seq<Node>, at: nat, tree: Tree)
    requires Holds(nodes, at, tree)
    ensures at + Count(tree) <= |nodes| && Count(tree) >= 1
  {
    hide Flatten;
  }

  /** Traversal of the array is descent of the tree. */
  lemma {:induction false} WalkDescends(schema: seq<Feature>, nodes: seq<Node>, at: nat, tree: Tree, row: Features)
    requires Holds(nodes, at, tree) && SplitsOk(schema, tree) && TipsAreLeaves(tree) && RowOk(schema, row)
    ensures Walk(nodes, row, at) == Ok(Reached(tree, at, row))
    decreases tree
  {
    hide Choice, GoesTo, RowOk, InKind, Flatten, Count, Holds;
    Inside(nodes, at, tree);
    if tree.Tip? {
      TipNode(nodes, at, tree);
    } else {
      HoldsParts(nodes, at, tree);
      Inside(nodes, at + 1, tree.left);
      Inside(nodes, at + 1 + Count(tree.left), tree.right);
      ChoiceIsGoesTo(schema, tree, nodes[at], row);
      if GoesTo(tree.feature, tree.constant, tree.missingLeft, row) {
        WalkDescends(schema, nodes, at + 1, tree.left, row);
      } else {
        WalkDescends(schema, nodes, at + 1 + Count(tree.left), tree.right, row);
      }
    }
  }

  // ----- every leaf is made of exactly the rows that traversal sends to it

  /** The rows, in order, that descend to `leaf`. */
  function Descending(t: Task, tree: Tree, at: nat, rows: seq<nat>, leaf: nat): seq<nat>
    requires RowsOk(t, rows)
  {
    if rows == [] then [] else
    var n := |rows| - 1;
    Descending(t, tree, at, rows[..n], leaf) + if Reached(tree, at, t.train[rows[n]]) == leaf then [rows[n]] else []
  }

  /** The rows, in order, that `traverse` sends to `leaf`. */
  function Arrivals(t: Task, nodes: seq<Node>, rows: seq<nat>, leaf: nat): seq<nat>
    requires RowsOk(t, rows)
  {
    if rows == [] then [] else
    var n := |rows| - 1;
    Arrivals(t, nodes, rows[..n], leaf) + if Walk(nodes, t.train[rows[n]], 0) == Ok(leaf) then [rows[n]] else []
  }

  lemma ReachedSide(t: Task, tree: Tree, at: nat, row: nat, leaf: nat, left: bool)
    requires row < |t.train| && tree.Fork?
    requires if left then at < leaf < at + 1 + Count(tree.left) else at + 1 + Count(tree.left) <= leaf
    ensures Reached(tree, at, t.train[row]) == leaf
       <==> RowLeft(t, row, tree.feature, tree.constant, tree.missingLeft) == left
            && leaf == if left then Reached(tree.left, at + 1, t.train[row])
                       else Reached(tree.right, at + 1 + Count(tree.left), t.train[row])
  {
    hide GoesLeft, Count;
  }

  /** Below a split, the rows that reach a leaf of one side are those of the rows on that side. */
  lemma {:induction false} DescendingSide(t: Task, tree: Tree, at: nat, rows: seq<nat>, leaf: nat, left: bool)
    requires RowsOk(t, rows) && tree.Fork?
    requires RowsOk(t, Side(t, rows, tree.feature, tree.constant, tree.missingLeft, left))
    requires if left then at < leaf < at + 1 + Count(tree.left) else at + 1 + Count(tree.left) <= leaf
    ensures (var side := Side(t, rows, tree.feature, tree.constant, tree.missingLeft, left);
             Descending(t, tree, at, rows, leaf)
             == if left then Descending(t, tree.left, at + 1, side, leaf)
                else Descending(t, tree.right, at + 1 + Count(tree.left), side, leaf))
    decreases |rows|
  {
    hide RowLeft, Count, Reached;
    if rows != [] {
      var n := |rows| - 1;
      var front := Side(t, rows[..n], tree.feature, tree.constant, tree.missingLeft, left);
      SideRows(t, rows[..n], tree.feature, tree.constant, tree.missingLeft, left);
      DescendingSide(t, tree, at, rows[..n], leaf, left);
      ReachedSide(t, tree, at, rows[n], leaf, left);
      if RowLeft(t, rows[n], tree.feature, tree.constant, tree.missingLeft) == left {
        assert (front + [rows[n]])[..|front|] == front;
      } else {
        assert front + [] == front;
        assert Descending(t, tree, at, rows[..n], leaf) + [] == Descending(t, tree, at, rows[..n], leaf);
      }
    }
  }

  /** The leaf at `leaf` is the leaf of the rows that descend to it. */
  lemma {:induction false} LeafIsDescending(t: Task, tree: Tree, at: nat, nodes: seq<Node>, rows: seq<nat>, depth: nat, leaf: nat)
    requires RowsOk(t, rows) && Grown(t, tree, at, rows, depth) && Holds(nodes, at, tree)
    requires at <= leaf < at + Count(tree) && nodes[leaf].Leaf?
    ensures RowsOk(t, Descending(t, tree, at, rows, leaf)) && LeafOf(t, Descending(t, tree, at, rows, leaf), nodes[leaf])
    decreases tree
  {
    hide Side, GainOf, NoneAbove, Chosen, LeafOf, Flatten, Holds, Descending, RowsOk;
    if tree.Tip? {
      TipNode(nodes, at, tree);
      AllDescend(t, tree, at, rows);
    } else {
      HoldsParts(nodes, at, tree);
      var left := leaf < at + 1 + Count(tree.left);
      DescendingSide(t, tree, at, rows, leaf, left);
      var side := Side(t, rows, tree.feature, tree.constant, tree.missingLeft, left);
      if left {
        LeafIsDescending(t, tree.left, at + 1, nodes, side, depth + 1, leaf);
      } else {
        LeafIsDescending(t, tree.right, at + 1 + Count(tree.left), nodes, side, depth + 1, leaf);
      }
    }
  }

  lemma TipNode(nodes: seq<Node>, at: nat, tree: Tree)
    requires tree.Tip? && Holds(nodes, at, tree)
    ensures nodes[at] == tree.leaf
  {
    assert nodes[at..at + 1][0] == nodes[at];
  }

  lemma {:induction false} AllDescend(t: Task, tree: Tree, at: nat, rows: seq<nat>)
    requires tree.Tip? && RowsOk(t, rows)
    ensures Descending(t, tree, at, rows, at) == rows
    decreases |rows|
  {
    if rows != [] {
      AllDescend(t, tree, at, rows[..|rows| - 1]);
    }
  }

  lemma {:induction false} ArrivalsDescend(t: Task, tree: Tree, nodes: seq<Node>, rows: seq<nat>, leaf: nat)
    requires RowsOk(t, rows) && Holds(nodes, 0, tree) && SplitsOk(t.schema, tree) && TipsAreLeaves(tree)
    requires forall i :: 0 <= i < |t.train| ==> RowOk(t.schema, t.train[i])
    ensures Arrivals(t, nodes, rows, leaf) == Descending(t, tree, 0, rows, leaf)
    decreases |rows|
  {
    hide Holds, SplitsOk, TipsAreLeaves, RowOk, Walk, Reached;
    if rows != [] {
      var n := |rows| - 1;
      ArrivalsDescend(t, tree, nodes, rows[..n], leaf);
      WalkDescends(t.schema, nodes, 0, tree, t.train[rows[n]]);
    }
  }

  // ----- counts and sizes

  /** The rows counted in all the leaves. */
  function LeafTotal(nodes: seq<Node>): nat {
    if nodes == [] then 0 else LeafTotal(nodes[..|nodes| - 1]) + if nodes[|nodes| - 1].Leaf? then nodes[|nodes| - 1].count else 0
  }

  lemma {:induction false} LeafTotalAppend(a: seq<Node>, b: seq<Node>)
    ensures LeafTotal(a + b) == LeafTotal(a) + LeafTotal(b)
    decreases |b|
  {
    if b == [] {
      assert a + b == a;
    } else {
      var n := |b| - 1;
      assert (a + b)[..|a + b| - 1] == a + b[..n];
      LeafTotalAppend(a, b[..n]);
    }
  }

  lemma OneTotal(node: Node)
    ensures LeafTotal([node]) == if node.Leaf? then node.count else 0
  {
    assert LeafTotal([node][..0]) == 0;
  }

  lemma {:induction false} CountsAddUp(t: Task, tree: Tree, at: nat, rows: seq<nat>, depth: nat)
    requires RowsOk(t, rows) && Grown(t, tree, at, rows, depth)
    ensures LeafTotal(Flatten(tree, at)) == |rows|
    decreases tree
  {
    hide Side, GainOf, NoneAbove, Chosen, Flatten, LeafTotal;
    if tree.Tip? {
      FlattenTip(tree, at);
      OneTotal(tree.leaf);
    } else {
      var (l, r) := (Side(t, rows, tree.feature, tree.constant, tree.missingLeft, true), Side(t, rows, tree.feature, tree.constant, tree.missingLeft, false));
      CountsAddUp(t, tree.left, at + 1, l, depth + 1);
      CountsAddUp(t, tree.right, at + 1 + Count(tree.left), r, depth + 1);
      SidesPartition(t, rows, tree.feature, tree.constant, tree.missingLeft);
      FlattenFork(tree, at);
      var (left, right) := (Flatten(tree.left, at + 1), Flatten(tree.right, at + 1 + Count(tree.left)));
      var split := Split(tree.feature.name, tree.feature.kind.Numbers?, tree.constant, tree.missingLeft,
                         at + 1, at + 1 + Count(tree.left), tree.gain);
      LeafTotalAppend([split] + left, right);
      LeafTotalAppend([split], left);
      OneTotal(split);
    }
  }

  /** A tree whose root is at `depth` has at most `2^(maxDepth - depth + 1) - 1` nodes. */
  lemma {:induction false} CountBound(t: Task, tree: Tree, at: nat, rows: seq<nat>, depth: nat)
    requires RowsOk(t, rows) && Grown(t, tree, at, rows, depth) && depth <= t.maxDepth
    ensures Count(tree) < Power(t.maxDepth - depth + 1)
    decreases tree
  {
    hide Side, GainOf, NoneAbove, Chosen, LeafOf;
    if tree.Tip? {
      PowerPositive(t.maxDepth - depth);
    } else {
      CountBound(t, tree.left, at + 1, Side(t, rows, tree.feature, tree.constant, tree.missingLeft, true), depth + 1);
      CountBound(t, tree.right, at + 1 + Count(tree.left), Side(t, rows, tree.feature, tree.constant, tree.missingLeft, false), depth + 1);
    }
  }

  predicate LeavesAtLeast(nodes: seq<Node>, least: nat) {
    forall i :: 0 <= i < |nodes| && nodes[i].Leaf? ==> nodes[i].count >= least
  }

  /** Below the root no leaf has fewer than `minLeaf` rows; a root that is a leaf has all of them. */
  lemma {:induction false} LeavesBig(t: Task, tree: Tree, at: nat, rows: seq<nat>, depth: nat, least: nat)
    requires RowsOk(t, rows) && Grown(t, tree, at, rows, depth) && |rows| >= least && t.minLeaf >= least
    ensures LeavesAtLeast(Flatten(tree, at), least)
    decreases tree
  {
    hide Side, NoneAbove, Chosen;
    if tree.Fork? {
      var (l, r) := (Side(t, rows, tree.feature, tree.constant, tree.missingLeft, true), Side(t, rows, tree.feature, tree.constant, tree.missingLeft, false));
      LeavesBig(t, tree.left, at + 1, l, depth + 1, least);
      LeavesBig(t, tree.right, at + 1 + Count(tree.left), r, depth + 1, least);
    }
  }

  // ----- the array is the preorder of a tree

  lemma {:induction false} ParentsAppend(a: seq<Node>, b: seq<Node>, child: nat)
    ensures Parents(a + b, child) == Parents(a, child) + Parents(b, child)
    decreases |b|
  {
    if b == [] {
      assert a + b == a;
    } else {
      var n := |b| - 1;
      assert (a + b)[..|a + b| - 1] == a + b[..n];
      ParentsAppend(a, b[..n], child);
    }
  }

  /** Each node of a laid-out tree but its root has one parent in it, and no other index has any. */
  lemma {:induction false} FlattenParents(tree: Tree, at: nat, child: nat)
    requires TipsAreLeaves(tree)
    ensures Parents(Flatten(tree, at), child) == if at < child < at + Count(tree) then 1 else 0
    decreases tree
  {
    hide Flatten, Parents;
    if tree.Tip? {
      FlattenTip(tree, at);
      OneParents(tree.leaf, child);
    } else {
      FlattenParents(tree.left, at + 1, child);
      FlattenParents(tree.right, at + 1 + Count(tree.left), child);
      FlattenFork(tree, at);
      var (left, right) := (Flatten(tree.left, at + 1), Flatten(tree.right, at + 1 + Count(tree.left)));
      var root := Split(tree.feature.name, tree.feature.kind.Numbers?, tree.constant, tree.missingLeft,
                        at + 1, at + 1 + Count(tree.left), tree.gain);
      ThreeParents(root, left, right, child);
    }
  }

  lemma FlattenTip(tree: Tree, at: nat)
    requires tree.Tip?
    ensures Flatten(tree, at) == [tree.leaf]
  {}

  lemma OneParents(node: Node, child: nat)
    ensures Parents([node], child) == Edges(node, child)
  {
    assert Parents([node][..0], child) == 0;
  }

  lemma ThreeParents(root: Node, left: seq<Node>, right: seq<Node>, child: nat)
    ensures Parents([root] + left + right, child) == Edges(root, child) + Parents(left, child) + Parents(right, child)
  {
    ParentsAppend([root] + left, right, child);
    ParentsAppend([root], left, child);
    OneParents(root, child);
  }

  function ModelOf(t: Task): Model {
    Model(t.schema, if t.objective.Classification? then Some(t.objective.labels) else None)
  }

  lemma {:induction false} SumUpdated(counts: seq<nat>, before: seq<nat>, k: nat)
    requires |counts| == |before| && k < |counts| && counts == before[k := before[k] + 1]
    ensures Sum(counts) == Sum(before) + 1
    decreases |counts|
  {
    var n := |counts| - 1;
    if k < n {
      SumUpdated(counts[..n], before[..n], k);
    } else {
      assert counts[..n] == before[..n];
    }
  }

  lemma {:induction false} SumZero(counts: seq<nat>)
    requires forall i :: 0 <= i < |counts| ==> counts[i] == 0
    ensures Sum(counts) == 0
  {
    if counts != [] { SumZero(counts[..|counts| - 1]); }
  }

  /** The label counts of some rows add up to the rows. */
  lemma {:induction false} LabelsAddUp(targets: seq<nat>, rows: seq<nat>, counts: seq<nat>)
    requires forall i :: 0 <= i < |rows| ==> rows[i] < |targets| && targets[rows[i]] < |counts|
    requires forall k :: 0 <= k < |counts| ==> counts[k] == CountLabel(targets, rows, k)
    ensures Sum(counts) == |rows|
    decreases |rows|
  {
    if rows == [] {
      SumZero(counts);
    } else {
      var front := rows[..|rows| - 1];
      var before := seq(|counts|, k requires 0 <= k < |counts| => CountLabel(targets, front, k));
      LabelsAddUp(targets, front, before);
      SumUpdated(counts, before, targets[rows[|rows| - 1]]);
    }
  }

  lemma LeafAccepted(t: Task, nodes: seq<Node>, index: nat, rows: seq<nat>)
    requires TaskOk(t) && RowsOk(t, rows) && index < |nodes| && LeafOf(t, rows, nodes[index]) && rows != []
    ensures NodeOk(ModelOf(t), nodes, index)
  {
    hide CountLabel, Sum;
    if t.objective.Classification? {
      LabelsAddUp(t.objective.targets, rows, nodes[index].labelCounts);
    }
  }

  /** Every node of a grown tree passes the validator's checks where it stands. */
  lemma {:induction false} NodesAccepted(t: Task, tree: Tree, at: nat, nodes: seq<Node>, rows: seq<nat>, depth: nat, index: nat)
    requires TaskOk(t) && RowsOk(t, rows) && rows != [] && Grown(t, tree, at, rows, depth) && Holds(nodes, at, tree)
    requires at <= index < at + Count(tree)
    ensures NodeOk(ModelOf(t), nodes, index)
    decreases tree
  {
    hide Side, NoneAbove, Chosen, Gain, LeafOf, NodeOk, TaskOk, Flatten;
    if tree.Tip? {
      TipNode(nodes, at, tree);
      LeafAccepted(t, nodes, index, rows);
    } else {
      HoldsParts(nodes, at, tree);
      EnoughRows(t);
      if index == at {
        SplitAccepted(t, nodes, at, tree);
      } else if index < at + 1 + Count(tree.left) {
        NodesAccepted(t, tree.left, at + 1, nodes, Side(t, rows, tree.feature, tree.constant, tree.missingLeft, true), depth + 1, index);
      } else {
        NodesAccepted(t, tree.right, at + 1 + Count(tree.left), nodes,
                      Side(t, rows, tree.feature, tree.constant, tree.missingLeft, false), depth + 1, index);
      }
    }
  }

  lemma SplitAccepted(t: Task, nodes: seq<Node>, at: nat, tree: Tree)
    requires tree.Fork? && tree.feature in t.schema && InKind(tree.feature.kind, tree.constant) && tree.gain > 0.0
    requires at + Count(tree) <= |nodes|
    requires nodes[at] == Split(tree.feature.name, tree.feature.kind.Numbers?, tree.constant, tree.missingLeft,
                                at + 1, at + 1 + Count(tree.left), tree.gain)
    ensures NodeOk(ModelOf(t), nodes, at)
  {
    hide InKind;
    var i :| 0 <= i < |t.schema| && t.schema[i] == tree.feature;
    assert Named(t.schema, tree.feature.name, tree.feature.kind.Numbers?, tree.constant);
  }

  // ----- the theorem

  /** What `fit` promises of the nodes it grows on some rows. */
  ghost predicate Fitted(t: Task, nodes: seq<Node>, rows: seq<nat>)
    requires RowsOk(t, rows)
  {
    // the validator accepts them: one root, and one earlier parent for every other node
    && ShapeOk(ModelOf(t), nodes)
    // every training row is sent to a leaf, and every leaf counts exactly the rows sent to it, label by label
    && (forall i :: 0 <= i < |rows| ==> Walk(nodes, t.train[rows[i]], 0).Ok?)
    && (forall leaf :: 0 <= leaf < |nodes| && nodes[leaf].Leaf? ==>
          RowsOk(t, Arrivals(t, nodes, rows, leaf)) && LeafOf(t, Arrivals(t, nodes, rows, leaf), nodes[leaf]))
    && LeafTotal(nodes) == |rows|
    // the settings bound it
    && (|nodes| > 1 ==> LeavesAtLeast(nodes, t.minLeaf))
    && |nodes| < Power(t.maxDepth + 1)
  }

  lemma FittedTree(t: Task, tree: Tree, nodes: seq<Node>, rows: seq<nat>)
    requires TaskOk(t) && RowsOk(t, rows) && rows != [] && Grown(t, tree, 0, rows, 0)
    requires nodes == Flatten(tree, 0) && |nodes| <= MAX_NODES
    ensures Fitted(t, nodes, rows)
  {
    hide Side, NoneAbove, Chosen, GainOf, LeafOf, Grown, Flatten, Walk, NodeOk, TaskOk, Count, LeafTotal, LeavesAtLeast, Parents, SplitsOk, TipsAreLeaves, RowOk;
    assert Holds(nodes, 0, tree) by { assert nodes[0..0 + Count(tree)] == nodes; }
    GrownSplits(t, tree, 0, rows, 0);
    RowsAreOk(t);
    forall i | 0 <= i < |nodes| ensures NodeOk(ModelOf(t), nodes, i) {
      NodesAccepted(t, tree, 0, nodes, rows, 0, i);
    }
    forall i | 0 < i < |nodes| ensures Parents(nodes, i) == 1 {
      FlattenParents(tree, 0, i);
    }
    forall i | 0 <= i < |rows| ensures Walk(nodes, t.train[rows[i]], 0).Ok? {
      WalkDescends(t.schema, nodes, 0, tree, t.train[rows[i]]);
    }
    forall leaf | 0 <= leaf < |nodes| && nodes[leaf].Leaf?
      ensures RowsOk(t, Arrivals(t, nodes, rows, leaf)) && LeafOf(t, Arrivals(t, nodes, rows, leaf), nodes[leaf])
    {
      LeafIsDescending(t, tree, 0, nodes, rows, 0, leaf);
      ArrivalsDescend(t, tree, nodes, rows, leaf);
    }
    CountsAddUp(t, tree, 0, rows, 0);
    CountBound(t, tree, 0, rows, 0);
    if |nodes| > 1 {
      RootSplit(t, tree, rows);
      LeavesBig(t, tree, 0, rows, 0, t.minLeaf);
    }
  }

  lemma RowsAreOk(t: Task)
    requires TaskOk(t)
    ensures forall i :: 0 <= i < |t.train| ==> RowOk(t.schema, t.train[i])
  {
    hide RowOk;
  }

  lemma RootSplit(t: Task, tree: Tree, rows: seq<nat>)
    requires RowsOk(t, rows) && Grown(t, tree, 0, rows, 0) && Count(tree) > 1
    ensures |rows| >= t.minLeaf
  {
    hide Side, NoneAbove, Chosen, GainOf, LeafOf;
  }

  /** `fit_tree` on a non-empty sample of the training rows (a bootstrap sample may repeat rows). */
  method Fit(t: Task, rows: seq<nat>) returns (r: Result<seq<Node>>)
    requires TaskOk(t) && RowsOk(t, rows) && rows != []
    ensures r.Ok? ==> Fitted(t, r.value, rows)
    ensures r.Err? ==> Undefined(t, r.error) || (r.error == Limit && Room(t, 0) > 100_000)
    ensures r.Ok? ==> exists tree :: r.value == Flatten(tree, 0) && Grown(t, tree, 0, rows, 0)
  {
    hide TaskOk, Fitted, Grown, Flatten, RowsOk, Undefined, Room;
    var builder := new Builder(t);
    var root;
    ghost var tree;
    root, tree := builder.Build(rows, 0);
    if root.Err? {
      return Err(root.error);
    }
    assert [] + Flatten(tree, 0) == Flatten(tree, 0);
    FittedTree(t, tree, builder.nodes, rows);
    return Ok(builder.nodes);
  }
}
