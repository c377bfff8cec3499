/** Growing a decision tree into a flat array of nodes (`Builder::build` in `trees.rs`). */
module Trees {
  import opened Bytes
  import opened Rules
  import opened TreeSplits
  import Seqs

  /** A node of the array. A node is unset until `build` knows what it is. */
  datatype Node =
    | Unset
    | Leaf(count: nat, labelCounts: seq<nat>, value: Option<bytes>)
    | Split(feature: bytes, le: bool, constant: Value, missingLeft: bool, left: nat, right: nat, gain: real)

  const MAX_NODES := 100_000

  // ----- leaves

  function CountLabel(targets: seq<nat>, rows: seq<nat>, number: nat): nat
    requires forall i :: 0 <= i < |rows| ==> rows[i] < |targets|
  {
    if rows == [] then 0
    else CountLabel(targets, rows[..|rows| - 1], number) + if targets[rows[|rows| - 1]] == number then 1 else 0
  }

  /** A leaf over these rows: how many there are, and how many of each label. */
  predicate LeafOf(t: Task, rows: seq<nat>, leaf: Node)
    requires RowsOk(t, rows)
  {
    && leaf.Leaf? && leaf.count == |rows|
    && match t.objective
       case Classification(labels, targets) =>
         && leaf.value.None? && |leaf.labelCounts| == labels && |targets| == |t.train|
         && forall number :: 0 <= number < labels ==> leaf.labelCounts[number] == CountLabel(targets, rows, number)
       case Valued(value) => leaf.labelCounts == [] && leaf.value.Some? && value(rows) == Ok(leaf.value.value)
  }

  /** What stands between the nodes of a tree before they are laid out. */
  datatype Tree =
    | Tip(leaf: Node)
    | Fork(feature: Feature, constant: Value, missingLeft: bool, gain: real, left: Tree, right: Tree)

  function Count(tree: Tree): (n: nat)
    ensures n >= 1
  {
    match tree
    case Tip(_) => 1
    case Fork(_, _, _, _, left, right) => 1 + Count(left) + Count(right)
  }

  /** The nodes of a tree from index `at` on: each node, then its left part, then its right part. */
  function Flatten(tree: Tree, at: nat): (nodes: seq<Node>)
    ensures |nodes| == Count(tree)
  {
    match tree
    case Tip(leaf) => [leaf]
    case Fork(f, constant, missingLeft, gain, left, right) =>
      [Split(f.name, f.kind.Numbers?, constant, missingLeft, at + 1, at + 1 + Count(left), gain)]
      + Flatten(left, at + 1) + Flatten(right, at + 1 + Count(left))
  }

  /** A tree that `build` may grow at node `here`: leaves where it must stop or nothing gains, otherwise the first split of the greatest gain. */
  ghost predicate Grown(t: Task, tree: Tree, here: nat, rows: seq<nat>, depth: nat)
    requires RowsOk(t, rows)
  {
    match tree
    case Tip(leaf) =>
      LeafOf(t, rows, leaf) && (depth >= t.maxDepth || |rows| < 2 * t.minLeaf || NoneAbove(t, here, rows, 0.0))
    case Fork(f, constant, missingLeft, gain, left, right) =>
      && depth < t.maxDepth && |rows| >= 2 * t.minLeaf
      && f in t.schema && InKind(f.kind, constant) && Chosen(t, here, rows, f, constant, missingLeft, gain)
      && GainOf(t, rows, f, constant, missingLeft) == Some(gain) && gain > 0.0
      && SidesOk(t, rows, f, constant, missingLeft)
      && Grown(t, left, here + 1, Side(t, rows, f, constant, missingLeft, true), depth + 1)
      && Grown(t, right, here + 1 + Count(left), Side(t, rows, f, constant, missingLeft, false), depth + 1)
  }

  predicate SidesOk(t: Task, rows: seq<nat>, f: Feature, constant: Value, missingLeft: bool) {
    RowsOk(t, Side(t, rows, f, constant, missingLeft, true)) && RowsOk(t, Side(t, rows, f, constant, missingLeft, false))
  }

  /** The objective has no finite value over some rows. */
  ghost predicate Undefined(t: Task, error: Error) {
    exists rows {:trigger RowsOk(t, rows)} ::
      RowsOk(t, rows) && (t.score(rows) == Err(error) || (t.objective.Valued? && t.objective.value(rows) == Err(error)))
  }

  function Power(n: nat): nat { if n == 0 then 1 else 2 * Power(n - 1) }

  lemma {:induction false} PowerPositive(n: nat)
    ensures Power(n) >= 1
  {
    if n > 0 { PowerPositive(n - 1); }
  }

  /** More nodes than a tree whose root is at `depth` can have. */
  function Room(t: Task, depth: nat): nat { if depth < t.maxDepth then Power(t.maxDepth - depth + 1) else 2 }

  lemma RoomOf(t: Task, depth: nat)
    ensures Room(t, depth) >= 2 && (depth < t.maxDepth ==> Room(t, depth) == 2 * Room(t, depth + 1))
  {
    assert Power(1) == 2 * Power(0);
    if depth < t.maxDepth {
      PowerPositive(t.maxDepth - depth);
    }
  }

  // ----- the builder

  method LabelCounts(targets: seq<nat>, labels: nat, rows: seq<nat>) returns (counts: seq<nat>)
    requires forall i :: 0 <= i < |rows| ==> rows[i] < |targets| && targets[rows[i]] < labels
    ensures |counts| == labels && forall number :: 0 <= number < labels ==> counts[number] == CountLabel(targets, rows, number)
  {
    counts := seq(labels, _ => 0);
    for i := 0 to |rows|
      invariant |counts| == labels
      invariant forall number :: 0 <= number < labels ==> counts[number] == CountLabel(targets, rows[..i], number)
    {
      assert rows[..i + 1][..i] == rows[..i];
      var number := targets[rows[i]];
      counts := counts[number := counts[number] + 1];
    }
    assert rows[..|rows|] == rows;
  }

  method MakeLeaf(t: Task, rows: seq<nat>) returns (r: Result<Node>)
    requires TaskOk(t) && RowsOk(t, rows)
    ensures r.Ok? ==> LeafOf(t, rows, r.value)
    ensures r.Err? ==> Undefined(t, r.error)
  {
    match t.objective
    case Classification(labels, targets) =>
      var counts := LabelCounts(targets, labels, rows);
      return Ok(Leaf(|rows|, counts, None));
    case Valued(value) =>
      var v := value(rows);
      if v.Err? {
        return Err(v.error);
      }
      return Ok(Leaf(|rows|, [], Some(v.value)));
  }

  method Divide(t: Task, rows: seq<nat>, f: Feature, constant: Value, missingLeft: bool) returns (left: seq<nat>, right: seq<nat>)
    ensures left == Side(t, rows, f, constant, missingLeft, true) && right == Side(t, rows, f, constant, missingLeft, false)
  {
    left, right := [], [];
    for i := 0 to |rows|
      invariant left == Side(t, rows[..i], f, constant, missingLeft, true)
      invariant right == Side(t, rows[..i], f, constant, missingLeft, false)
    {
      assert rows[..i + 1][..i] == rows[..i];
      if RowLeft(t, rows[i], f, constant, missingLeft) {
        left := left + [rows[i]];
      } else {
        right := right + [rows[i]];
      }
    }
    assert rows[..|rows|] == rows;
  }

  datatype Best = Best(gain: real, feature: Feature, constant: Value, missingLeft: bool, left: seq<nat>, right: seq<nat>)

  ghost predicate BestOk(t: Task, rows: seq<nat>, b: Best) {
    && b.feature in t.schema && InKind(b.feature.kind, b.constant)
    && b.gain > 0.0 && GainOf(t, rows, b.feature, b.constant, b.missingLeft) == Some(b.gain)
    && b.left == Side(t, rows, b.feature, b.constant, b.missingLeft, true)
    && b.right == Side(t, rows, b.feature, b.constant, b.missingLeft, false)
  }

  function Most(best: Option<Best>): real { if best.Some? then best.value.gain else 0.0 }

  /** The split is kept if it gains, and more than the best so far. */
  predicate Replaces(gain: Option<real>, before: Option<Best>, after: Option<Best>, f: Feature, constant: Value, missingLeft: bool) {
    if gain.Some? && gain.value > 0.0 && gain.value > Most(before)
    then after.Some? && Names(after.value, f, constant, missingLeft) && after.value.gain == gain.value
    else after == before
  }

  predicate Names(b: Best, f: Feature, constant: Value, missingLeft: bool) {
    b.feature == f && b.constant == constant && b.missingLeft == missingLeft
  }

  /** The best so far is the one from before, or the first of the greatest gain among the constants of `f` up to `k`. */
  ghost predicate FeatureBest(t: Task, rows: seq<nat>, f: Feature, constants: seq<Value>, k: nat, start: Option<Best>, best: Option<Best>)
    requires k <= |constants|
  {
    && Most(best) >= Most(start)
    && (forall l, m :: 0 <= l < k ==> NotAbove(GainOf(t, rows, f, constants[l], m), Most(best)))
    && (best == start
        || (best.Some? && Most(best) > Most(start) && exists p :: 0 <= p < k && FirstConstant(t, rows, f, constants, p, best.value)))
  }

  ghost predicate FirstConstant(t: Task, rows: seq<nat>, f: Feature, constants: seq<Value>, p: nat, b: Best)
    requires p < |constants|
  {
    && b.feature == f && b.constant == constants[p]
    && (forall l, m :: 0 <= l < p ==> Below(GainOf(t, rows, f, constants[l], m), b.gain))
    && (!b.missingLeft ==> Below(GainOf(t, rows, f, constants[p], true), b.gain))
  }

  /** Of the features considered before place `i`: nothing gains more than the best, and it is the first of its gain. */
  ghost predicate NodeBest(t: Task, here: nat, rows: seq<nat>, i: nat, best: Option<Best>)
    requires i <= |t.tried(here)| && forall j :: 0 <= j < |t.tried(here)| ==> t.tried(here)[j] < |t.schema|
  {
    && (forall j :: 0 <= j < i ==> FeatureBelow(t, rows, t.schema[t.tried(here)[j]], Most(best), false))
    && (best.Some? ==> exists j :: 0 <= j < i && FirstFeature(t, here, rows, j, best.value))
  }

  ghost predicate FirstFeature(t: Task, here: nat, rows: seq<nat>, j: nat, b: Best)
    requires j < |t.tried(here)| && forall j :: 0 <= j < |t.tried(here)| ==> t.tried(here)[j] < |t.schema|
  {
    && (forall l :: 0 <= l < j ==> FeatureBelow(t, rows, t.schema[t.tried(here)[l]], b.gain, true))
    && exists p :: 0 <= p < |Candidates(t, t.schema[t.tried(here)[j]], rows)|
         && FirstConstant(t, rows, t.schema[t.tried(here)[j]], Candidates(t, t.schema[t.tried(here)[j]], rows), p, b)
  }

  /** No constant of the feature gains more than `most`, or even as much. */
  ghost predicate FeatureBelow(t: Task, rows: seq<nat>, f: Feature, most: real, strictly: bool) {
    forall k, m :: 0 <= k < |Candidates(t, f, rows)| ==>
      var gain := GainOf(t, rows, f, Candidates(t, f, rows)[k], m);
      if strictly then Below(gain, most) else NotAbove(gain, most)
  }

  lemma NothingTried(t: Task, rows: seq<nat>, f: Feature, constants: seq<Value>, start: Option<Best>)
    ensures FeatureBest(t, rows, f, constants, 0, start, start)
  {}

  /** Both sides for missing values of one more constant. */
  lemma BothSides(
    t: Task, rows: seq<nat>, f: Feature, constants: seq<Value>, k: nat, start: Option<Best>, before: Option<Best>,
    first: Option<Best>, best: Option<Best>)
    requires k < |constants| && Most(start) >= 0.0 && FeatureBest(t, rows, f, constants, k, start, before)
    requires Replaces(GainOf(t, rows, f, constants[k], true), before, first, f, constants[k], true)
    requires Replaces(GainOf(t, rows, f, constants[k], false), first, best, f, constants[k], false)
    ensures FeatureBest(t, rows, f, constants, k + 1, start, best)
  {
    hide GainOf;
    if best != before {
      assert FirstConstant(t, rows, f, constants, k, best.value);
    } else if best != start {
      var p :| 0 <= p < k && FirstConstant(t, rows, f, constants, p, before.value);
    }
  }

  lemma BestGains(t: Task, rows: seq<nat>, best: Option<Best>)
    requires best.Some? ==> BestOk(t, rows, best.value)
    ensures Most(best) >= 0.0
  {
    hide GainOf, Side;
  }

  lemma ScoreUndefined(t: Task, rows: seq<nat>)
    requires RowsOk(t, rows) && t.score(rows).Err?
    ensures Undefined(t, t.score(rows).error)
  {
    hide RowsOk;
  }

  lemma NextFeature(t: Task, here: nat, rows: seq<nat>, i: nat, before: Option<Best>, best: Option<Best>)
    requires (forall j :: 0 <= j < |t.tried(here)| ==> t.tried(here)[j] < |t.schema|) && i < |t.tried(here)|
    requires NodeBest(t, here, rows, i, before)
    requires var f := t.schema[t.tried(here)[i]];
             FeatureBest(t, rows, f, Candidates(t, f, rows), |Candidates(t, f, rows)|, before, best)
    ensures NodeBest(t, here, rows, i + 1, best)
  {
    hide Candidates, GainOf, FirstConstant;
    forall j | 0 <= j < i ensures FeatureBelow(t, rows, t.schema[t.tried(here)[j]], Most(best), false) {
      assert FeatureBelow(t, rows, t.schema[t.tried(here)[j]], Most(before), false);
    }
    if best != before {
      forall j | 0 <= j < i ensures FeatureBelow(t, rows, t.schema[t.tried(here)[j]], best.value.gain, true) {
        assert FeatureBelow(t, rows, t.schema[t.tried(here)[j]], Most(before), false);
      }
      assert FirstFeature(t, here, rows, i, best.value);
    } else if best.Some? {
      var j :| 0 <= j < i && FirstFeature(t, here, rows, j, before.value);
    }
  }

  /** Every constant that divides gains what one that is tried gains. */
  lemma BelowAll(t: Task, rows: seq<nat>, f: Feature, most: real, strictly: bool, c: Value, m: bool)
    requires TaskOk(t) && FeatureBelow(t, rows, f, most, strictly) && Divides(t, f, rows, c)
    ensures if strictly then Below(GainOf(t, rows, f, c, m), most) else NotAbove(GainOf(t, rows, f, c, m), most)
  {
    hide TaskOk, Divides, Tried, Candidates, Side, GainOf;
    var v := CandidatesComplete(t, f, rows, c);
    var k :| 0 <= k < |Candidates(t, f, rows)| && Candidates(t, f, rows)[k] == v;
    assert GainOf(t, rows, f, c, m) == GainOf(t, rows, f, Candidates(t, f, rows)[k], m);
  }

  lemma AllConsidered(t: Task, here: nat, rows: seq<nat>, best: Option<Best>)
    requires TaskOk(t) && (forall j :: 0 <= j < |t.tried(here)| ==> t.tried(here)[j] < |t.schema|)
    requires NodeBest(t, here, rows, |t.tried(here)|, best)
    requires best.Some? ==> BestOk(t, rows, best.value)
    ensures NoneAbove(t, here, rows, Most(best))
    ensures best.Some? ==>
              var b := best.value;
              Chosen(t, here, rows, b.feature, b.constant, b.missingLeft, b.gain)
  {
    hide TaskOk, Divides, Tried, Candidates, GainOf, FeatureBelow, FirstFeature, BestOk;
    forall i: nat, f, c, m | Considers(t, here, i, f) && Divides(t, f, rows, c)
      ensures NotAbove(GainOf(t, rows, f, c, m), Most(best))
    {
      BelowAll(t, rows, f, Most(best), false, c, m);
    }
    if best.Some? {
      var j :| 0 <= j < |t.tried(here)| && FirstFeature(t, here, rows, j, best.value);
      FirstIsFirst(t, here, rows, j, best.value);
    }
  }

  lemma FirstIsFirst(t: Task, here: nat, rows: seq<nat>, j: nat, b: Best)
    requires TaskOk(t) && (forall j :: 0 <= j < |t.tried(here)| ==> t.tried(here)[j] < |t.schema|)
    requires j < |t.tried(here)| && FirstFeature(t, here, rows, j, b) && BestOk(t, rows, b)
    ensures FirstBest(t, here, j, rows, b.feature, b.constant, b.missingLeft, b.gain)
  {
    hide TaskOk, Divides, Tried, Candidates, GainOf, FeatureBelow, Precedes;
    var f := t.schema[t.tried(here)[j]];
    var p :| 0 <= p < |Candidates(t, f, rows)| && FirstConstant(t, rows, f, Candidates(t, f, rows), p, b);
    CandidatesExact(t, f, rows, b.constant);
    forall i: nat, g, c, m | i < j && Considers(t, here, i, g) && Divides(t, g, rows, c)
      ensures Below(GainOf(t, rows, g, c, m), b.gain)
    {
      BelowAll(t, rows, g, b.gain, true, c, m);
    }
    forall c, m | Tried(t, f, rows, c) && Precedes(f, c, b.constant) ensures Below(GainOf(t, rows, f, c, m), b.gain) {
      CandidatesExact(t, f, rows, c);
      CandidatesOrder(t, f, rows, c, p);
    }
  }

  class Builder {
    const t: Task
    var nodes: seq<Node>
    var splitEvaluations: nat

    constructor (t: Task)
      ensures this.t == t && nodes == []
    {
      this.t, nodes, splitEvaluations := t, [], 0;
    }

    /** One constant of one feature, with missing values on one side: it replaces the best so far if it gains more. */
    method Consider(rows: seq<nat>, parent: real, f: Feature, constant: Value, missingLeft: bool, best: Option<Best>)
      returns (r: Result<Option<Best>>)
      requires f in t.schema && InKind(f.kind, constant) && rows != [] && RowsOk(t, rows) && t.score(rows) == Ok(parent)
      requires best.Some? ==> BestOk(t, rows, best.value)
      modifies this`splitEvaluations
      ensures r.Ok? ==> (r.value.Some? ==> BestOk(t, rows, r.value.value))
      ensures r.Ok? ==> Replaces(GainOf(t, rows, f, constant, missingLeft), best, r.value, f, constant, missingLeft)
      ensures r.Err? ==> Undefined(t, r.error)
    {
      hide Side, Gain, InKind, RowsOk;
      splitEvaluations := splitEvaluations + 1;
      var left, right := Divide(t, rows, f, constant, missingLeft);
      SideRows(t, rows, f, constant, missingLeft, true);
      SideRows(t, rows, f, constant, missingLeft, false);
      if |left| < t.minLeaf || |right| < t.minLeaf {
        return Ok(best);
      }
      var leftScore := t.score(left);
      if leftScore.Err? {
        return Err(leftScore.error);
      }
      var rightScore := t.score(right);
      if rightScore.Err? {
        return Err(rightScore.error);
      }
      var gain := Gain(t, rows, parent, left, right, leftScore.value, rightScore.value);
      if gain > 0.0 && (best.None? || gain > best.value.gain) {
        return Ok(Some(Best(gain, f, constant, missingLeft, left, right)));
      }
      return Ok(best);
    }

    /** All the constants of one feature. */
    method ConsiderFeature(rows: seq<nat>, parent: real, f: Feature, start: Option<Best>) returns (r: Result<Option<Best>>)
      requires f in t.schema && rows != [] && RowsOk(t, rows) && t.score(rows) == Ok(parent)
      requires start.Some? ==> BestOk(t, rows, start.value)
      modifies this`splitEvaluations
      ensures r.Ok? ==> (r.value.Some? ==> BestOk(t, rows, r.value.value))
      ensures r.Ok? ==> FeatureBest(t, rows, f, Candidates(t, f, rows), |Candidates(t, f, rows)|, start, r.value)
      ensures r.Err? ==> Undefined(t, r.error)
    {
      hide Candidates, GainOf, BestOk, InKind, Undefined, RowsOk, FeatureBest, Tried;
      var best := start;
      var constants := Candidates(t, f, rows);
      NothingTried(t, rows, f, constants, start);
      BestGains(t, rows, start);
      for k := 0 to |constants|
        invariant best.Some? ==> BestOk(t, rows, best.value)
        invariant FeatureBest(t, rows, f, constants, k, start, best)
      {
        assert constants[k] in constants;
        CandidatesExact(t, f, rows, constants[k]);
        ghost var before := best;
        var first := Consider(rows, parent, f, constants[k], true, best);
        if first.Err? {
          return first;
        }
        var second := Consider(rows, parent, f, constants[k], false, first.value);
        if second.Err? {
          return second;
        }
        best := second.value;
        BothSides(t, rows, f, constants, k, start, before, first.value, best);
      }
      return Ok(best);
    }

    /** The loops of `build` over the features node `here` tries: the first split of the greatest positive gain, if any gains. */
    method FindBest(here: nat, rows: seq<nat>) returns (r: Result<Option<Best>>)
      requires TaskOk(t) && RowsOk(t, rows) && rows != []
      modifies this`splitEvaluations
      ensures r.Err? ==> Undefined(t, r.error)
      ensures r.Ok? && r.value.None? ==> NoneAbove(t, here, rows, 0.0)
      ensures r.Ok? && r.value.Some? ==>
                var b := r.value.value;
                BestOk(t, rows, b) && Chosen(t, here, rows, b.feature, b.constant, b.missingLeft, b.gain)
    {
      hide Candidates, GainOf, BestOk, RowsOk, NoneAbove, Chosen, FeatureBest, FirstFeature, FeatureBelow, Undefined;
      var parent := t.score(rows);
      if parent.Err? {
        ScoreUndefined(t, rows);
        return Err(parent.error);
      }
      var best: Option<Best> := None;
      var tried := t.tried(here);
      for i := 0 to |tried|
        invariant best.Some? ==> BestOk(t, rows, best.value)
        invariant NodeBest(t, here, rows, i, best)
      {
        var f := t.schema[tried[i]];
        var next := ConsiderFeature(rows, parent.value, f, best);
        if next.Err? {
          return next;
        }
        NextFeature(t, here, rows, i, best, next.value);
        best := next.value;
      }
      AllConsidered(t, here, rows, best);
      return Ok(best);
    }

    /** `build`: appends the nodes of a tree and returns the index of its root. */
    method Build(rows: seq<nat>, depth: nat) returns (r: Result<nat>, ghost tree: Tree)
      requires TaskOk(t) && RowsOk(t, rows)
      modifies this
      ensures r.Ok? ==> r.value == |old(nodes)| && nodes == old(nodes) + Flatten(tree, |old(nodes)|)
      ensures r.Ok? ==> Grown(t, tree, |old(nodes)|, rows, depth)
      ensures r.Ok? && |old(nodes)| <= 100_000 ==> |nodes| <= 100_000
      ensures r.Err? ==> Undefined(t, r.error) || (r.error == Limit && |nodes| >= 100_000)
      ensures |nodes| < |old(nodes)| + Room(t, depth)
      decreases t.maxDepth - depth
    {
      hide TaskOk, LeafOf, NoneAbove, Chosen, RowsOk, BestOk, Grown, Flatten, Count, Undefined, Room;
      RoomOf(t, depth);
      ghost var before := nodes;
      var here := |nodes|;
      tree := Tip(Unset);
      if here >= MAX_NODES {
        return Err(Limit), tree;
      }
      nodes := nodes + [Unset];
      if depth >= t.maxDepth || |rows| < t.minLeaf * 2 {
        r, tree := BuildLeaf(before, rows);
        if r.Ok? { GrownTip(t, tree, here, rows, depth); }
        return;
      }
      assert rows != [] by { EnoughRows(t); }
      var best := FindBest(here, rows);
      if best.Err? {
        return Err(best.error), tree;
      }
      if best.value.None? {
        r, tree := BuildLeaf(before, rows);
        if r.Ok? { GrownTip(t, tree, here, rows, depth); }
        return;
      }
      var b := best.value.value;
      BestRows(t, rows, b);
      ghost var leftTree, rightTree;
      var left, right;
      left, leftTree := Build(b.left, depth + 1);
      if left.Err? {
        return left, tree;
      }
      right, rightTree := Build(b.right, depth + 1);
      if right.Err? {
        return right, tree;
      }
      tree := Fork(b.feature, b.constant, b.missingLeft, b.gain, leftTree, rightTree);
      ghost var (laid, lefts, rights) := (nodes, Flatten(leftTree, here + 1), Flatten(rightTree, here + 1 + Count(leftTree)));
      nodes := nodes[here := Split(b.feature.name, b.feature.kind.Numbers?, b.constant, b.missingLeft, left.value, right.value, b.gain)];
      GrownFork(t, tree, here, rows, depth, b);
      LaidOut(before, laid, nodes, tree, lefts, rights, nodes[here]);
      return Ok(here), tree;
    }

    /** Turn the unset node just pushed into a leaf. */
    method BuildLeaf(ghost before: seq<Node>, rows: seq<nat>) returns (r: Result<nat>, ghost tree: Tree)
      requires TaskOk(t) && RowsOk(t, rows) && nodes == before + [Unset]
      modifies this`nodes
      ensures |nodes| == |before| + 1 && (r.Err? ==> Undefined(t, r.error))
      ensures r.Ok? ==> r.value == |before| && tree.Tip? && LeafOf(t, rows, tree.leaf) && nodes == before + Flatten(tree, |before|)
    {
      hide LeafOf, TaskOk;
      tree := Tip(Unset);
      var leaf := MakeLeaf(t, rows);
      if leaf.Err? {
        return Err(leaf.error), tree;
      }
      tree := Tip(leaf.value);
      nodes := nodes[|nodes| - 1 := leaf.value];
      assert nodes == before + [leaf.value];
      return Ok(|nodes| - 1), tree;
    }
  }

  lemma BestRows(t: Task, rows: seq<nat>, b: Best)
    requires BestOk(t, rows, b) && RowsOk(t, rows)
    ensures RowsOk(t, b.left) && RowsOk(t, b.right) && SidesOk(t, rows, b.feature, b.constant, b.missingLeft)
  {
    hide Side, GainOf, RowsOk, InKind;
    SideRows(t, rows, b.feature, b.constant, b.missingLeft, true);
    SideRows(t, rows, b.feature, b.constant, b.missingLeft, false);
  }

  lemma GrownTip(t: Task, tree: Tree, here: nat, rows: seq<nat>, depth: nat)
    requires RowsOk(t, rows) && tree.Tip? && LeafOf(t, rows, tree.leaf)
    requires depth >= t.maxDepth || |rows| < 2 * t.minLeaf || NoneAbove(t, here, rows, 0.0)
    ensures Grown(t, tree, here, rows, depth)
  {}

  lemma GrownFork(t: Task, tree: Tree, here: nat, rows: seq<nat>, depth: nat, b: Best)
    requires RowsOk(t, rows) && BestOk(t, rows, b) && Chosen(t, here, rows, b.feature, b.constant, b.missingLeft, b.gain)
    requires depth < t.maxDepth && |rows| >= 2 * t.minLeaf && RowsOk(t, b.left) && RowsOk(t, b.right)
    requires tree.Fork? && Grown(t, tree.left, here + 1, b.left, depth + 1)
    requires Grown(t, tree.right, here + 1 + Count(tree.left), b.right, depth + 1)
    requires tree == Fork(b.feature, b.constant, b.missingLeft, b.gain, tree.left, tree.right)
    ensures Grown(t, tree, here, rows, depth)
  {
    hide Side, GainOf, Chosen, InKind;
    BestRows(t, rows, b);
  }

  lemma EnoughRows(t: Task)
    requires TaskOk(t)
    ensures t.minLeaf >= 1
  {}

  lemma FlattenFork(tree: Tree, at: nat)
    requires tree.Fork?
    ensures var split := Split(tree.feature.name, tree.feature.kind.Numbers?, tree.constant, tree.missingLeft,
                               at + 1, at + 1 + Count(tree.left), tree.gain);
            Flatten(tree, at) == [split] + Flatten(tree.left, at + 1) + Flatten(tree.right, at + 1 + Count(tree.left))
  {}

  lemma Overwrite<T>(before: seq<T>, x: T, y: T, rest: seq<T>)
    ensures (before + ([x] + rest))[|before| := y] == before + ([y] + rest)
  {}

  /** Overwriting the node pushed first with the split completes the layout. */
  lemma LaidOut(before: seq<Node>, laid: seq<Node>, nodes: seq<Node>, tree: Tree, left: seq<Node>, right: seq<Node>, split: Node)
    requires tree.Fork? && left == Flatten(tree.left, |before| + 1) && right == Flatten(tree.right, |before| + 1 + Count(tree.left))
    requires split == Split(tree.feature.name, tree.feature.kind.Numbers?, tree.constant, tree.missingLeft,
                            |before| + 1, |before| + 1 + Count(tree.left), tree.gain)
    requires laid == before + [Unset] + left + right
    requires nodes == laid[|before| := split]
    ensures nodes == before + Flatten(tree, |before|)
  {
    hide Flatten, Count;
    FlattenFork(tree, |before|);
    Seqs.Append3(before, [Unset], left, right);
    Overwrite(before, Unset, split, left + right);
    Seqs.Assoc([split], left, right);
  }
}
