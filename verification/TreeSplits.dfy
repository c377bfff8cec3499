/** The splits a node of a decision tree may take, and what they gain (`candidates` and `goes_left` in `trees.rs`). */
module TreeSplits {
  import opened Bytes
  import opened Rules

  /** Labels by number, or a value computed from the rows of a leaf (regression, boosting). */
  datatype Objective = Classification(labels: nat, targets: seq<nat>) | Valued(value: seq<nat> -> Result<bytes>)

  /**
   The training rows and settings, already validated. `score` is the objective over some rows, `midpoint` the double
   between two others, and `tried(n)` the features that node `n` considers (drawn at random in a forest).
   */
  datatype Task = Task(
    schema: seq<Feature>, train: seq<Features>, objective: Objective, boosted: bool,
    score: seq<nat> -> Result<real>, midpoint: (Rank, Rank) -> Option<Rank>, tried: nat -> seq<nat>,
    maxDepth: nat, minLeaf: nat)

  predicate ValueOk(f: Feature, value: Value) { value.Null? || InKind(f.kind, value) }

  predicate RowOk(schema: seq<Feature>, row: Features) {
    forall i :: 0 <= i < |schema| ==> schema[i].name in row && ValueOk(schema[i], row[schema[i].name])
  }

  ghost predicate TaskOk(t: Task) {
    && (forall i, j :: 0 <= i < j < |t.schema| ==> t.schema[i].name != t.schema[j].name)
    && (forall i :: 0 <= i < |t.train| ==> RowOk(t.schema, t.train[i]))
    && (t.objective.Classification? ==>
          |t.objective.targets| == |t.train| && forall i :: 0 <= i < |t.train| ==> t.objective.targets[i] < t.objective.labels)
    && (forall n, i :: 0 <= i < |t.tried(n)| ==> t.tried(n)[i] < |t.schema|)
    && t.minLeaf >= 1
    && (forall a: Rank, b: Rank :: a + 1 < b ==> Middle(t, a, b))
  }

  /** The midpoint of two numbers is a double strictly between them; there is one unless they are neighbours (`TaskOk`). */
  predicate Middle(t: Task, a: Rank, b: Rank) { t.midpoint(a, b).Some? && a < t.midpoint(a, b).value < b }

  predicate RowsOk(t: Task, rows: seq<nat>) { forall i :: 0 <= i < |rows| ==> rows[i] < |t.train| }

  // ----- dividing rows

  function GoesLeft(value: Value, f: Feature, constant: Value, missingLeft: bool): bool {
    if value.Null? then missingLeft
    else if f.kind.Numbers? then value.Number? && constant.Number? && value.rank <= constant.rank
    else value == constant
  }

  predicate RowLeft(t: Task, row: nat, f: Feature, constant: Value, missingLeft: bool) {
    row < |t.train| && f.name in t.train[row] && GoesLeft(t.train[row][f.name], f, constant, missingLeft)
  }

  /** The rows on one side of a split, in order. */
  function Side(t: Task, rows: seq<nat>, f: Feature, constant: Value, missingLeft: bool, left: bool): seq<nat> {
    if rows == [] then []
    else Side(t, rows[..|rows| - 1], f, constant, missingLeft, left)
         + if RowLeft(t, rows[|rows| - 1], f, constant, missingLeft) == left then [rows[|rows| - 1]] else []
  }

  /** The distinct numbers of some rows in ascending order. */
  function Numbers(t: Task, rows: seq<nat>, name: bytes): seq<Rank> {
    if rows == [] then [] else
    var rest := Numbers(t, rows[1..], name);
    var row := rows[0];
    if row < |t.train| && name in t.train[row] && t.train[row][name].Number? then Insert(t.train[row][name].rank, rest) else rest
  }

  function Insert(x: Rank, sorted: seq<Rank>): seq<Rank> {
    if sorted == [] then [x]
    else if x < sorted[0] then [x] + sorted
    else if x == sorted[0] then sorted
    else [sorted[0]] + Insert(x, sorted[1..])
  }

  function Midpoints(t: Task, sorted: seq<Rank>): seq<Value> {
    if |sorted| < 2 then [] else
    var middle := t.midpoint(sorted[0], sorted[1]);
    (if middle.Some? && sorted[0] < middle.value < sorted[1] then [Number(middle.value)] else []) + Midpoints(t, sorted[1..])
  }

  /** `candidates`: the constants a feature is split at. */
  function Candidates(t: Task, f: Feature, rows: seq<nat>): seq<Value> {
    match f.kind
    case Numbers => Midpoints(t, Numbers(t, rows, f.name))
    case Booleans => [Boolean(false), Boolean(true)]
    case Categories(names) => Texts(names)
  }

  // ----- which constants are tried, said of the rows

  /** Some of the rows has the number `x` for the feature. */
  predicate HasNumber(t: Task, rows: seq<nat>, name: bytes, x: Rank) {
    exists i :: 0 <= i < |rows| && rows[i] < |t.train| && name in t.train[rows[i]] && t.train[rows[i]][name] == Number(x)
  }

  /** Two numbers of the rows with no other between them. */
  ghost predicate Adjacent(t: Task, rows: seq<nat>, name: bytes, a: Rank, b: Rank) {
    a < b && HasNumber(t, rows, name, a) && HasNumber(t, rows, name, b)
    && forall x: Rank :: HasNumber(t, rows, name, x) ==> x <= a || b <= x
  }

  /** A constant that is tried: a boolean, a category, or the midpoint of two adjacent numbers of the rows. */
  ghost predicate Tried(t: Task, f: Feature, rows: seq<nat>, constant: Value) {
    match f.kind
    case Numbers =>
      exists a: Rank, b: Rank ::
        Adjacent(t, rows, f.name, a, b) && Middle(t, a, b) && constant == Number(t.midpoint(a, b).value)
    case Booleans => constant.Boolean?
    case Categories(names) => constant.Text? && constant.s in names
  }

  /**
   A constant that divides the rows' numbers where a double can stand between them. Every other number leaves no number on
   one side, or falls between neighbouring doubles.
   */
  ghost predicate Divides(t: Task, f: Feature, rows: seq<nat>, constant: Value) {
    && InKind(f.kind, constant)
    && (f.kind.Numbers? ==>
          exists a: Rank, b: Rank :: Adjacent(t, rows, f.name, a, b) && a <= constant.rank < b && a + 1 < b)
  }

  predicate Ascends(s: seq<Rank>) { forall i, j :: 0 <= i < j < |s| ==> s[i] < s[j] }

  lemma {:induction false} InsertMembers(x: Rank, s: seq<Rank>)
    requires Ascends(s)
    ensures Ascends(Insert(x, s))
    ensures forall y :: y in Insert(x, s) <==> y == x || y in s
  {
    if s == [] {
    } else if x < s[0] {
      assert ([x] + s)[1..] == s;
      forall y ensures y in [x] + s <==> y == x || y in s {}
    } else if x > s[0] {
      InsertMembers(x, s[1..]);
      var rest := Insert(x, s[1..]);
      forall j | 0 <= j < |rest| ensures s[0] < rest[j] {
        assert rest[j] in rest;
        assert rest[j] == x || rest[j] in s[1..];
      }
      assert forall y :: y in s <==> y == s[0] || y in s[1..];
    }
  }

  lemma {:induction false} NumbersExact(t: Task, rows: seq<nat>, name: bytes)
    ensures Ascends(Numbers(t, rows, name))
    ensures forall x :: x in Numbers(t, rows, name) <==> HasNumber(t, rows, name, x)
    decreases |rows|
  {
    hide Insert;
    if rows != [] {
      NumbersExact(t, rows[1..], name);
      var row, rest := rows[0], Numbers(t, rows[1..], name);
      var here := row < |t.train| && name in t.train[row] && t.train[row][name].Number?;
      if here {
        InsertMembers(t.train[row][name].rank, rest);
      }
      forall x
        ensures HasNumber(t, rows, name, x)
           <==> (here && t.train[row][name] == Number(x)) || HasNumber(t, rows[1..], name, x)
      {
        HasHead(t, rows, name, x);
      }
    }
  }

  lemma HasHead(t: Task, rows: seq<nat>, name: bytes, x: Rank)
    requires rows != []
    ensures HasNumber(t, rows, name, x)
       <==> (rows[0] < |t.train| && name in t.train[rows[0]] && t.train[rows[0]][name] == Number(x))
            || HasNumber(t, rows[1..], name, x)
  {
    if i :| 0 <= i < |rows[1..]| && rows[1..][i] < |t.train| && name in t.train[rows[1..][i]] && t.train[rows[1..][i]][name] == Number(x) {
      assert rows[i + 1] == rows[1..][i];
    }
    if i :| 0 <= i < |rows| && rows[i] < |t.train| && name in t.train[rows[i]] && t.train[rows[i]][name] == Number(x) {
      assert i > 0 ==> rows[1..][i - 1] == rows[i];
    }
  }

  predicate Between(t: Task, sorted: seq<Rank>, i: nat, v: Value) {
    i + 1 < |sorted| && Middle(t, sorted[i], sorted[i + 1]) && v == Number(t.midpoint(sorted[i], sorted[i + 1]).value)
  }

  ghost predicate Midway(t: Task, sorted: seq<Rank>, v: Value) { exists i: nat :: Between(t, sorted, i, v) }

  lemma MidwayHead(t: Task, sorted: seq<Rank>, v: Value)
    requires |sorted| >= 2
    ensures Midway(t, sorted, v) <==> Between(t, sorted, 0, v) || Midway(t, sorted[1..], v)
  {
    if i: nat :| Between(t, sorted, i, v) {
      assert i > 0 ==> Between(t, sorted[1..], i - 1, v);
    }
    if i: nat :| Between(t, sorted[1..], i, v) {
      assert Between(t, sorted, i + 1, v);
    }
  }

  /** The midpoints, one for each pair that has one. */
  lemma {:induction false} MidpointsExact(t: Task, sorted: seq<Rank>)
    ensures forall v :: v in Midpoints(t, sorted) <==> Midway(t, sorted, v)
    decreases |sorted|
  {
    hide Midway;
    forall v ensures v in Midpoints(t, sorted) <==> Midway(t, sorted, v) {
      if |sorted| < 2 {
        NotMidway(t, sorted, v);
      } else {
        MidpointsExact(t, sorted[1..]);
        MidwayHead(t, sorted, v);
      }
    }
  }

  predicate RanksAscend(vs: seq<Value>, above: Rank) {
    && (forall i :: 0 <= i < |vs| ==> vs[i].Number? && vs[i].rank > above)
    && forall i, j :: 0 <= i < j < |vs| ==> vs[i].rank < vs[j].rank
  }

  /** They come in ascending order. */
  lemma {:induction false} MidpointsAscend(t: Task, sorted: seq<Rank>)
    requires Ascends(sorted) && sorted != []
    ensures RanksAscend(Midpoints(t, sorted), sorted[0])
    decreases |sorted|
  {
    if |sorted| >= 2 {
      MidpointsAscend(t, sorted[1..]);
      RanksPrepend(t, sorted[0], sorted[1], Midpoints(t, sorted[1..]));
    }
  }

  lemma RanksPrepend(t: Task, a: Rank, b: Rank, rest: seq<Value>)
    requires a < b && RanksAscend(rest, b)
    ensures RanksAscend(rest, a)
    ensures Middle(t, a, b) ==> RanksAscend([Number(t.midpoint(a, b).value)] + rest, a)
  {}

  lemma NotMidway(t: Task, sorted: seq<Rank>, v: Value)
    requires |sorted| < 2
    ensures !Midway(t, sorted, v)
  {}

  /** Numbers next to each other in the sorted list are adjacent numbers of the rows. */
  lemma NextAdjacent(t: Task, rows: seq<nat>, name: bytes, a: Rank, b: Rank)
    ensures var sorted := Numbers(t, rows, name);
            Adjacent(t, rows, name, a, b) <==> exists i :: 0 <= i < |sorted| - 1 && sorted[i] == a && sorted[i + 1] == b
  {
    hide HasNumber, Numbers;
    NumbersExact(t, rows, name);
    var sorted := Numbers(t, rows, name);
    if Adjacent(t, rows, name, a, b) {
      var i :| 0 <= i < |sorted| && sorted[i] == a;
      var j :| 0 <= j < |sorted| && sorted[j] == b;
      assert i < j;
      assert sorted[i + 1] in sorted && a < sorted[i + 1];
      assert sorted[i + 1] == b;
    }
    if i :| 0 <= i < |sorted| - 1 && sorted[i] == a && sorted[i + 1] == b {
      assert a in sorted && b in sorted;
      forall x: Rank | HasNumber(t, rows, name, x) ensures x <= a || b <= x {
        var j :| 0 <= j < |sorted| && sorted[j] == x;
        assert j <= i ==> sorted[j] <= sorted[i];
        assert j >= i + 1 ==> sorted[i + 1] <= sorted[j];
      }
    }
  }

  /** The constants tried for a feature are exactly those. */
  lemma CandidatesExact(t: Task, f: Feature, rows: seq<nat>, v: Value)
    ensures v in Candidates(t, f, rows) <==> Tried(t, f, rows, v)
    ensures Tried(t, f, rows, v) ==> InKind(f.kind, v)
  {
    hide Adjacent, Numbers, Midpoints;
    match f.kind {
      case Numbers =>
        var sorted := Numbers(t, rows, f.name);
        NumbersExact(t, rows, f.name);
        MidpointsExact(t, sorted);
        if i: nat :| Between(t, sorted, i, v) {
          NextAdjacent(t, rows, f.name, sorted[i], sorted[i + 1]);
        }
        if Tried(t, f, rows, v) {
          var a: Rank, b: Rank :| Adjacent(t, rows, f.name, a, b) && Middle(t, a, b) && v == Number(t.midpoint(a, b).value);
          NextAdjacent(t, rows, f.name, a, b);
          var i :| 0 <= i < |sorted| - 1 && sorted[i] == a && sorted[i + 1] == b;
          assert Between(t, sorted, i, v);
        }
      case Booleans =>
        assert v.Boolean? ==> v == Boolean(v.b);
      case Categories(names) => TextsExact(names, v);
    }
  }

  lemma {:induction false} TextsExact(names: seq<bytes>, v: Value)
    ensures v in Texts(names) <==> v.Text? && v.s in names
  {
    if names != [] {
      TextsExact(names[1..], v);
      assert forall x :: x in names <==> x == names[0] || x in names[1..];
      var rest := Texts(names[1..]);
      assert v in Texts(names) <==> v == Text(names[0]) || v in rest;
    }
  }

  // ----- every constant that divides the numbers divides the rows as one that is tried

  lemma SameChoice(t: Task, rows: seq<nat>, f: Feature, c: Value, m: Value, a: Rank, b: Rank, missingLeft: bool, row: nat)
    requires f.kind.Numbers? && c.Number? && m.Number? && a <= c.rank < b && a <= m.rank < b
    requires Adjacent(t, rows, f.name, a, b) && row in rows
    ensures RowLeft(t, row, f, c, missingLeft) == RowLeft(t, row, f, m, missingLeft)
  {
    hide HasNumber;
    if row < |t.train| && f.name in t.train[row] && t.train[row][f.name].Number? {
      RowHas(t, rows, f.name, row);
    }
  }

  lemma RowHas(t: Task, rows: seq<nat>, name: bytes, row: nat)
    requires row in rows && row < |t.train| && name in t.train[row] && t.train[row][name].Number?
    ensures HasNumber(t, rows, name, t.train[row][name].rank)
  {
    var i :| 0 <= i < |rows| && rows[i] == row;
    assert t.train[rows[i]][name] == Number(t.train[row][name].rank);
  }

  lemma {:induction false} SameSides(t: Task, rows: seq<nat>, f: Feature, c: Value, m: Value, missingLeft: bool, left: bool)
    requires forall row :: row in rows ==> RowLeft(t, row, f, c, missingLeft) == RowLeft(t, row, f, m, missingLeft)
    ensures Side(t, rows, f, c, missingLeft, left) == Side(t, rows, f, m, missingLeft, left)
    decreases |rows|
  {
    hide RowLeft;
    if rows != [] {
      var front := rows[..|rows| - 1];
      assert forall row :: row in front ==> row in rows;
      assert rows[|rows| - 1] in rows;
      SameSides(t, front, f, c, m, missingLeft, left);
    }
  }

  /**
   Completeness of the constants: each constant of the feature's kind that divides the numbers of the rows where a double can
   stand divides the rows, with missing values on either side, as some constant that is tried; it gains what that one gains.
   */
  lemma CandidatesComplete(t: Task, f: Feature, rows: seq<nat>, c: Value) returns (m: Value)
    requires TaskOk(t) && Divides(t, f, rows, c)
    ensures Tried(t, f, rows, m) && m in Candidates(t, f, rows)
    ensures forall missingLeft, left :: Side(t, rows, f, c, missingLeft, left) == Side(t, rows, f, m, missingLeft, left)
    ensures forall missingLeft :: GainOf(t, rows, f, c, missingLeft) == GainOf(t, rows, f, m, missingLeft)
  {
    hide Adjacent, Candidates, Side, RowLeft, RowOk, Gain;
    m := c;
    if f.kind.Numbers? {
      var a: Rank, b: Rank :| Adjacent(t, rows, f.name, a, b) && a <= c.rank < b && a + 1 < b;
      assert Middle(t, a, b);
      m := Number(t.midpoint(a, b).value);
      forall missingLeft, left ensures Side(t, rows, f, c, missingLeft, left) == Side(t, rows, f, m, missingLeft, left) {
        forall row | row in rows ensures RowLeft(t, row, f, c, missingLeft) == RowLeft(t, row, f, m, missingLeft) {
          SameChoice(t, rows, f, c, m, a, b, missingLeft, row);
        }
        SameSides(t, rows, f, c, m, missingLeft, left);
      }
    }
    CandidatesExact(t, f, rows, m);
  }

  /** A number that does not divide the numbers of the rows leaves none on one side, or falls just below the next double that is a row's. */
  lemma {:induction false} Straddle(sorted: seq<Rank>, c: Rank) returns (i: nat)
    requires sorted != [] && sorted[0] <= c < sorted[|sorted| - 1]
    ensures i + 1 < |sorted| && sorted[i] <= c < sorted[i + 1]
  {
    if c < sorted[1] {
      i := 0;
    } else {
      i := Straddle(sorted[1..], c);
      i := i + 1;
    }
  }

  lemma OthersDivideNothing(t: Task, f: Feature, rows: seq<nat>, c: Rank)
    requires f.kind.Numbers? && !Divides(t, f, rows, Number(c))
    ensures (forall x: Rank :: HasNumber(t, rows, f.name, x) ==> x <= c)
         || (forall x: Rank :: HasNumber(t, rows, f.name, x) ==> x > c)
         || (HasNumber(t, rows, f.name, c) && c + 1 <= FINITE && HasNumber(t, rows, f.name, c + 1))
  {
    hide HasNumber, Numbers, Adjacent;
    var sorted := Numbers(t, rows, f.name);
    NumbersExact(t, rows, f.name);
    if x: Rank, y: Rank :| HasNumber(t, rows, f.name, x) && x <= c && HasNumber(t, rows, f.name, y) && c < y {
      var j :| 0 <= j < |sorted| && sorted[j] == x;
      var k :| 0 <= k < |sorted| && sorted[k] == y;
      assert sorted[0] <= x && y <= sorted[|sorted| - 1];
      var i := Straddle(sorted, c);
      NextAdjacent(t, rows, f.name, sorted[i], sorted[i + 1]);
      assert sorted[i] in sorted && sorted[i + 1] in sorted;
      assert sorted[i] + 1 >= sorted[i + 1];
    }
  }

  function Gain(t: Task, rows: seq<nat>, parent: real, left: seq<nat>, right: seq<nat>, leftScore: real, rightScore: real): real
    requires rows != []
  {
    if t.boosted then leftScore + rightScore - parent
    else parent - (leftScore * |left| as real + rightScore * |right| as real) / |rows| as real
  }

  /** The gain of a split, if it leaves enough rows on both sides and the objective is finite. */
  function GainOf(t: Task, rows: seq<nat>, f: Feature, constant: Value, missingLeft: bool): Option<real> {
    var left, right := Side(t, rows, f, constant, missingLeft, true), Side(t, rows, f, constant, missingLeft, false);
    if rows == [] || |left| < t.minLeaf || |right| < t.minLeaf then None else
    var parent, leftScore, rightScore := t.score(rows), t.score(left), t.score(right);
    if parent.Err? || leftScore.Err? || rightScore.Err? then None
    else Some(Gain(t, rows, parent.value, left, right, leftScore.value, rightScore.value))
  }

  /**
   What a gain means: both sides are large enough, and the score of the rows less the gain is the mean of the sides' scores,
   weighed by their rows; when boosting, the scores of the sides add up to the score of the rows and the gain.
   */
  lemma GainMeans(t: Task, rows: seq<nat>, f: Feature, c: Value, missingLeft: bool, gain: real)
    requires GainOf(t, rows, f, c, missingLeft) == Some(gain)
    ensures var left, right := Side(t, rows, f, c, missingLeft, true), Side(t, rows, f, c, missingLeft, false);
            && |left| >= t.minLeaf && |right| >= t.minLeaf && |left| + |right| == |rows|
            && t.score(rows).Ok? && t.score(left).Ok? && t.score(right).Ok?
            && (t.boosted ==> t.score(left).value + t.score(right).value == t.score(rows).value + gain)
            && (!t.boosted ==>
                  (t.score(rows).value - gain) * |rows| as real
                  == t.score(left).value * |left| as real + t.score(right).value * |right| as real)
  {
    hide Side;
    SidesPartition(t, rows, f, c, missingLeft);
    var left, right := Side(t, rows, f, c, missingLeft, true), Side(t, rows, f, c, missingLeft, false);
    if !t.boosted {
      var total := t.score(left).value * |left| as real + t.score(right).value * |right| as real;
      assert t.score(rows).value - gain == total / |rows| as real;
      Quotient(total, |rows| as real);
    }
  }

  lemma Quotient(x: real, n: real)
    requires n > 0.0
    ensures (x / n) * n == x
  {}

  predicate NotAbove(gain: Option<real>, most: real) { gain.Some? ==> gain.value <= most }

  predicate Below(gain: Option<real>, most: real) { gain.Some? ==> gain.value < most }

  // ----- the best split of a node

  /** The feature that node `here` considers at place `i`. */
  predicate Considers(t: Task, here: nat, i: nat, f: Feature) {
    i < |t.tried(here)| && t.tried(here)[i] < |t.schema| && t.schema[t.tried(here)[i]] == f
  }

  /** No constant that divides the rows by a feature that node `here` considers gains more than `most`. */
  ghost predicate NoneAbove(t: Task, here: nat, rows: seq<nat>, most: real) {
    forall i: nat, f, c, missingLeft :: Considers(t, here, i, f) && Divides(t, f, rows, c) ==>
      NotAbove(GainOf(t, rows, f, c, missingLeft), most)
  }

  /** The constant `c` is tried before `d`: numbers ascend, false is before true, categories come in their order. */
  predicate Precedes(f: Feature, c: Value, d: Value) {
    match f.kind
    case Numbers => c.Number? && d.Number? && c.rank < d.rank
    case Booleans => c == Boolean(false) && d == Boolean(true)
    case Categories(names) =>
      c.Text? && d.Text? && exists p :: 0 <= p < |names| && names[p] == c.s && d.s !in names[..p + 1]
  }

  /** A split of the feature considered at place `i` that is tried and gains more than every split tried before it. */
  ghost predicate FirstBest(
    t: Task, here: nat, i: nat, rows: seq<nat>, f: Feature, constant: Value, missingLeft: bool, gain: real)
  {
    && Considers(t, here, i, f) && Tried(t, f, rows, constant)
    && (forall j: nat, g, c, m :: j < i && Considers(t, here, j, g) && Divides(t, g, rows, c) ==> Below(GainOf(t, rows, g, c, m), gain))
    && (forall c, m :: Tried(t, f, rows, c) && Precedes(f, c, constant) ==> Below(GainOf(t, rows, f, c, m), gain))
    && (!missingLeft ==> Below(GainOf(t, rows, f, constant, true), gain))
  }

  /** The split of the greatest gain, the first of them. */
  ghost predicate Chosen(t: Task, here: nat, rows: seq<nat>, f: Feature, constant: Value, missingLeft: bool, gain: real) {
    && NoneAbove(t, here, rows, gain)
    && exists i: nat :: FirstBest(t, here, i, rows, f, constant, missingLeft, gain)
  }

  lemma {:induction false} TextsAt(names: seq<bytes>, p: nat)
    ensures |Texts(names)| == |names| && (p < |names| ==> Texts(names)[p] == Text(names[p]))
  {
    if names != [] {
      TextsAt(names[1..], if p > 0 then p - 1 else 0);
    }
  }

  /** The constants come in that order. */
  lemma CandidatesOrder(t: Task, f: Feature, rows: seq<nat>, c: Value, k: nat)
    requires k < |Candidates(t, f, rows)| && c in Candidates(t, f, rows) && Precedes(f, c, Candidates(t, f, rows)[k])
    ensures exists l :: 0 <= l < k && Candidates(t, f, rows)[l] == c
  {
    var all := Candidates(t, f, rows);
    match f.kind {
      case Numbers =>
        var sorted := Numbers(t, rows, f.name);
        NumbersExact(t, rows, f.name);
        assert sorted != [];
        MidpointsAscend(t, sorted);
        var l :| 0 <= l < |all| && all[l] == c;
        assert l < k;
      case Booleans => assert all[0] == c;
      case Categories(names) =>
        TextsAt(names, k);
        var p :| 0 <= p < |names| && names[p] == c.s && all[k].s !in names[..p + 1];
        TextsAt(names, p);
        assert forall q :: 0 <= q <= p ==> names[q] in names[..p + 1];
    }
  }

  lemma {:induction false} SideRows(t: Task, rows: seq<nat>, f: Feature, constant: Value, missingLeft: bool, left: bool)
    ensures forall row :: row in Side(t, rows, f, constant, missingLeft, left) ==> row in rows
    ensures RowsOk(t, rows) ==> RowsOk(t, Side(t, rows, f, constant, missingLeft, left))
  {
    if rows != [] {
      SideRows(t, rows[..|rows| - 1], f, constant, missingLeft, left);
    }
  }

  lemma {:induction false} SidesPartition(t: Task, rows: seq<nat>, f: Feature, constant: Value, missingLeft: bool)
    ensures |Side(t, rows, f, constant, missingLeft, true)| + |Side(t, rows, f, constant, missingLeft, false)| == |rows|
  {
    if rows != [] {
      SidesPartition(t, rows[..|rows| - 1], f, constant, missingLeft);
    }
  }
}
