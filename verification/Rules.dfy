/** Boolean rules over features that may be missing (`rules.rs`): what they say, and which clauses contradict themselves. */
module Rules {
  import opened Bytes

  /**
   A finite double, as its rank among all of them: `next_up` is the successor and the two zeros are one rank.
   */
  const FINITE := 0x7FEF_FFFF_FFFF_FFFF

  type Rank = x: int | -FINITE <= x <= FINITE

  datatype Value = Null | Number(rank: Rank) | Boolean(b: bool) | Text(s: bytes)

  datatype Operator = Eq | Ne | Lt | Le | Gt | Ge

  datatype Atom = Atom(feature: bytes, op: Operator, constant: Value, negated: bool)

  type Clause = seq<Atom>

  /** A disjunction of conjunctions. */
  type Rule = seq<Clause>

  type Features = map<bytes, Value>

  datatype Kind = Numbers | Booleans | Categories(names: seq<bytes>)

  datatype Feature = Feature(name: bytes, kind: Kind)

  predicate Compare(op: Operator, left: int, right: int) {
    match op
    case Eq => left == right
    case Ne => left != right
    case Lt => left < right
    case Le => left <= right
    case Gt => left > right
    case Ge => left >= right
  }

  /** `atom_result`: unknown when the feature is missing or null, or the operator does not apply. */
  function AtomResult(atom: Atom, features: Features): Option<bool> {
    if atom.feature !in features || features[atom.feature].Null? then None else
    var value := features[atom.feature];
    if value.Number? && atom.constant.Number? then Some(Compare(atom.op, value.rank, atom.constant.rank) != atom.negated) else
    match atom.op
    case Eq => Some((value == atom.constant) != atom.negated)
    case Ne => Some((value != atom.constant) != atom.negated)
    case _ => None
  }

  /** Which operators answer true of a smaller, an equal and a greater number. */
  lemma OperatorsAnswer(op: Operator, left: int, right: int)
    ensures left < right ==> (Compare(op, left, right) <==> op in {Ne, Lt, Le})
    ensures left == right ==> (Compare(op, left, right) <==> op in {Eq, Le, Ge})
    ensures left > right ==> (Compare(op, left, right) <==> op in {Ne, Gt, Ge})
  {
    match op
    case Eq => case Ne => case Lt => case Le => case Gt => case Ge =>
  }

  /** What an atom answers: nothing for a missing value or an order of other things than numbers, and a negated atom the opposite. */
  lemma AtomAnswers(atom: Atom, features: Features)
    ensures atom.feature !in features || features[atom.feature] == Null ==> AtomResult(atom, features) == None
    ensures atom.feature in features && features[atom.feature] != Null ==>
              var value := features[atom.feature];
              var numbers := value.Number? && atom.constant.Number?;
              && (AtomResult(atom, features) == None <==> !numbers && atom.op in {Lt, Le, Gt, Ge})
              && (numbers ==>
                    AtomResult(atom.(negated := false), features)
                    == Some(if value.rank < atom.constant.rank then atom.op in {Ne, Lt, Le}
                            else if value.rank > atom.constant.rank then atom.op in {Ne, Gt, Ge} else atom.op in {Eq, Le, Ge}))
              && (!numbers && atom.op.Eq? ==> AtomResult(atom.(negated := false), features) == Some(value == atom.constant))
              && (!numbers && atom.op.Ne? ==> AtomResult(atom.(negated := false), features) == Some(value != atom.constant))
    ensures AtomResult(atom, features).Some? ==>
              AtomResult(atom, features) == Some(AtomResult(atom.(negated := false), features) == Some(!atom.negated))
  {
    if atom.feature in features && features[atom.feature].Number? && atom.constant.Number? {
      OperatorsAnswer(atom.op, features[atom.feature].rank, atom.constant.rank);
    }
  }

  // ----- what a rule means when some atoms are unknown

  predicate SomeAtom(clause: Clause, features: Features, result: Option<bool>) {
    exists i :: 0 <= i < |clause| && AtomResult(clause[i], features) == result
  }

  /** Conjunction of three truth values: false when any atom is, unknown when none is false and one is unknown. */
  function ClauseResult(clause: Clause, features: Features): Option<bool> {
    if SomeAtom(clause, features, Some(false)) then Some(false)
    else if SomeAtom(clause, features, None) then None
    else Some(true)
  }

  predicate SomeClause(rule: Rule, features: Features, result: Option<bool>) {
    exists i :: 0 <= i < |rule| && ClauseResult(rule[i], features) == result
  }

  /** Disjunction of three truth values. */
  function RuleResult(rule: Rule, features: Features): Option<bool> {
    if SomeClause(rule, features, Some(true)) then Some(true)
    else if SomeClause(rule, features, None) then None
    else Some(false)
  }

  predicate AllKnown(clause: Clause, features: Features) {
    forall k :: 0 <= k < |clause| ==> AtomResult(clause[k], features).Some?
  }

  predicate AllTrue(clause: Clause, features: Features) {
    forall k :: 0 <= k < |clause| ==> AtomResult(clause[k], features) == Some(true)
  }

  lemma ClauseMeans(clause: Clause, features: Features)
    requires AllKnown(clause, features)
    ensures ClauseResult(clause, features) == Some(AllTrue(clause, features))
  {
    hide AtomResult;
    forall k | 0 <= k < |clause| && AtomResult(clause[k], features) != Some(false)
      ensures AtomResult(clause[k], features) == Some(true)
    {
      var known := AtomResult(clause[k], features);
      assert known.value || known == Some(false);
    }
  }

  /** When every atom is known, a rule is true just when all the atoms of some clause are. */
  lemma RuleMeans(rule: Rule, features: Features)
    requires forall i :: 0 <= i < |rule| ==> AllKnown(rule[i], features)
    ensures RuleResult(rule, features) == Some(exists i :: 0 <= i < |rule| && AllTrue(rule[i], features))
  {
    hide ClauseResult, AllKnown, AllTrue;
    forall i | 0 <= i < |rule| ensures ClauseResult(rule[i], features) == Some(AllTrue(rule[i], features)) {
      ClauseMeans(rule[i], features);
    }
  }

  /** `completed` keeps every known value and may fill in the missing ones. */
  ghost predicate Completes(completed: Features, features: Features) {
    forall name :: name in features && features[name] != Null ==> name in completed && completed[name] == features[name]
  }

  lemma AtomCompleted(atom: Atom, features: Features, completed: Features)
    requires Completes(completed, features) && AtomResult(atom, features).Some?
    ensures AtomResult(atom, completed) == AtomResult(atom, features)
  {}

  lemma ClauseCompleted(clause: Clause, features: Features, completed: Features)
    requires Completes(completed, features) && ClauseResult(clause, features).Some?
    ensures ClauseResult(clause, completed) == ClauseResult(clause, features)
  {
    hide AtomResult, Completes;
    forall i | 0 <= i < |clause| && AtomResult(clause[i], features).Some?
      ensures AtomResult(clause[i], completed) == AtomResult(clause[i], features)
    {
      AtomCompleted(clause[i], features, completed);
    }
    if SomeAtom(clause, features, Some(false)) {
      var i :| 0 <= i < |clause| && AtomResult(clause[i], features) == Some(false);
      assert AtomResult(clause[i], completed) == Some(false);
    } else {
      forall i | 0 <= i < |clause| ensures AtomResult(clause[i], completed) == Some(true) {
        var known := AtomResult(clause[i], features);
        assert known != None && known != Some(false);
        assert known.value || known == Some(false);
      }
    }
  }

  /** A definite answer stands however the missing features turn out. */
  lemma DefiniteStands(rule: Rule, features: Features, completed: Features)
    requires Completes(completed, features) && RuleResult(rule, features).Some?
    ensures RuleResult(rule, completed) == RuleResult(rule, features)
  {
    hide ClauseResult, Completes;
    forall i | 0 <= i < |rule| && ClauseResult(rule[i], features).Some?
      ensures ClauseResult(rule[i], completed) == ClauseResult(rule[i], features)
    {
      ClauseCompleted(rule[i], features, completed);
    }
    if SomeClause(rule, features, Some(true)) {
      var i :| 0 <= i < |rule| && ClauseResult(rule[i], features) == Some(true);
      assert ClauseResult(rule[i], completed) == Some(true);
    } else {
      forall i | 0 <= i < |rule| ensures ClauseResult(rule[i], completed) == Some(false) {
        var known := ClauseResult(rule[i], features);
        assert known != None && known != Some(true);
        assert !known.value || known == Some(true);
      }
    }
  }

  // ----- contradictory clauses

  /** The constraints a clause puts on one feature. */
  function Constraints(clause: Clause, name: bytes): Clause {
    if clause == [] then []
    else (if clause[0].feature == name then [clause[0]] else []) + Constraints(clause[1..], name)
  }

  predicate Admits(constraints: Clause, name: bytes, value: Value) {
    forall i :: 0 <= i < |constraints| ==> AtomResult(constraints[i], map[name := value]) == Some(true)
  }

  /** The values a feature can have when it is there. */
  predicate InKind(kind: Kind, value: Value) {
    match kind
    case Numbers => value.Number?
    case Booleans => value.Boolean?
    case Categories(names) => value.Text? && value.s in names
  }

  function Around(constant: Rank): seq<Value> {
    (if constant > -FINITE then [Number(constant - 1)] else []) + [Number(constant)]
    + (if constant < FINITE then [Number(constant + 1)] else [])
  }

  function AroundAll(constraints: Clause): seq<Value> {
    if constraints == [] then []
    else (if constraints[0].constant.Number? then Around(constraints[0].constant.rank) else []) + AroundAll(constraints[1..])
  }

  function Texts(names: seq<bytes>): seq<Value> {
    if names == [] then [] else [Text(names[0])] + Texts(names[1..])
  }

  /** The values `candidate` tries: all of a finite kind, or each constant with its neighbours. */
  function TestPoints(kind: Kind, constraints: Clause): seq<Value> {
    match kind
    case Numbers => AroundAll(constraints)
    case Booleans => [Boolean(false), Boolean(true)]
    case Categories(names) => Texts(names)
  }

  predicate AdmitsAny(constraints: Clause, name: bytes, points: seq<Value>) {
    exists i :: 0 <= i < |points| && Admits(constraints, name, points[i])
  }

  /** Every constraint is on the feature, with a constant of its kind. */
  predicate OnFeature(constraints: Clause, f: Feature) {
    forall i :: 0 <= i < |constraints| ==>
      constraints[i].feature == f.name && (f.kind.Numbers? ==> constraints[i].constant.Number?)
  }

  lemma {:induction false} AroundMember(constraints: Clause, i: nat)
    requires i < |constraints| && constraints[i].constant.Number?
    ensures var c := constraints[i].constant.rank;
            && Number(c) in AroundAll(constraints)
            && (c > -FINITE ==> Number(c - 1) in AroundAll(constraints))
            && (c < FINITE ==> Number(c + 1) in AroundAll(constraints))
  {
    if i == 0 {
      var c := constraints[0].constant.rank;
      assert Number(c) in Around(c);
    } else {
      AroundMember(constraints[1..], i - 1);
    }
  }

  lemma {:induction false} TextMember(names: seq<bytes>, s: bytes)
    requires s in names
    ensures Text(s) in Texts(names)
    decreases |names|
  {
    if s != names[0] {
      TextMember(names[1..], s);
    }
  }

  lemma {:induction false} AroundNumbers(constraints: Clause)
    ensures forall v :: v in AroundAll(constraints) ==> v.Number?
  {
    if constraints != [] {
      AroundNumbers(constraints[1..]);
    }
  }

  lemma {:induction false} TextsNamed(names: seq<bytes>)
    ensures forall v :: v in Texts(names) ==> v.Text? && v.s in names
  {
    if names != [] {
      TextsNamed(names[1..]);
      assert forall s :: s in names <==> s == names[0] || s in names[1..];
    }
  }

  lemma TestPointsInKind(kind: Kind, constraints: Clause)
    ensures forall v :: v in TestPoints(kind, constraints) ==> InKind(kind, v)
  {
    match kind
    case Numbers => AroundNumbers(constraints);
    case Booleans =>
    case Categories(names) => TextsNamed(names);
  }

  /** The least constant above `v`, if there is one: just below it, every constraint says what it says of `v`. */
  lemma {:induction false} NextAbove(constraints: Clause, v: Rank) returns (i: int)
    requires forall k :: 0 <= k < |constraints| ==> constraints[k].constant.Number?
    ensures -1 <= i < |constraints|
    ensures i == -1 ==> forall k :: 0 <= k < |constraints| ==> constraints[k].constant.rank <= v
    ensures i >= 0 ==> v < constraints[i].constant.rank
    ensures i >= 0 ==> forall k :: 0 <= k < |constraints| && v < constraints[k].constant.rank ==>
                         constraints[i].constant.rank <= constraints[k].constant.rank
    decreases |constraints|
  {
    i := -1;
    if constraints != [] {
      var rest := constraints[1..];
      var j := NextAbove(rest, v);
      assert forall k :: 0 < k < |constraints| ==> constraints[k] == rest[k - 1];
      var c := constraints[0].constant.rank;
      i := if v < c && (j < 0 || c <= rest[j].constant.rank) then 0 else if j < 0 then -1 else j + 1;
    }
  }

  lemma {:induction false} LastBelow(constraints: Clause, v: Rank) returns (i: int)
    requires forall k :: 0 <= k < |constraints| ==> constraints[k].constant.Number?
    ensures -1 <= i < |constraints|
    ensures i == -1 ==> forall k :: 0 <= k < |constraints| ==> v <= constraints[k].constant.rank
    ensures i >= 0 ==> constraints[i].constant.rank < v
    ensures i >= 0 ==> forall k :: 0 <= k < |constraints| && constraints[k].constant.rank < v ==>
                         constraints[k].constant.rank <= constraints[i].constant.rank
    decreases |constraints|
  {
    i := -1;
    if constraints != [] {
      var rest := constraints[1..];
      var j := LastBelow(rest, v);
      assert forall k :: 0 < k < |constraints| ==> constraints[k] == rest[k - 1];
      var c := constraints[0].constant.rank;
      i := if c < v && (j < 0 || rest[j].constant.rank <= c) then 0 else if j < 0 then -1 else j + 1;
    }
  }

  /** Values on the same side of every constant are admitted alike. */
  lemma SameSide(constraints: Clause, name: bytes, v: Rank, w: Rank)
    requires forall i :: 0 <= i < |constraints| ==> constraints[i].constant.Number? && constraints[i].feature == name
    requires forall i :: 0 <= i < |constraints| ==>
               var c := constraints[i].constant.rank; (v < c <==> w < c) && (c < v <==> c < w)
    requires Admits(constraints, name, Number(v))
    ensures Admits(constraints, name, Number(w))
  {
    forall i | 0 <= i < |constraints|
      ensures AtomResult(constraints[i], map[name := Number(w)]) == Some(true)
    {
      assert AtomResult(constraints[i], map[name := Number(v)]) == Some(true);
    }
  }

  lemma BelowNext(constraints: Clause, name: bytes, v: Rank, i: nat) returns (w: Rank)
    requires forall k :: 0 <= k < |constraints| ==> constraints[k].constant.Number? && constraints[k].feature == name
    requires forall k :: 0 <= k < |constraints| ==> constraints[k].constant.rank != v
    requires i < |constraints| && v < constraints[i].constant.rank
    requires forall k :: 0 <= k < |constraints| && v < constraints[k].constant.rank ==>
               constraints[i].constant.rank <= constraints[k].constant.rank
    requires Admits(constraints, name, Number(v))
    ensures Number(w) in AroundAll(constraints) && Admits(constraints, name, Number(w))
  {
    hide Admits, AroundAll;
    w := constraints[i].constant.rank - 1;
    AroundMember(constraints, i);
    SameSide(constraints, name, v, w);
  }

  lemma AboveLast(constraints: Clause, name: bytes, v: Rank, i: nat) returns (w: Rank)
    requires forall k :: 0 <= k < |constraints| ==> constraints[k].constant.Number? && constraints[k].feature == name
    requires forall k :: 0 <= k < |constraints| ==> constraints[k].constant.rank != v
    requires i < |constraints| && constraints[i].constant.rank < v
    requires forall k :: 0 <= k < |constraints| && constraints[k].constant.rank < v ==>
               constraints[k].constant.rank <= constraints[i].constant.rank
    requires Admits(constraints, name, Number(v))
    ensures Number(w) in AroundAll(constraints) && Admits(constraints, name, Number(w))
  {
    hide Admits, AroundAll;
    w := constraints[i].constant.rank + 1;
    AroundMember(constraints, i);
    SameSide(constraints, name, v, w);
  }

  lemma NumberPoint(constraints: Clause, f: Feature, v: Rank) returns (w: Rank)
    requires f.kind.Numbers? && OnFeature(constraints, f) && constraints != [] && Admits(constraints, f.name, Number(v))
    ensures Number(w) in AroundAll(constraints) && Admits(constraints, f.name, Number(w))
  {
    hide Admits, AroundAll;
    if i :| 0 <= i < |constraints| && constraints[i].constant.rank == v {
      AroundMember(constraints, i);
      return v;
    }
    var i := NextAbove(constraints, v);
    if i >= 0 {
      w := BelowNext(constraints, f.name, v, i);
    } else {
      var j := LastBelow(constraints, v);
      assert constraints[0].constant.rank < v;
      w := AboveLast(constraints, f.name, v, j);
    }
  }

  /** Trying the points is exact: some value of the feature satisfies the constraints if and only if some point does. */
  lemma PointsExact(constraints: Clause, f: Feature)
    requires OnFeature(constraints, f) && constraints != []
    ensures AdmitsAny(constraints, f.name, TestPoints(f.kind, constraints))
       <==> exists v :: InKind(f.kind, v) && Admits(constraints, f.name, v)
  {
    hide Admits, AroundAll, Texts;
    var points := TestPoints(f.kind, constraints);
    TestPointsInKind(f.kind, constraints);
    if AdmitsAny(constraints, f.name, points) {
      var i :| 0 <= i < |points| && Admits(constraints, f.name, points[i]);
      assert points[i] in points;
    }
    if v :| InKind(f.kind, v) && Admits(constraints, f.name, v) {
      match f.kind {
        case Numbers =>
          var w := NumberPoint(constraints, f, v.rank);
          assert Number(w) in points;
        case Booleans => assert v == points[0] || v == points[1];
        case Categories(names) => TextMember(names, v.s);
      }
    }
  }

  /** `candidate` rejects a clause without scoring it when no test point satisfies its two or more constraints on a feature. */
  predicate ContradictoryOn(clause: Clause, f: Feature) {
    var constraints := Constraints(clause, f.name);
    |constraints| >= 2 && !AdmitsAny(constraints, f.name, TestPoints(f.kind, constraints))
  }

  predicate Contradictory(clause: Clause, features: seq<Feature>) {
    exists i :: 0 <= i < |features| && ContradictoryOn(clause, features[i])
  }

  /** The constants of a clause have the kinds of its features. */
  predicate WellKinded(clause: Clause, features: seq<Feature>) {
    forall i, j :: 0 <= i < |features| && 0 <= j < |clause| && clause[j].feature == features[i].name && features[i].kind.Numbers?
      ==> clause[j].constant.Number?
  }

  ghost predicate Fits(features: seq<Feature>, input: Features) {
    forall i :: 0 <= i < |features| && features[i].name in input ==> InKind(features[i].kind, input[features[i].name])
  }

  /** Some input makes every atom of the clause true. */
  ghost predicate Satisfiable(clause: Clause, features: seq<Feature>) {
    exists input: Features {:trigger Fits(features, input)} ::
      Fits(features, input) && forall i :: 0 <= i < |clause| ==> AtomResult(clause[i], input) == Some(true)
  }

  lemma {:induction false} ConstraintsOf(clause: Clause, name: bytes)
    ensures forall atom :: atom in Constraints(clause, name) <==> atom in clause && atom.feature == name
  {
    if clause != [] {
      ConstraintsOf(clause[1..], name);
      assert forall atom :: atom in clause <==> atom == clause[0] || atom in clause[1..];
    }
  }

  /** No satisfiable clause is rejected. */
  lemma PruningSound(clause: Clause, features: seq<Feature>)
    requires WellKinded(clause, features) && Satisfiable(clause, features)
    ensures !Contradictory(clause, features)
  {
    hide TestPoints, AtomResult, AdmitsAny;
    var input: Features :| Fits(features, input) && forall i :: 0 <= i < |clause| ==> AtomResult(clause[i], input) == Some(true);
    forall i | 0 <= i < |features| ensures !ContradictoryOn(clause, features[i]) {
      FeatureAdmits(clause, features, i, input);
    }
  }

  lemma FeatureAdmits(clause: Clause, features: seq<Feature>, i: nat, input: Features)
    requires i < |features| && WellKinded(clause, features) && Fits(features, input)
    requires forall k :: 0 <= k < |clause| ==> AtomResult(clause[k], input) == Some(true)
    ensures !ContradictoryOn(clause, features[i])
  {
    hide TestPoints, AdmitsAny;
    var f := features[i];
    var constraints := Constraints(clause, f.name);
    if |constraints| >= 2 {
      ConstraintsOf(clause, f.name);
      forall k | 0 <= k < |constraints|
        ensures constraints[k].feature == f.name && AtomResult(constraints[k], input) == Some(true)
        ensures f.kind.Numbers? ==> constraints[k].constant.Number?
      {
        assert constraints[k] in constraints;
      }
      assert f.name in input by { assert AtomResult(constraints[0], input) == Some(true); }
      forall k | 0 <= k < |constraints|
        ensures AtomResult(constraints[k], map[f.name := input[f.name]]) == Some(true)
      {
        assert AtomResult(constraints[k], input) == Some(true);
      }
      assert Admits(constraints, f.name, input[f.name]);
      PointsExact(constraints, f);
    }
  }

  // ----- the loops

  /** The test of one feature of a clause, over its points. */
  method FindsContradiction(clause: Clause, features: seq<Feature>) returns (r: bool)
    ensures r == Contradictory(clause, features)
  {
    hide TestPoints, Admits, Constraints;
    for i := 0 to |features|
      invariant forall k :: 0 <= k < i ==> !ContradictoryOn(clause, features[k])
    {
      var f := features[i];
      var constraints := Constraints(clause, f.name);
      if |constraints| < 2 {
        continue;
      }
      var points := TestPoints(f.kind, constraints);
      var possible := false;
      for j := 0 to |points|
        invariant !possible && forall k :: 0 <= k < j ==> !Admits(constraints, f.name, points[k])
      {
        if Admits(constraints, f.name, points[j]) {
          possible := true;
          break;
        }
      }
      if !possible {
        assert ContradictoryOn(clause, features[i]);
        return true;
      }
    }
    return false;
  }
}
