/** What a finished search says of every rule of one or two clauses over the atoms, in whatever order it is written. */
module RuleLearning {
  import opened Bytes
  import opened Rules
  import opened RuleLanguage
  import opened RuleSearch

  function Length(rule: Rule): nat {
    if rule == [] then 0 else |rule[0]| + Length(rule[1..])
  }

  predicate Over(atoms: seq<Atom>, clause: Clause) { forall x :: x in clause ==> x in atoms }

  /** One to three of the atoms, or a single one when `and` is not allowed. */
  predicate Writable(p: Problem, clause: Clause) {
    1 <= |clause| <= 3 && (|clause| > 1 ==> p.allowAnd) && Over(p.atoms, clause)
  }

  /** One clause, or two when `or` is allowed. */
  predicate Bounded(p: Problem, rule: Rule) {
    1 <= |rule| <= 2 && (|rule| == 2 ==> p.allowOr) && forall i :: 0 <= i < |rule| ==> Writable(p, rule[i])
  }

  /** Any rule that can be true in each clause, misses no training feature and uses what the problem allows. */
  ghost predicate Admissible(p: Problem, rule: Rule) {
    && Bounded(p, rule)
    && (forall i :: 0 <= i < |rule| ==> Satisfiable(rule[i], p.features))
    && Complete(rule, p.train)
  }

  // ----- the form of a clause

  function Position(atoms: seq<Atom>, atom: Atom): (i: nat)
    requires atom in atoms
    ensures i < |atoms| && atoms[i] == atom
  {
    if atoms[0] == atom then 0 else 1 + Position(atoms[1..], atom)
  }

  function Insert(x: nat, c: Indices): Indices {
    if c == [] then [x]
    else if x == c[0] then c
    else if x < c[0] then [x] + c
    else [c[0]] + Insert(x, c[1..])
  }

  /** The positions of the atoms of a clause, in order and each once. */
  function Form(atoms: seq<Atom>, clause: Clause): Indices
    requires Over(atoms, clause)
  {
    if clause == [] then [] else Insert(Position(atoms, clause[0]), Form(atoms, clause[1..]))
  }

  lemma {:induction false} InsertOrdered(x: nat, c: Indices)
    requires Strict(c)
    ensures Strict(Insert(x, c)) && 0 < |Insert(x, c)| <= |c| + 1
    ensures forall y :: y in Insert(x, c) <==> y == x || y in c
    decreases |c|
  {
    hide Strict;
    if c == [] {
      StrictFront(x, []);
      assert [x] + [] == [x];
    } else {
      var rest := c[1..];
      assert c == [c[0]] + rest;
      Below(c[0], rest);
      if x > c[0] {
        InsertOrdered(x, rest);
        StrictFront(c[0], Insert(x, rest));
      } else if x < c[0] {
        StrictFront(x, c);
      }
    }
  }

  /** What follows the first of an ordered list is greater. */
  lemma Below(x: nat, rest: Indices)
    requires Strict([x] + rest)
    ensures Strict(rest) && forall y :: y in rest ==> x < y
  {
    var c := [x] + rest;
    assert c[1..] == rest && c[0] == x;
  }

  lemma StrictFront(x: nat, c: Indices)
    requires (c == [] || Strict(c)) && forall y :: y in c ==> x < y
    ensures Strict([x] + c)
  {
    forall j | 0 <= j < |c| ensures x < c[j] {
      assert c[j] in c;
    }
  }

  lemma {:induction false} FormOrdered(atoms: seq<Atom>, clause: Clause)
    requires Over(atoms, clause)
    ensures var c := Form(atoms, clause); Strict(c) && |c| <= |clause| && Within(c, |atoms|) && (clause != [] ==> c != [])
    ensures forall x :: x in Form(atoms, clause) <==> exists i :: 0 <= i < |clause| && x == Position(atoms, clause[i])
  {
    if clause != [] {
      var rest := clause[1..];
      FormOrdered(atoms, rest);
      InsertOrdered(Position(atoms, clause[0]), Form(atoms, rest));
      var c := Form(atoms, clause);
      forall x ensures x in c <==> exists i :: 0 <= i < |clause| && x == Position(atoms, clause[i]) {
        if x in Form(atoms, rest) {
          var i :| 0 <= i < |rest| && x == Position(atoms, rest[i]);
          assert clause[i + 1] == rest[i];
        }
        if i :| 0 <= i < |clause| && x == Position(atoms, clause[i]) {
          assert i > 0 ==> rest[i - 1] == clause[i];
        }
      }
      forall j | 0 <= j < |c| ensures c[j] < |atoms| {
        assert c[j] in c;
      }
    }
  }

  ghost predicate SameAtoms(a: Clause, b: Clause) { forall x :: x in a <==> x in b }

  lemma FormSame(atoms: seq<Atom>, clause: Clause)
    requires Over(atoms, clause)
    ensures Within(Form(atoms, clause), |atoms|) && SameAtoms(Named(atoms, Form(atoms, clause)), clause)
  {
    hide Insert, Strict, Form, Position;
    FormOrdered(atoms, clause);
    var c := Form(atoms, clause);
    var named := Named(atoms, c);
    forall x ensures x in named <==> x in clause {
      if x in named {
        var k :| 0 <= k < |named| && named[k] == x;
        assert c[k] in c;
      }
      if x in clause {
        var i :| 0 <= i < |clause| && clause[i] == x;
        assert Position(atoms, clause[i]) in c;
      }
    }
  }

  // ----- the form of a rule

  /** Two clauses of the same atoms are one. */
  function Standard(p: Problem, rule: Rule): Shape
    requires (|rule| == 1 || |rule| == 2) && forall i :: 0 <= i < |rule| ==> Writable(p, rule[i])
  {
    assert Writable(p, rule[0]);
    var first := Form(p.atoms, rule[0]);
    if |rule| == 1 then [first] else
    assert Writable(p, rule[1]);
    var second := Form(p.atoms, rule[1]);
    if first == second then [first] else Sorted(first, second)
  }

  /** Each clause of either rule has the atoms of one of the other. */
  ghost predicate SameClauses(a: Rule, b: Rule) {
    && (forall i :: 0 <= i < |a| ==> exists j :: 0 <= j < |b| && SameAtoms(a[i], b[j]))
    && (forall j :: 0 <= j < |b| ==> exists i :: 0 <= i < |a| && SameAtoms(a[i], b[j]))
  }

  lemma FormClause(p: Problem, clause: Clause)
    requires Writable(p, clause)
    ensures var c := Form(p.atoms, clause);
            c != [] && ClauseOf(LanguageOf(p), c) && |c| <= |clause| && Within(c, |p.atoms|) && SameAtoms(Named(p.atoms, c), clause)
  {
    hide Form, Strict, SameAtoms;
    FormOrdered(p.atoms, clause);
    FormSame(p.atoms, clause);
  }

  /** A rule of the language with these clauses has their atoms. */
  lemma ShapeSame(p: Problem, shape: Shape, forms: Shape, rule: Rule)
    requires InLanguage(LanguageOf(p), shape) && |forms| == |rule|
    requires forall i :: 0 <= i < |rule| ==> Within(forms[i], |p.atoms|) && SameAtoms(Named(p.atoms, forms[i]), rule[i])
    requires forall c :: c in shape <==> c in forms
    ensures SameClauses(RuleOf(p, shape), rule)
  {
    hide Named, SameAtoms, InLanguage, Within;
    RuleAt(p, shape);
    var standing := RuleOf(p, shape);
    forall i | 0 <= i < |standing| ensures exists j :: 0 <= j < |rule| && SameAtoms(standing[i], rule[j]) {
      assert shape[i] in shape;
      var j :| 0 <= j < |forms| && forms[j] == shape[i];
      assert SameAtoms(standing[i], rule[j]);
    }
    forall j | 0 <= j < |rule| ensures exists i :: 0 <= i < |standing| && SameAtoms(standing[i], rule[j]) {
      assert forms[j] in forms;
      var i :| 0 <= i < |shape| && shape[i] == forms[j];
      assert SameAtoms(standing[i], rule[j]);
    }
  }

  lemma RuleAt(p: Problem, shape: Shape)
    requires InLanguage(LanguageOf(p), shape)
    ensures |RuleOf(p, shape)| == |shape|
    ensures forall i :: 0 <= i < |shape| ==> Within(shape[i], |p.atoms|) && RuleOf(p, shape)[i] == Named(p.atoms, shape[i])
  {
    hide Before, Strict;
    assert |RuleOf(p, shape)| == |shape|;
    forall i | 0 <= i < |shape| ensures Within(shape[i], |p.atoms|) && RuleOf(p, shape)[i] == Named(p.atoms, shape[i]) {
      assert ClauseOf(LanguageOf(p), shape[i]);
    }
  }

  lemma StandardForm(p: Problem, rule: Rule)
    requires Bounded(p, rule)
    ensures var shape := Standard(p, rule);
            InLanguage(LanguageOf(p), shape) && Size(shape) <= Length(rule) && SameClauses(RuleOf(p, shape), rule)
  {
    hide Form, Before, SameAtoms, Named, Over, ClauseOf, SameClauses, RuleOf, Within, Size, Length;
    var shape := Standard(p, rule);
    assert Writable(p, rule[0]);
    FormClause(p, rule[0]);
    var first := Form(p.atoms, rule[0]);
    SizeOne(first);
    if |rule| == 1 {
      LengthOne(rule);
      ShapeSame(p, shape, [first], rule);
    } else {
      assert Writable(p, rule[1]);
      FormClause(p, rule[1]);
      var second := Form(p.atoms, rule[1]);
      LengthTwo(rule);
      SortedForms(p, first, second);
      ShapeSame(p, shape, [first, second], rule);
    }
  }

  lemma SortedForms(p: Problem, a: Indices, b: Indices)
    requires p.allowOr && ClauseOf(LanguageOf(p), a) && ClauseOf(LanguageOf(p), b)
    ensures var shape := if a == b then [a] else Sorted(a, b);
            InLanguage(LanguageOf(p), shape) && Size(shape) <= |a| + |b| && forall c :: c in shape <==> c in [a, b]
  {
    hide Before, Size, Strict;
    assert b != [];
    BeforeTotal(a, b);
    SizeOne(a);
    SizeTwo(a, b);
    SizeTwo(b, a);
  }

  lemma LengthOne(rule: Rule)
    requires |rule| == 1
    ensures Length(rule) == |rule[0]|
  {
    assert rule[1..] == [];
  }

  lemma LengthTwo(rule: Rule)
    requires |rule| == 2
    ensures Length(rule) == |rule[0]| + |rule[1]|
  {
    LengthOne(rule[1..]);
  }

  lemma SizeOne(a: Indices)
    ensures Size([a]) == |a|
  {
    assert [a][1..] == [];
  }

  lemma SizeTwo(a: Indices, b: Indices)
    ensures Size([a, b]) == |a| + |b|
  {
    assert [a, b][1..] == [b];
    SizeOne(b);
  }

  // ----- rules with the same clauses mean the same

  lemma SameSome(a: Clause, b: Clause, features: Features, result: Option<bool>)
    requires SameAtoms(a, b) && SomeAtom(a, features, result)
    ensures SomeAtom(b, features, result)
  {
    hide AtomResult;
    var i :| 0 <= i < |a| && AtomResult(a[i], features) == result;
    assert a[i] in b;
  }

  lemma SameClauseMeans(a: Clause, b: Clause, features: Features)
    requires SameAtoms(a, b)
    ensures ClauseResult(a, features) == ClauseResult(b, features)
    ensures SomeAtom(a, features, None) == SomeAtom(b, features, None)
  {
    hide SomeAtom;
    forall result: Option<bool> ensures SomeAtom(a, features, result) == SomeAtom(b, features, result) {
      if SomeAtom(a, features, result) {
        SameSome(a, b, features, result);
      }
      if SomeAtom(b, features, result) {
        assert SameAtoms(b, a);
        SameSome(b, a, features, result);
      }
    }
  }

  lemma SameRuleMeans(a: Rule, b: Rule, features: Features)
    requires SameClauses(a, b)
    ensures RuleResult(a, features) == RuleResult(b, features)
    ensures Unknown(a, features) == Unknown(b, features)
  {
    hide ClauseResult, SameAtoms, SomeAtom;
    forall i, j | 0 <= i < |a| && 0 <= j < |b| && SameAtoms(a[i], b[j])
      ensures ClauseResult(a[i], features) == ClauseResult(b[j], features)
      ensures SomeAtom(a[i], features, None) == SomeAtom(b[j], features, None)
    {
      SameClauseMeans(a[i], b[j], features);
    }
    forall result: Option<bool> ensures SomeClause(a, features, result) == SomeClause(b, features, result) {}
  }

  lemma {:induction false} SameMistakes(a: Rule, b: Rule, train: seq<Example>)
    requires SameClauses(a, b)
    ensures Mistakes(a, train) == Mistakes(b, train)
  {
    hide SameClauses, RuleResult, Unknown;
    if train != [] {
      var n := |train| - 1;
      SameMistakes(a, b, train[..n]);
      SameRuleMeans(a, b, train[n].features);
    }
  }

  /** An eligible rule of the language that is no longer than the rule and means the same. */
  ghost predicate StandsFor(p: Problem, shape: Shape, rule: Rule) {
    && Eligible(p, shape) && Size(shape) <= Length(rule)
    && Mistakes(RuleOf(p, shape), p.train) == Mistakes(rule, p.train)
    && forall features :: RuleResult(RuleOf(p, shape), features) == RuleResult(rule, features)
  }

  /** Every admissible rule has one that stands for it in the language. */
  lemma EveryRuleStands(p: Problem, rule: Rule)
    requires Admissible(p, rule)
    ensures exists shape :: StandsFor(p, shape, rule)
  {
    hide Standard, Satisfiable, Unknown, RuleResult, Size, Length, InLanguage, Mistakes, Writable, RuleOf;
    StandardForm(p, rule);
    var shape := Standard(p, rule);
    var standing := RuleOf(p, shape);
    SameMistakes(standing, rule, p.train);
    forall features: Features
      ensures RuleResult(standing, features) == RuleResult(rule, features) && Unknown(standing, features) == Unknown(rule, features)
    {
      SameRuleMeans(standing, rule, features);
    }
    SameLength(p, shape);
    forall i | 0 <= i < |standing| ensures Satisfiable(standing[i], p.features) {
      var j :| 0 <= j < |rule| && SameAtoms(standing[i], rule[j]);
      SameSatisfiable(standing[i], rule[j], p.features);
    }
    assert StandsFor(p, shape, rule);
  }

  lemma SameSatisfiable(a: Clause, b: Clause, features: seq<Feature>)
    requires SameAtoms(a, b) && Satisfiable(b, features)
    ensures Satisfiable(a, features)
  {
    hide AtomResult;
    var input: Features :| Fits(features, input) && forall i :: 0 <= i < |b| ==> AtomResult(b[i], input) == Some(true);
    forall i | 0 <= i < |a| ensures AtomResult(a[i], input) == Some(true) {
      assert a[i] in b;
    }
  }

  /** A scored rule is within the bounds too. */
  lemma ScoredBounded(p: Problem, found: Found)
    requires Scored(p, found)
    ensures Bounded(p, RuleOf(p, found.shape))
  {
    hide Before, Strict, Mistakes, Complete;
    RuleAt(p, found.shape);
    forall i | 0 <= i < |found.shape| ensures Writable(p, RuleOf(p, found.shape)[i]) {
      assert ClauseOf(LanguageOf(p), found.shape[i]);
    }
  }

  lemma NoWrongRow(rule: Rule, train: seq<Example>)
    requires Mistakes(rule, train) == []
    ensures forall i :: 0 <= i < |train| ==> RuleResult(rule, train[i].features) == Some(train[i].target)
  {
    hide Mistakes, RuleResult;
    MistakesAre(rule, train);
    assert WrongRows(rule, train) == {};
    forall i: nat | i < |train| ensures RuleResult(rule, train[i].features) == Some(train[i].target) {
      assert i !in WrongRows(rule, train);
    }
  }

  datatype Status = LimitExhausted | ExactFound | Exhausted

  /** The rule found, and the rules tried and atoms looked at on the way. */
  datatype Learned = Learned(best: Option<Found>, status: Status, candidates: nat, visits: nat)

  /** Different rules of the language, within the limits. */
  ghost predicate WithinLimits(p: Problem, order: seq<Shape>, maxCandidates: nat, maxVisits: nat) {
    AllIn(p, order) && Different(order) && |order| <= maxCandidates && Spent(p, order) <= maxVisits
  }

  /** Different rules were tried, none of them exact, and one more of the language goes beyond a limit. */
  ghost predicate RanOut(p: Problem, order: seq<Shape>, next: Shape, maxCandidates: nat, maxVisits: nat) {
    && WithinLimits(p, order, maxCandidates, maxVisits) && Beyond(p, order, next, maxCandidates, maxVisits)
    && forall i :: 0 <= i < |order| ==> Misses(p, order[i])
  }

  ghost predicate Misses(p: Problem, shape: Shape) { Eligible(p, shape) ==> Mistakes(RuleOf(p, shape), p.train) != [] }

  /** The whole language was tried, each rule once. */
  ghost predicate RanThrough(p: Problem, order: seq<Shape>, candidates: nat, visits: nat) {
    && AllIn(p, order) && Different(order) && |order| == candidates && Spent(p, order) == visits
    && forall shape :: InLanguage(LanguageOf(p), shape) ==> shape in order
  }

  lemma NoneExact(s: Search, total: nat)
    requires s.Valid(total) && s.Counted() && s.limited
    ensures exists next :: RanOut(s.p, s.order, next, s.maxCandidates, s.maxVisits)
  {
    hide InLanguage, Eligible, RuleOf, Mistakes, Spent, Beyond, Different, AllIn, Misses;
    var next :| Beyond(s.p, s.order, next, s.maxCandidates, s.maxVisits);
    forall i | 0 <= i < |s.order| ensures Misses(s.p, s.order[i]) {
      assert s.order[i] in s.tried;
      if Eligible(s.p, s.order[i]) {
        TriedMisses(s.p, s.best.value, s.order[i]);
      } else {
        NoClaim(s.p, s.order[i]);
      }
    }
    assert RanOut(s.p, s.order, next, s.maxCandidates, s.maxVisits);
  }

  lemma TriedMisses(p: Problem, found: Found, shape: Shape)
    requires Eligible(p, shape) && AtLeastAsGood(p, found, shape) && found.mistakes != []
    ensures Misses(p, shape)
  {
    hide InLanguage, Eligible, RuleOf, Mistakes, Size;
  }

  lemma NoClaim(p: Problem, shape: Shape)
    requires !Eligible(p, shape)
    ensures Misses(p, shape)
  {
    hide Eligible;
  }

  /**
   `search` and the status `learn` reports of it. A rule found exact makes no mistake, and no admissible rule of
   fewer atoms does; an exhausted search keeps a rule of the fewest mistakes of all admissible rules, and of those
   one of the fewest atoms. It runs out of its limits only before a rule that goes beyond them, and keeps none then.
   */
  method Learn(p: Problem, maxCandidates: nat, maxVisits: nat) returns (r: Result<Learned>)
    requires Sensible(p)
    ensures r.Err? <==> p.atoms == []
    ensures r.Err? ==> r.error == UnsupportedOperation
    ensures r.Ok? && r.value.best.Some? ==>
              Scored(p, r.value.best.value) && Bounded(p, RuleOf(p, r.value.best.value.shape))
    ensures r.Ok? ==> r.value.candidates <= maxCandidates && r.value.visits <= maxVisits
    ensures r.Ok? && r.value.status == LimitExhausted ==>
              r.value.best.None? && exists order, next :: RanOut(p, order, next, maxCandidates, maxVisits)
    ensures r.Ok? && r.value.status == Exhausted ==> exists order :: RanThrough(p, order, r.value.candidates, r.value.visits)
    ensures r.Ok? && r.value.status == ExactFound ==>
              && r.value.best.Some? && r.value.best.value.mistakes == []
              && (forall i :: 0 <= i < |p.train| ==>
                    RuleResult(RuleOf(p, r.value.best.value.shape), p.train[i].features) == Some(p.train[i].target))
              && forall rule :: Admissible(p, rule) && Length(rule) < Size(r.value.best.value.shape) ==>
                   Mistakes(rule, p.train) != []
    ensures r.Ok? && r.value.status == Exhausted ==>
              && (r.value.best.Some? ==> r.value.best.value.mistakes != [])
              && forall rule :: Admissible(p, rule) ==>
                   && r.value.best.Some?
                   && (var mistakes := |Mistakes(rule, p.train)|;
                       var found := r.value.best.value;
                       |found.mistakes| < mistakes || (|found.mistakes| == mistakes && Size(found.shape) <= Length(rule)))
  {
    hide Sensible, Size, Mistakes, InLanguage, Complete, Satisfiable, RuleOf, Admissible, Length, RuleResult, RanOut, Spent, Different, AllIn;
    if |p.atoms| == 0 {
      return Err(UnsupportedOperation);
    }
    var search := new Search(p, maxCandidates, maxVisits);
    search.Totals();
    if search.best.Some? {
      ScoredBounded(p, search.best.value);
    }
    forall rule | Admissible(p, rule) ensures exists shape :: StandsFor(p, shape, rule) {
      EveryRuleStands(p, rule);
    }
    if search.limited {
      NoneExact(search, MaxTotal(p));
      return Ok(Learned(None, LimitExhausted, search.candidateCount, search.visits));
    }
    if search.exact {
      NoWrongRow(RuleOf(p, search.best.value.shape), p.train);
      return Ok(Learned(search.best, ExactFound, search.candidateCount, search.visits));
    }
    assert RanThrough(p, search.order, search.candidateCount, search.visits);
    return Ok(Learned(search.best, Exhausted, search.candidateCount, search.visits));
  }
}
