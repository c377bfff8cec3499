/** The bounded search for a rule (`rules.rs`, version 2): complete and minimal when no limit stops it. */
module RuleSearch {
  import opened Bytes
  import opened Rules
  import opened RuleLanguage

  datatype Example = Example(id: bytes, features: Features, target: bool)

  /** The training rows, the features, the candidate atoms in order, the operators allowed, and a rule's canonical text. */
  datatype Problem = Problem(
    train: seq<Example>, features: seq<Feature>, atoms: seq<Atom>, allowAnd: bool, allowOr: bool, text: Shape -> bytes)

  function LanguageOf(p: Problem): Language { Language(|p.atoms|, if p.allowAnd then 3 else 1, p.allowOr) }

  function MaxTotal(p: Problem): nat { LanguageOf(p).maxClause * if p.allowOr then 2 else 1 }

  predicate Within(c: Indices, n: nat) { forall i :: 0 <= i < |c| ==> c[i] < n }

  function Named(atoms: seq<Atom>, c: Indices): (clause: Clause)
    requires Within(c, |atoms|)
    ensures |clause| == |c| && forall i :: 0 <= i < |c| ==> clause[i] == atoms[c[i]]
  {
    if c == [] then [] else [atoms[c[0]]] + Named(atoms, c[1..])
  }

  function RuleFrom(atoms: seq<Atom>, shape: Shape): (rule: Rule)
    requires forall i :: 0 <= i < |shape| ==> Within(shape[i], |atoms|)
    ensures |rule| == |shape| && forall i :: 0 <= i < |shape| ==> rule[i] == Named(atoms, shape[i])
  {
    if shape == [] then [] else [Named(atoms, shape[0])] + RuleFrom(atoms, shape[1..])
  }

  function RuleOf(p: Problem, shape: Shape): Rule
    requires InLanguage(LanguageOf(p), shape)
  {
    RuleFrom(p.atoms, shape)
  }

  // ----- scoring

  /** Some atom of the rule is unknown for these features. */
  predicate Unknown(rule: Rule, features: Features) {
    exists i :: 0 <= i < |rule| && SomeAtom(rule[i], features, None)
  }

  predicate Complete(rule: Rule, train: seq<Example>) {
    forall i :: 0 <= i < |train| ==> !Unknown(rule, train[i].features)
  }

  function Truth(rule: Rule, train: seq<Example>): (truth: seq<nat>)
    ensures |truth| == |train|
  {
    if train == [] then [] else
    var n := |train| - 1;
    Truth(rule, train[..n]) + [if RuleResult(rule, train[n].features) == Some(true) then 1 else 0]
  }

  /** The rows a rule gets wrong, in order. */
  function Mistakes(rule: Rule, train: seq<Example>): seq<bytes> {
    if train == [] then [] else
    var n := |train| - 1;
    Mistakes(rule, train[..n]) + if RuleResult(rule, train[n].features) == Some(train[n].target) then [] else [train[n].id]
  }

  /** How many rows a truth vector gets wrong. */
  function Wrong(truth: seq<nat>, train: seq<Example>): nat
    requires |truth| == |train|
  {
    if train == [] then 0 else
    var n := |train| - 1;
    Wrong(truth[..n], train[..n]) + if (truth[n] == 1) == train[n].target then 0 else 1
  }

  lemma KnownResult(rule: Rule, features: Features)
    requires !Unknown(rule, features)
    ensures RuleResult(rule, features).Some?
  {
    hide AtomResult;
    forall i | 0 <= i < |rule| ensures ClauseResult(rule[i], features).Some? {
      assert !SomeAtom(rule[i], features, None);
    }
  }

  /** Rules with the same truth vector make equally many mistakes. */
  lemma {:induction false} MistakesCounted(rule: Rule, train: seq<Example>)
    requires Complete(rule, train)
    ensures |Mistakes(rule, train)| == Wrong(Truth(rule, train), train)
    decreases |train|
  {
    hide Unknown, RuleResult;
    if train != [] {
      var n := |train| - 1;
      MistakesCounted(rule, train[..n]);
      KnownResult(rule, train[n].features);
      var truth := Truth(rule, train);
      assert truth[..n] == Truth(rule, train[..n]);
      var result := RuleResult(rule, train[n].features);
      assert (truth[n] == 1) == result.value;
      assert result == Some(train[n].target) <==> result.value == train[n].target;
    }
  }

  /** The rows that a rule answers wrongly, or not at all. */
  function WrongRows(rule: Rule, train: seq<Example>): set<nat> {
    set i: nat | i < |train| && RuleResult(rule, train[i].features) != Some(train[i].target)
  }

  /** There is one mistake for each such row. */
  lemma {:induction false} MistakesAre(rule: Rule, train: seq<Example>)
    ensures |Mistakes(rule, train)| == |WrongRows(rule, train)|
    ensures forall id :: id in Mistakes(rule, train) <==> exists i: nat :: i in WrongRows(rule, train) && train[i].id == id
    decreases |train|
  {
    hide RuleResult;
    if train == [] {
      assert WrongRows(rule, train) == {};
    } else {
      var n: nat := |train| - 1;
      MistakesAre(rule, train[..n]);
      var (before, after) := (WrongRows(rule, train[..n]), WrongRows(rule, train));
      assert n !in before;
      assert forall i: nat :: i in before ==> train[..n][i] == train[i];
      if RuleResult(rule, train[n].features) == Some(train[n].target) {
        assert after == before;
      } else {
        assert after == before + {n};
      }
    }
  }

  // ----- what a search must find

  /** The rules that a search answers for: every clause can be true, and no training row misses a feature they use. */
  ghost predicate Eligible(p: Problem, shape: Shape) {
    && InLanguage(LanguageOf(p), shape)
    && (forall i :: 0 <= i < |shape| ==> Satisfiable(RuleOf(p, shape)[i], p.features))
    && Complete(RuleOf(p, shape), p.train)
  }

  datatype Found = Found(shape: Shape, mistakes: seq<bytes>)

  /** A scored rule of the language, with exactly the rows it gets wrong. */
  ghost predicate Scored(p: Problem, found: Found) {
    && InLanguage(LanguageOf(p), found.shape)
    && Complete(RuleOf(p, found.shape), p.train)
    && found.mistakes == Mistakes(RuleOf(p, found.shape), p.train)
  }

  /** Fewer mistakes, or as many with no more atoms. */
  ghost predicate AtLeastAsGood(p: Problem, found: Found, shape: Shape)
    requires InLanguage(LanguageOf(p), shape)
  {
    var other := |Mistakes(RuleOf(p, shape), p.train)|;
    |found.mistakes| < other || (|found.mistakes| == other && Size(found.shape) <= Size(shape))
  }

  predicate Sensible(p: Problem) { WellKinded(p.atoms, p.features) }

  lemma NamedKinds(p: Problem, shape: Shape, i: nat)
    requires Sensible(p) && InLanguage(LanguageOf(p), shape) && i < |shape|
    ensures WellKinded(RuleOf(p, shape)[i], p.features)
  {
    hide Before;
    var clause := Named(p.atoms, shape[i]);
    assert clause == RuleOf(p, shape)[i];
  }

  lemma NotPruned(p: Problem, shape: Shape, i: nat)
    requires Sensible(p) && Eligible(p, shape) && i < |shape|
    ensures !Contradictory(RuleOf(p, shape)[i], p.features)
  {
    hide InLanguage, WellKinded, Satisfiable, Contradictory, Complete;
    NamedKinds(p, shape, i);
    PruningSound(RuleOf(p, shape)[i], p.features);
  }

  lemma RejectedNotEligible(p: Problem, shape: Shape)
    requires Sensible(p) && InLanguage(LanguageOf(p), shape)
    requires exists i :: 0 <= i < |RuleOf(p, shape)| && Contradictory(RuleOf(p, shape)[i], p.features)
    ensures !Eligible(p, shape)
  {
    hide InLanguage, WellKinded, Satisfiable, Contradictory, Complete, RuleOf, Eligible;
    SameLength(p, shape);
    var i :| 0 <= i < |RuleOf(p, shape)| && Contradictory(RuleOf(p, shape)[i], p.features);
    if Eligible(p, shape) {
      NotPruned(p, shape, i);
    }
  }

  lemma IncompleteNotEligible(p: Problem, shape: Shape)
    requires InLanguage(LanguageOf(p), shape) && !Complete(RuleOf(p, shape), p.train)
    ensures !Eligible(p, shape)
  {
    hide InLanguage, Complete, RuleOf, Satisfiable;
  }

  lemma SizeBound(p: Problem, shape: Shape)
    requires InLanguage(LanguageOf(p), shape)
    ensures 1 <= Size(shape) <= MaxTotal(p)
  {
    hide Before, Strict;
    assert Size(shape[1..]) == if |shape| == 1 then 0 else |shape[1]| + Size(shape[1..][1..]);
  }

  // ----- what trying rules costs

  /** How many atoms are looked at: those of each clause up to the first true one. */
  function Visits(rule: Rule, features: Features): nat {
    if rule == [] then 0
    else |rule[0]| + if ClauseResult(rule[0], features) == Some(true) then 0 else Visits(rule[1..], features)
  }

  function TrainVisits(rule: Rule, train: seq<Example>): nat {
    if train == [] then 0 else
    var n := |train| - 1;
    TrainVisits(rule, train[..n]) + Visits(rule, train[n].features)
  }

  lemma {:induction false} FirstRows(rule: Rule, train: seq<Example>, i: nat)
    requires i <= |train|
    ensures TrainVisits(rule, train[..i]) <= TrainVisits(rule, train)
    decreases |train|
  {
    hide Visits;
    if i < |train| {
      var n := |train| - 1;
      FirstRows(rule, train[..n], i);
      assert train[..n][..i] == train[..i];
    } else {
      assert train[..i] == train;
    }
  }

  lemma NoRows(rule: Rule)
    ensures TrainVisits(rule, []) == 0 && Truth(rule, []) == [] && Mistakes(rule, []) == []
  {}

  /** What one more row adds. */
  lemma RowAdds(rule: Rule, train: seq<Example>, i: nat)
    requires i < |train|
    ensures TrainVisits(rule, train[..i + 1]) == TrainVisits(rule, train[..i]) + Visits(rule, train[i].features)
    ensures Truth(rule, train[..i + 1])
         == Truth(rule, train[..i]) + [if RuleResult(rule, train[i].features) == Some(true) then 1 else 0]
    ensures Mistakes(rule, train[..i + 1])
         == Mistakes(rule, train[..i]) + if RuleResult(rule, train[i].features) == Some(train[i].target) then [] else [train[i].id]
    ensures TrainVisits(rule, train[..i + 1]) <= TrainVisits(rule, train)
  {
    hide RuleResult, Visits;
    assert train[..i + 1][..i] == train[..i];
    FirstRows(rule, train, i + 1);
  }

  /** A contradictory rule costs nothing; any other is evaluated on every row. */
  ghost function CostOf(p: Problem, shape: Shape): nat
    requires InLanguage(LanguageOf(p), shape)
  {
    var rule := RuleOf(p, shape);
    if exists i :: 0 <= i < |rule| && Contradictory(rule[i], p.features) then 0 else TrainVisits(rule, p.train)
  }

  lemma CostIs(p: Problem, shape: Shape)
    requires InLanguage(LanguageOf(p), shape)
    ensures var rule := RuleOf(p, shape);
            && ((exists i :: 0 <= i < |rule| && Contradictory(rule[i], p.features)) ==> CostOf(p, shape) == 0)
            && ((forall i :: 0 <= i < |rule| ==> !Contradictory(rule[i], p.features)) ==> CostOf(p, shape) == TrainVisits(rule, p.train))
  {
    hide InLanguage, RuleOf, Contradictory, TrainVisits;
  }

  ghost predicate AllIn(p: Problem, order: seq<Shape>) { forall i :: 0 <= i < |order| ==> InLanguage(LanguageOf(p), order[i]) }

  ghost function Spent(p: Problem, order: seq<Shape>): nat
    requires AllIn(p, order)
  {
    if order == [] then 0 else
    var n := |order| - 1;
    Spent(p, order[..n]) + CostOf(p, order[n])
  }

  lemma SpentMore(p: Problem, order: seq<Shape>, shape: Shape)
    requires AllIn(p, order) && InLanguage(LanguageOf(p), shape)
    ensures AllIn(p, order + [shape]) && Spent(p, order + [shape]) == Spent(p, order) + CostOf(p, shape)
  {
    hide CostOf, InLanguage;
    assert (order + [shape])[..|order|] == order;
  }

  /** Another rule of the language would take the search over one of its limits. */
  ghost predicate Beyond(p: Problem, order: seq<Shape>, next: Shape, maxCandidates: nat, maxVisits: nat)
    requires AllIn(p, order)
  {
    && InLanguage(LanguageOf(p), next) && next !in order
    && (|order| == maxCandidates || Spent(p, order) + CostOf(p, next) > maxVisits)
  }

  // ----- no rule comes from two picks

  /** No partition of the pick is among these. */
  ghost predicate Fresh(tried: set<Shape>, pick: Indices) { forall shape :: shape in tried ==> !MadeOf(shape, pick) }

  ghost predicate AllFresh(l: Language, tried: set<Shape>, picked: Indices, count: nat, first: nat) {
    forall pick :: Pick(l, pick) && Continues(pick, picked, count, first) ==> Fresh(tried, pick)
  }

  /** The rule has the atoms of a pick that goes on from `picked` below `index`. */
  ghost predicate FromBelow(l: Language, shape: Shape, picked: Indices, count: nat, first: nat, index: nat) {
    exists pick ::
      && Pick(l, pick) && Continues(pick, picked, count, first) && MadeOf(shape, pick)
      && (|picked| < |pick| ==> pick[|picked|] < index)
  }

  lemma NextFresh(
    l: Language, before: set<Shape>, tried: set<Shape>, picked: Indices, count: nat, first: nat, index: nat)
    requires AllFresh(l, before, picked, count, first) && first <= index && |picked| < count
    requires forall shape :: shape in tried ==> shape in before || FromBelow(l, shape, picked, count, first, index)
    ensures AllFresh(l, tried, picked + [index], count, index)
  {
    hide Pick, MadeOf;
    forall pick | Pick(l, pick) && Continues(pick, picked + [index], count, index) ensures Fresh(tried, pick) {
      ContinuesFrom(pick, picked, count, first, index);
      assert Fresh(before, pick);
      forall shape | shape in tried ensures !MadeOf(shape, pick) {
        if shape !in before {
          var other :| Pick(l, other) && Continues(other, picked, count, first) && MadeOf(shape, other)
            && (|picked| < |other| ==> other[|picked|] < index);
          if MadeOf(shape, pick) {
            PickAscends(l, pick);
            PickAscends(l, other);
            OnePick(shape, pick, other);
          }
        }
      }
    }
  }

  lemma ContinuesFrom(pick: Indices, picked: Indices, count: nat, first: nat, index: nat)
    requires Continues(pick, picked + [index], count, index) && first <= index && |picked| < count
    ensures Continues(pick, picked, count, first) && |pick| == count && pick[|picked|] == index
  {
    assert (picked + [index])[|picked|] == index;
    assert picked <= picked + [index];
  }

  lemma FromNext(l: Language, shape: Shape, picked: Indices, count: nat, first: nat, index: nat)
    requires first <= index && |picked| < count
    requires FromBelow(l, shape, picked, count, first, index) || FromBelow(l, shape, picked + [index], count, index, l.atoms)
    ensures FromBelow(l, shape, picked, count, first, index + 1)
  {
    hide Pick, MadeOf, Continues;
    if !FromBelow(l, shape, picked, count, first, index) {
      var pick :| Pick(l, pick) && Continues(pick, picked + [index], count, index) && MadeOf(shape, pick);
      ContinuesFrom(pick, picked, count, first, index);
    }
  }

  lemma Alone(l: Language, tried: set<Shape>, picked: Indices, count: nat, first: nat)
    requires AllFresh(l, tried, picked, count, first) && Pick(l, picked) && |picked| == count
    ensures Fresh(tried, picked)
  {
    hide Pick, Fresh;
    assert Continues(picked, picked, count, first);
  }

  lemma FromWhole(l: Language, shape: Shape, picked: Indices, count: nat, first: nat, index: nat)
    requires Pick(l, picked) && |picked| == count && MadeOf(shape, picked)
    ensures FromBelow(l, shape, picked, count, first, index)
  {
    hide Pick, MadeOf;
    assert Continues(picked, picked, count, first);
  }

  lemma FromLater(l: Language, shape: Shape, picked: Indices, count: nat, first: nat, index: nat, later: nat)
    requires FromBelow(l, shape, picked, count, first, index) && index <= later
    ensures FromBelow(l, shape, picked, count, first, later)
  {
    hide Pick, MadeOf, Continues;
  }

  lemma NotRepeated(shapes: seq<Shape>, i: nat)
    requires Different(shapes) && i < |shapes|
    ensures shapes[i] !in shapes[..i]
  {}

  lemma OtherSizes(l: Language, tried: set<Shape>, total: nat)
    requires forall shape :: shape in tried ==> Size(shape) < total
    ensures AllFresh(l, tried, [], total, 0)
  {
    hide Pick, MadeOf, Size;
    forall pick | Pick(l, pick) && Continues(pick, [], total, 0) ensures Fresh(tried, pick) {
      forall shape | shape in tried ensures !MadeOf(shape, pick) {
        if MadeOf(shape, pick) {
          MadeSize(shape, pick);
        }
      }
    }
  }

  lemma SizeFrom(l: Language, shape: Shape, total: nat)
    requires FromBelow(l, shape, [], total, 0, l.atoms)
    ensures Size(shape) == total
  {
    hide Pick, MadeOf, Size;
    var none: Indices := [];
    var pick :| Continues(pick, none, total, 0) && MadeOf(shape, pick);
    ContinuesLength(pick, none, total, 0);
    MadeSize(shape, pick);
  }

  lemma ContinuesLength(pick: Indices, picked: Indices, count: nat, first: nat)
    requires Continues(pick, picked, count, first)
    ensures |pick| == count
  {}

  class Search {
    const p: Problem
    const maxCandidates: nat
    const maxVisits: nat
    var candidateCount: nat
    var visits: nat
    var seen: map<seq<nat>, nat>
    var best: Option<Found>
    var exact: bool
    var limited: bool
    /** The rules given to `Candidate` so far. */
    ghost var tried: set<Shape>
    /** The same in the order they were tried. */
    ghost var order: seq<Shape>

    constructor (p: Problem, maxCandidates: nat, maxVisits: nat)
      ensures this.p == p && this.maxCandidates == maxCandidates && this.maxVisits == maxVisits
      ensures Valid(0) && Counted() && !exact && !limited && tried == {}
    {
      this.p, this.maxCandidates, this.maxVisits := p, maxCandidates, maxVisits;
      candidateCount, visits, seen, best, exact, limited := 0, 0, map[], None, false, false;
      tried, order := {}, [];
    }

    /** No rule is tried twice; the counts are those of the rules tried, and only a rule beyond a limit stops the search there. */
    ghost predicate Counted()
      reads `order, `tried, `candidateCount, `visits, `limited, `exact
    {
      && AllIn(p, order) && Different(order) && (forall shape :: shape in tried <==> shape in order)
      && |order| <= maxCandidates && Spent(p, order) <= maxVisits && visits <= maxVisits
      && (!limited ==> candidateCount == |order| && visits == Spent(p, order))
      && (limited ==> !exact && exists next :: Beyond(p, order, next, maxCandidates, maxVisits))
      && (limited ==> (candidateCount == |order| == maxCandidates && visits == Spent(p, order))
                      || (candidateCount == |order| + 1 <= maxCandidates && visits == maxVisits))
    }

    /** No rule tried so far, none of more than `total` atoms, beats the best one. */
    ghost predicate Valid(total: nat)
      reads `best, `exact, `seen, `tried
    {
      && (best.Some? ==> Scored(p, best.value) && Size(best.value.shape) <= total)
      && (exact <==> best.Some? && best.value.mistakes == [])
      && (forall truth :: truth in seen ==> |truth| == |p.train| && best.Some? && |best.value.mistakes| <= Wrong(truth, p.train))
      && (forall shape :: shape in tried && Eligible(p, shape) ==> best.Some? && AtLeastAsGood(p, best.value, shape))
    }

    /** `rule_result`, counting its visits: stops at the first true clause, or when the visits run out. */
    method Evaluate(rule: Rule, features: Features) returns (within: bool, result: Option<bool>)
      requires visits <= maxVisits
      modifies this`visits
      ensures within ==> result == RuleResult(rule, features)
      ensures within <==> old(visits) + Visits(rule, features) <= maxVisits
      ensures visits == if within then old(visits) + Visits(rule, features) else maxVisits
    {
      hide AtomResult;
      var unresolved := false;
      assert rule[0..] == rule;
      for i := 0 to |rule|
        invariant visits <= maxVisits && old(visits) + Visits(rule, features) == visits + Visits(rule[i..], features)
        invariant forall k :: 0 <= k < i ==> ClauseResult(rule[k], features) != Some(true)
        invariant unresolved <==> exists k :: 0 <= k < i && ClauseResult(rule[k], features) == None
      {
        assert rule[i..][0] == rule[i] && rule[i..][1..] == rule[i + 1..];
        var counted, all, missing := EvaluateClause(rule[i], features);
        if !counted {
          return false, None;
        }
        if all && !missing {
          return true, Some(true);
        }
        if all && missing {
          unresolved := true;
        }
      }
      return true, if unresolved then None else Some(false);
    }

    /** The atoms of one clause: whether all the known ones hold, and whether some is unknown. */
    method EvaluateClause(clause: Clause, features: Features) returns (within: bool, all: bool, missing: bool)
      requires visits <= maxVisits
      modifies this`visits
      ensures within ==> (all <==> !SomeAtom(clause, features, Some(false)))
      ensures within ==> (missing <==> SomeAtom(clause, features, None))
      ensures within <==> old(visits) + |clause| <= maxVisits
      ensures visits == if within then old(visits) + |clause| else maxVisits
    {
      hide AtomResult;
      all, missing := true, false;
      for i := 0 to |clause|
        invariant visits == old(visits) + i <= maxVisits
        invariant all <==> forall k :: 0 <= k < i ==> AtomResult(clause[k], features) != Some(false)
        invariant missing <==> exists k :: 0 <= k < i && AtomResult(clause[k], features) == None
      {
        if visits >= maxVisits {
          return false, all, missing;
        }
        visits := visits + 1;
        var result := AtomResult(clause[i], features);
        if result.None? {
          missing := true;
        } else {
          all := all && result.value;
        }
      }
      within := true;
    }

    /** The rows of `candidate`: the truth vector and the mistakes, unless a row misses a feature. */
    method Score(rule: Rule) returns (within: bool, missing: bool, truth: seq<nat>, mistakes: seq<bytes>)
      requires visits <= maxVisits
      modifies this`visits
      ensures within <==> old(visits) + TrainVisits(rule, p.train) <= maxVisits
      ensures visits == if within then old(visits) + TrainVisits(rule, p.train) else maxVisits
      ensures within ==> (missing <==> !Complete(rule, p.train))
      ensures within && !missing ==> truth == Truth(rule, p.train) && mistakes == Mistakes(rule, p.train)
    {
      hide Unknown, RuleResult, Visits, TrainVisits, Truth, Mistakes;
      NoRows(rule);
      truth, mistakes, missing := [], [], false;
      assert p.train[..0] == [];
      for i := 0 to |p.train|
        invariant visits == old(visits) + TrainVisits(rule, p.train[..i]) <= maxVisits
        invariant missing <==> exists k :: 0 <= k < i && Unknown(rule, p.train[k].features)
        invariant !missing ==> truth == Truth(rule, p.train[..i]) && mistakes == Mistakes(rule, p.train[..i])
      {
        var row := p.train[i];
        RowAdds(rule, p.train, i);
        var counted, result := Evaluate(rule, row.features);
        if !counted {
          return false, missing, truth, mistakes;
        }
        if Unknown(rule, row.features) {
          missing := true;
        } else {
          KnownResult(rule, row.features);
          truth := truth + [if result.value then 1 else 0];
          mistakes := mistakes + if result.value != row.target then [row.id] else [];
        }
      }
      assert p.train[..|p.train|] == p.train;
      within := true;
    }

    method Rejects(rule: Rule) returns (r: bool)
      ensures r <==> exists i :: 0 <= i < |rule| && Contradictory(rule[i], p.features)
    {
      hide Contradictory;
      for i := 0 to |rule|
        invariant forall k :: 0 <= k < i ==> !Contradictory(rule[k], p.features)
      {
        var contradictory := FindsContradiction(rule[i], p.features);
        if contradictory {
          return true;
        }
      }
      return false;
    }

    /** The end of `candidate`: a truth vector seen before is passed over; a better rule replaces the best. */
    method Record(shape: Shape, truth: seq<nat>, mistakes: seq<bytes>)
      requires InLanguage(LanguageOf(p), shape) && Valid(Size(shape)) && !exact && !limited
      requires Complete(RuleOf(p, shape), p.train) && mistakes == Mistakes(RuleOf(p, shape), p.train)
      requires |truth| == |p.train| && Wrong(truth, p.train) == |mistakes|
      modifies this`seen, this`best, this`exact, this`tried
      ensures Valid(Size(shape)) && tried == old(tried) + {shape}
    {
      hide InLanguage, Complete, Eligible, Size, Mistakes, Wrong, RuleOf;
      if truth !in seen {
        seen := seen[truth := candidateCount];
        if best.None? || |mistakes| < |best.value.mistakes| {
          exact := mistakes == [];
          best := Some(Found(shape, mistakes));
        }
      }
      tried := tried + {shape};
    }

    /** A rule that is not eligible needs no comparison. */
    ghost method PassOver(shape: Shape)
      requires !Eligible(p, shape) && Valid(Size(shape))
      modifies this`tried
      ensures Valid(Size(shape)) && tried == old(tried) + {shape}
    {
      hide Eligible, Scored, AtLeastAsGood, Size, Wrong;
      tried := tried + {shape};
    }

    /** The counts are those of the rules tried before this one, and of this one. */
    ghost predicate Counting(shape: Shape)
      reads `order, `tried, `candidateCount, `visits
    {
      && AllIn(p, order) && Different(order) && InLanguage(LanguageOf(p), shape) && shape !in order
      && (forall s :: s in tried <==> s in order || s == shape)
      && |order| < maxCandidates && candidateCount == |order| + 1
      && Spent(p, order) + CostOf(p, shape) <= maxVisits && visits == Spent(p, order) + CostOf(p, shape)
    }

    /** This rule is counted, and nothing yet spent on it. */
    ghost predicate Weighing(shape: Shape)
      reads `order, `tried, `candidateCount, `visits
    {
      && AllIn(p, order) && Different(order) && InLanguage(LanguageOf(p), shape) && shape !in order
      && (forall s :: s in tried <==> s in order)
      && |order| < maxCandidates && candidateCount == |order| + 1
      && Spent(p, order) <= maxVisits && visits == Spent(p, order)
    }

    ghost method Count(shape: Shape)
      requires Counting(shape) && !limited
      modifies this`order
      ensures Counted()
    {
      hide InLanguage, CostOf, Spent;
      SpentMore(p, order, shape);
      assert forall s :: s in order + [shape] <==> s in order || s == shape;
      order := order + [shape];
    }

    /** The search stops before this rule. */
    ghost method Stop(shape: Shape)
      requires limited && !exact && AllIn(p, order) && Different(order) && (forall s :: s in tried <==> s in order)
      requires Beyond(p, order, shape, maxCandidates, maxVisits) && |order| <= maxCandidates && Spent(p, order) <= maxVisits
      requires (candidateCount == |order| == maxCandidates && visits == Spent(p, order))
               || (candidateCount == |order| + 1 <= maxCandidates && visits == maxVisits)
      ensures Counted()
    {
      hide InLanguage, CostOf, Spent, Beyond;
    }

    /** `candidate` within its limit: the rule is rejected, or scored and compared. */
    method Weigh(shape: Shape) returns (more: bool)
      requires Sensible(p) && InLanguage(LanguageOf(p), shape) && Valid(Size(shape)) && !exact && !limited
      requires Weighing(shape)
      modifies this
      ensures Valid(Size(shape)) && Counted()
      ensures more <==> !exact && !limited
      ensures limited || tried == old(tried) + {shape}
      ensures tried <= old(tried) + {shape} && old(tried) <= tried
    {
      hide Contradictory, InLanguage, Complete, Satisfiable, WellKinded, Sensible, Size, Truth, Mistakes, Wrong, RuleOf,
           Scored, AtLeastAsGood, Eligible, TrainVisits, Spent, CostOf, AllIn, Different, Valid;
      CostIs(p, shape);
      var rule := RuleOf(p, shape);
      var rejected := Rejects(rule);
      if rejected {
        RejectedNotEligible(p, shape);
        PassOver(shape);
        Count(shape);
        return true;
      }
      var within, missing, truth, mistakes := Score(rule);
      if !within {
        limited := true;
        Stop(shape);
        return false;
      }
      if missing {
        IncompleteNotEligible(p, shape);
        PassOver(shape);
        Count(shape);
        return true;
      }
      MistakesCounted(rule, p.train);
      Record(shape, truth, mistakes);
      Count(shape);
      return !exact;
    }

    /** `candidate`: whether to go on. */
    method Candidate(shape: Shape) returns (more: bool)
      requires Sensible(p) && InLanguage(LanguageOf(p), shape) && Valid(Size(shape)) && !exact && !limited
      requires Counted() && shape !in tried
      modifies this
      ensures Valid(Size(shape)) && Counted()
      ensures more <==> !exact && !limited
      ensures limited || tried == old(tried) + {shape}
      ensures tried <= old(tried) + {shape} && old(tried) <= tried
    {
      hide Contradictory, InLanguage, Complete, Satisfiable, WellKinded, Sensible, Size, Truth, Mistakes, Wrong, RuleOf,
           Scored, AtLeastAsGood, Eligible, TrainVisits, Spent, CostOf, AllIn, Different, Valid;
      if candidateCount >= maxCandidates {
        limited := true;
        Stop(shape);
        return false;
      }
      candidateCount := candidateCount + 1;
      more := Weigh(shape);
    }

    /** Every partition of the pick has been tried. */
    ghost predicate Covered(pick: Indices)
      reads this
    {
      forall shape :: Partition(LanguageOf(p), pick, shape) ==> shape in tried
    }

    /** The callback of `search`: the partitions of a pick, in the order of their text. */
    method TryPartitions(pick: Indices) returns (more: bool)
      requires Sensible(p) && Pick(LanguageOf(p), pick) && Valid(|pick|) && !exact && !limited
      requires Counted() && Fresh(tried, pick)
      modifies this
      ensures Valid(|pick|) && Counted() && old(tried) <= tried
      ensures more <==> !exact && !limited
      ensures more ==> Covered(pick)
      ensures forall shape :: shape in tried ==> shape in old(tried) || MadeOf(shape, pick)
    {
      hide Valid, Partition, InLanguage, Pick, Sensible, Size, Counted, MadeOf;
      var shapes := Partitions(LanguageOf(p), p.text, pick);
      for i := 0 to |shapes|
        invariant Valid(|pick|) && Counted() && !exact && !limited && old(tried) <= tried
        invariant forall k :: 0 <= k < i ==> shapes[k] in tried
        invariant forall shape :: shape in tried ==> shape in old(tried) || (shape in shapes[..i] && MadeOf(shape, pick))
      {
        assert shapes[i] in shapes;
        PartitionInLanguage(LanguageOf(p), pick, shapes[i]);
        PartitionAtoms(LanguageOf(p), pick, shapes[i]);
        NotRepeated(shapes, i);
        more := Candidate(shapes[i]);
        assert shapes[..i + 1] == shapes[..i] + [shapes[i]];
        if !more {
          return false;
        }
      }
      return true;
    }

    /** `combinations`: every pick of `count` atoms that starts with `picked` and goes on from `first`. */
    method Combinations(count: nat, first: nat, picked: Indices) returns (more: bool)
      requires Sensible(p) && Pick(LanguageOf(p), picked) && |picked| <= count && first <= |p.atoms|
      requires forall i :: 0 <= i < |picked| ==> picked[i] <= first
      requires Valid(count) && Counted() && !exact && !limited
      requires AllFresh(LanguageOf(p), tried, picked, count, first)
      modifies this
      ensures Valid(count) && Counted() && old(tried) <= tried
      ensures more <==> !exact && !limited
      ensures more ==> forall pick :: Pick(LanguageOf(p), pick) && Continues(pick, picked, count, first) ==> Covered(pick)
      ensures forall shape :: shape in tried ==>
                shape in old(tried) || FromBelow(LanguageOf(p), shape, picked, count, first, |p.atoms|)
      decreases count - |picked|
    {
      hide Valid, Sensible, Partition, Pick, Counted, MadeOf, Fresh, AllFresh, FromBelow;
      ghost var l := LanguageOf(p);
      if |picked| == count {
        assert Continues(picked, picked, count, first);
        Alone(l, tried, picked, count, first);
        more := TryPartitions(picked);
        forall shape | shape in tried && shape !in old(tried) ensures FromBelow(l, shape, picked, count, first, |p.atoms|) {
          FromWhole(l, shape, picked, count, first, |p.atoms|);
        }
        assert forall pick :: Continues(pick, picked, count, first) ==> pick == picked;
        return;
      }
      for index := first to |p.atoms|
        invariant Valid(count) && Counted() && !exact && !limited && old(tried) <= tried
        invariant forall pick :: Pick(l, pick) && Continues(pick, picked, count, first) && pick[|picked|] < index ==> Covered(pick)
        invariant forall shape :: shape in tried ==> shape in old(tried) || FromBelow(l, shape, picked, count, first, index)
      {
        var n := |picked|;
        ghost var before := tried;
        if n >= 2 && picked[n - 1] == index && picked[n - 2] == index {
          TakenTwice(l, picked, count, first, index);
          forall shape | shape in tried && shape !in old(tried) ensures FromBelow(l, shape, picked, count, first, index + 1) {
            FromNext(l, shape, picked, count, first, index);
          }
          continue;
        }
        PickExtends(l, picked, index);
        NextFresh(l, old(tried), tried, picked, count, first, index);
        more := Combinations(count, index, picked + [index]);
        forall shape | shape in tried && shape !in old(tried) ensures FromBelow(l, shape, picked, count, first, index + 1) {
          FromNext(l, shape, picked, count, first, index);
        }
        if !more {
          forall shape | shape in tried && shape !in old(tried) ensures FromBelow(l, shape, picked, count, first, |p.atoms|) {
            FromLater(l, shape, picked, count, first, index + 1, |p.atoms|);
          }
          return false;
        }
        ContinuesNext(l, picked, count, first, index);
      }
      PicksBelow(l, picked, count, first);
      return true;
    }

    /** The totals of `search`, from one atom up, until something stops it. */
    method Totals()
      requires Sensible(p) && Valid(0) && Counted() && !exact && !limited && tried == {}
      modifies this
      ensures Valid(MaxTotal(p)) && Counted()
      ensures !limited && !exact ==> forall shape :: InLanguage(LanguageOf(p), shape) ==> shape in tried
      ensures exact ==> best.Some? && forall shape :: InLanguage(LanguageOf(p), shape) && Size(shape) < Size(best.value.shape) ==> shape in tried
    {
      hide Valid, Sensible, InLanguage, Partition, Pick, Size, Counted, AllFresh, FromBelow;
      var total := 1;
      forall shape | InLanguage(LanguageOf(p), shape) ensures Size(shape) >= 1 {
        SizeBound(p, shape);
      }
      while total <= MaxTotal(p)
        invariant 1 <= total <= MaxTotal(p) + 1
        invariant Valid(total - 1) && Counted() && !exact && !limited
        invariant forall shape :: InLanguage(LanguageOf(p), shape) && Size(shape) < total ==> shape in tried
        invariant forall shape :: shape in tried ==> Size(shape) < total
        decreases MaxTotal(p) - total
      {
        ValidLater(total - 1, total);
        EmptyPick(LanguageOf(p));
        OtherSizes(LanguageOf(p), tried, total);
        ghost var before := tried;
        var more := Combinations(total, 0, []);
        if !more {
          BestSize(total);
          ValidLater(total, MaxTotal(p));
          return;
        }
        forall shape | shape in tried ensures Size(shape) < total + 1 {
          if shape !in before {
            SizeFrom(LanguageOf(p), shape, total);
          }
        }
        forall shape | InLanguage(LanguageOf(p), shape) && Size(shape) < total + 1 ensures shape in tried {
          if Size(shape) == total {
            var pick := LanguageIsPartitioned(LanguageOf(p), shape);
            assert Continues(pick, [], total, 0);
            assert Covered(pick);
          }
        }
        total := total + 1;
      }
      ValidLater(total - 1, MaxTotal(p));
      forall shape | InLanguage(LanguageOf(p), shape) ensures shape in tried {
        SizeBound(p, shape);
      }
    }

    lemma ValidLater(total: nat, later: nat)
      requires Valid(total) && total <= later
      ensures Valid(later)
    {
      hide Scored, Eligible, AtLeastAsGood;
    }

    lemma BestSize(total: nat)
      requires Valid(total)
      ensures exact ==> best.Some? && Size(best.value.shape) <= total
    {
      hide Scored, Eligible, AtLeastAsGood;
    }
  }

  lemma SameLength(p: Problem, shape: Shape)
    requires InLanguage(LanguageOf(p), shape)
    ensures |RuleOf(p, shape)| == |shape|
  {}

  /** `pick` is `picked` and then `count - |picked|` atoms from `first` on. */
  ghost predicate Continues(pick: Indices, picked: Indices, count: nat, first: nat) {
    |pick| == count && picked <= pick && (|picked| < count ==> first <= pick[|picked|])
  }

  lemma EmptyPick(l: Language)
    ensures Pick(l, [])
  {}

  lemma TakenTwice(l: Language, picked: Indices, count: nat, first: nat, index: nat)
    requires |picked| >= 2 && picked[|picked| - 1] == index == picked[|picked| - 2] && |picked| < count
    ensures forall pick :: Pick(l, pick) && Continues(pick, picked, count, first) ==> pick[|picked|] != index
  {
    forall pick | Pick(l, pick) && Continues(pick, picked, count, first) ensures pick[|picked|] != index {
      assert pick[|picked| - 2] < pick[|picked|];
    }
  }

  lemma PickExtends(l: Language, picked: Indices, index: nat)
    requires Pick(l, picked) && index < l.atoms && forall i :: 0 <= i < |picked| ==> picked[i] <= index
    requires |picked| >= 2 ==> picked[|picked| - 1] != index || picked[|picked| - 2] != index
    ensures Pick(l, picked + [index])
    ensures forall i :: 0 <= i < |picked + [index]| ==> (picked + [index])[i] <= index
  {
    var longer := picked + [index];
    forall j | 2 <= j < |longer| ensures longer[j - 2] < longer[j] {
      if j == |picked| {
        assert picked[j - 2] <= picked[j - 1] <= index;
      }
    }
  }

  lemma ContinuesNext(l: Language, picked: Indices, count: nat, first: nat, index: nat)
    requires |picked| < count
    ensures forall pick :: Pick(l, pick) && Continues(pick, picked, count, first) && pick[|picked|] == index
              ==> Continues(pick, picked + [index], count, index)
  {
    forall pick | Pick(l, pick) && Continues(pick, picked, count, first) && pick[|picked|] == index
      ensures Continues(pick, picked + [index], count, index)
    {
      assert pick[..|picked|] == picked;
    }
  }

  lemma PicksBelow(l: Language, picked: Indices, count: nat, first: nat)
    requires |picked| < count
    ensures forall pick :: Pick(l, pick) && Continues(pick, picked, count, first) ==> pick[|picked|] < l.atoms
  {}
}
