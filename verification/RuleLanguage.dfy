/**
 The rule language of a search: one or two clauses over numbered atoms, reached as the partitions
 of ascending picks of atoms (`combinations` and the mask loop of `search` in `rules.rs`).
 */
module RuleLanguage {
  import opened Bytes
  import Scan

  type Indices = seq<nat>

  /** The clauses of a rule, as positions in the list of atoms. */
  type Shape = seq<Indices>

  datatype Language = Language(atoms: nat, maxClause: nat, allowOr: bool)

  predicate Strict(c: Indices) { forall i, j :: 0 <= i < j < |c| ==> c[i] < c[j] }

  predicate Ascending(p: Indices) { forall i, j :: 0 <= i < j < |p| ==> p[i] <= p[j] }

  /** The order of a sorted list of clauses. */
  predicate Before(a: Indices, b: Indices)
    decreases |a|
  {
    if b == [] then false
    else if a == [] then true
    else a[0] < b[0] || (a[0] == b[0] && Before(a[1..], b[1..]))
  }

  lemma {:induction false} BeforeTotal(a: Indices, b: Indices)
    ensures a == b || Before(a, b) || Before(b, a)
    ensures !(Before(a, b) && Before(b, a)) && !Before(a, a)
    decreases |a|
  {
    if a != [] {
      BeforeTotal(a[1..], a[1..]);
    }
    if a != [] && b != [] {
      BeforeTotal(a[1..], b[1..]);
      if a[0] == b[0] && a[1..] == b[1..] {
        assert a == [a[0]] + a[1..] && b == [b[0]] + b[1..];
      }
    }
  }

  predicate ClauseOf(l: Language, c: Indices) {
    0 < |c| <= l.maxClause && Strict(c) && forall i :: 0 <= i < |c| ==> c[i] < l.atoms
  }

  /** A clause names its atoms in order, and a rule its clauses: this is one form of every rule up to reordering. */
  predicate InLanguage(l: Language, shape: Shape) {
    && (|shape| == 1 || (|shape| == 2 && l.allowOr && Before(shape[0], shape[1])))
    && (forall i :: 0 <= i < |shape| ==> ClauseOf(l, shape[i]))
  }

  function Size(shape: Shape): nat {
    if shape == [] then 0 else |shape[0]| + Size(shape[1..])
  }

  /** An ascending pick of atoms, none more than twice. */
  predicate Pick(l: Language, p: Indices) {
    && Ascending(p) && (forall i :: 0 <= i < |p| ==> p[i] < l.atoms)
    && (forall j :: 2 <= j < |p| ==> p[j - 2] < p[j])
  }

  // ----- the partition of a pick that a mask selects

  function Left(p: Indices, mask: nat): Indices
    decreases |p|
  {
    if p == [] then [] else (if mask % 2 == 0 then [p[0]] else []) + Left(p[1..], mask / 2)
  }

  function Right(p: Indices, mask: nat): Indices
    decreases |p|
  {
    if p == [] then [] else (if mask % 2 == 1 then [p[0]] else []) + Right(p[1..], mask / 2)
  }

  function Masks(n: nat): nat { if n == 0 then 1 else 2 * Masks(n - 1) }

  predicate NoRepeat(c: Indices) { forall j :: 1 <= j < |c| ==> c[j - 1] != c[j] }

  predicate Splits(l: Language, left: Indices, right: Indices) {
    && left != [] && |left| <= l.maxClause && |right| <= l.maxClause && (l.allowOr || right == [])
    && NoRepeat(left) && NoRepeat(right) && left != right
  }

  /** The clauses in their order; an empty second clause is none. */
  function Sorted(left: Indices, right: Indices): Shape {
    if right == [] then [left] else if Before(right, left) then [right, left] else [left, right]
  }

  predicate PartitionBy(l: Language, p: Indices, mask: nat, shape: Shape) {
    Splits(l, Left(p, mask), Right(p, mask)) && shape == Sorted(Left(p, mask), Right(p, mask))
  }

  predicate Partition(l: Language, p: Indices, shape: Shape) {
    exists mask :: 0 <= mask < Masks(|p|) && PartitionBy(l, p, mask, shape)
  }

  // ----- every partition is a rule of the language

  lemma {:induction false} PartsOf(p: Indices, mask: nat)
    ensures |Left(p, mask)| + |Right(p, mask)| == |p|
    ensures forall x :: x in Left(p, mask) ==> x in p
    ensures forall x :: x in Right(p, mask) ==> x in p
    decreases |p|
  {
    if p != [] {
      PartsOf(p[1..], mask / 2);
    }
  }

  lemma {:induction false} PartsAscend(p: Indices, mask: nat)
    requires Ascending(p)
    ensures Ascending(Left(p, mask)) && Ascending(Right(p, mask))
    decreases |p|
  {
    if p != [] {
      var rest := p[1..];
      PartsAscend(rest, mask / 2);
      PartsOf(rest, mask / 2);
      assert forall x :: x in rest ==> p[0] <= x;
      Prepend(p[0], Left(rest, mask / 2));
      Prepend(p[0], Right(rest, mask / 2));
    }
  }

  lemma Prepend(x: nat, c: Indices)
    requires Ascending(c) && forall y :: y in c ==> x <= y
    ensures Ascending([x] + c) && [] + c == c
  {
    forall j | 0 <= j < |c| ensures x <= c[j] {
      assert c[j] in c;
    }
  }

  lemma {:induction false} StrictWhenDistinct(c: Indices)
    requires Ascending(c) && NoRepeat(c)
    ensures Strict(c)
  {
    forall i, j | 0 <= i < j < |c| ensures c[i] < c[j] {
      var next := i + 1;
      assert c[i] != c[next] && c[i] <= c[next] && (next < j ==> c[next] <= c[j]);
    }
  }

  lemma PartIsClause(l: Language, p: Indices, c: Indices)
    requires Pick(l, p) && Ascending(c) && NoRepeat(c) && 0 < |c| <= l.maxClause && forall x :: x in c ==> x in p
    ensures ClauseOf(l, c)
  {
    StrictWhenDistinct(c);
    forall i | 0 <= i < |c| ensures c[i] < l.atoms {
      assert c[i] in c;
    }
  }

  lemma SizeSorted(left: Indices, right: Indices)
    ensures Size(Sorted(left, right)) == |left| + |right|
  {
    hide Before;
    assert forall c: Indices :: Size([c]) == |c| + Size([c][1..]) == |c|;
    assert [left, right][1..] == [right] && [right, left][1..] == [left];
  }

  lemma PartitionInLanguage(l: Language, p: Indices, shape: Shape)
    requires Pick(l, p) && Partition(l, p, shape)
    ensures InLanguage(l, shape) && Size(shape) == |p|
  {
    hide Before, ClauseOf, Pick, Left, Right, Ascending, NoRepeat, Size;
    var mask :| 0 <= mask < Masks(|p|) && PartitionBy(l, p, mask, shape);
    var left, right := Left(p, mask), Right(p, mask);
    PartsOf(p, mask);
    PickAscends(l, p);
    PartsAscend(p, mask);
    PartIsClause(l, p, left);
    if right != [] {
      PartIsClause(l, p, right);
    }
    BeforeTotal(left, right);
    SizeSorted(left, right);
  }

  lemma PickAscends(l: Language, p: Indices)
    requires Pick(l, p)
    ensures Ascending(p)
  {}

  // ----- every rule of the language is a partition of a pick

  function Merge(a: Indices, b: Indices): Indices
    decreases |a| + |b|
  {
    if a == [] then b
    else if b == [] then a
    else if a[0] <= b[0] then [a[0]] + Merge(a[1..], b) else [b[0]] + Merge(a, b[1..])
  }

  /** The mask that takes `a` and `b` out of their merge again. */
  function MaskOf(a: Indices, b: Indices): nat
    decreases |a| + |b|
  {
    if a == [] && b == [] then 0
    else if b == [] || (a != [] && a[0] <= b[0]) then 2 * MaskOf(a[1..], b) else 1 + 2 * MaskOf(a, b[1..])
  }

  lemma MergeNone(a: Indices)
    ensures Merge([], a) == a && Merge(a, []) == a
  {}

  lemma TakeLeft(x: nat, p: Indices, mask: nat)
    ensures Left([x] + p, 2 * mask) == [x] + Left(p, mask) && Right([x] + p, 2 * mask) == Right(p, mask)
  {
    assert ([x] + p)[1..] == p;
  }

  lemma TakeRight(x: nat, p: Indices, mask: nat)
    ensures Left([x] + p, 1 + 2 * mask) == Left(p, mask) && Right([x] + p, 1 + 2 * mask) == [x] + Right(p, mask)
  {
    assert ([x] + p)[1..] == p;
  }

  lemma {:induction false} MergeSplits(a: Indices, b: Indices)
    ensures var p := Merge(a, b);
            && |p| == |a| + |b| && MaskOf(a, b) < Masks(|p|)
            && Left(p, MaskOf(a, b)) == a && Right(p, MaskOf(a, b)) == b
    decreases |a| + |b|
  {
    hide Left, Right;
    if a == [] && b == [] {
      NoParts();
    } else if b == [] || (a != [] && a[0] <= b[0]) {
      MergeSplits(a[1..], b);
      MergeNone(a);
      MergeNone(a[1..]);
      TakeLeft(a[0], Merge(a[1..], b), MaskOf(a[1..], b));
      assert a == [a[0]] + a[1..];
    } else {
      MergeSplits(a, b[1..]);
      MergeNone(b);
      MergeNone(b[1..]);
      TakeRight(b[0], Merge(a, b[1..]), MaskOf(a, b[1..]));
      assert b == [b[0]] + b[1..];
    }
  }

  lemma NoParts()
    ensures Left([], 0) == [] && Right([], 0) == []
  {}

  lemma CountHead(c: Indices, x: nat)
    requires c != []
    ensures multiset(c)[x] == (if c[0] == x then 1 else 0) + multiset(c[1..])[x]
  {
    assert c == [c[0]] + c[1..];
  }

  lemma {:induction false} MergeCounts(a: Indices, b: Indices, x: nat)
    ensures multiset(Merge(a, b))[x] == multiset(a)[x] + multiset(b)[x]
    decreases |a| + |b|
  {
    if a != [] && b != [] {
      CountHead(Merge(a, b), x);
      if a[0] <= b[0] {
        MergeCounts(a[1..], b, x);
        CountHead(a, x);
        assert Merge(a, b)[1..] == Merge(a[1..], b);
      } else {
        MergeCounts(a, b[1..], x);
        CountHead(b, x);
        assert Merge(a, b)[1..] == Merge(a, b[1..]);
      }
    }
  }

  lemma {:induction false} MergeMembers(a: Indices, b: Indices)
    ensures forall x :: x in Merge(a, b) ==> x in a || x in b
    decreases |a| + |b|
  {
    if a != [] && b != [] {
      if a[0] <= b[0] { MergeMembers(a[1..], b); } else { MergeMembers(a, b[1..]); }
    }
  }

  lemma {:induction false} MergeAscends(a: Indices, b: Indices)
    requires Ascending(a) && Ascending(b)
    ensures Ascending(Merge(a, b))
    decreases |a| + |b|
  {
    if a != [] && b != [] {
      if a[0] <= b[0] {
        MergeAscends(a[1..], b);
        MergeMembers(a[1..], b);
        Prepend(a[0], Merge(a[1..], b));
      } else {
        MergeAscends(a, b[1..]);
        MergeMembers(a, b[1..]);
        Prepend(b[0], Merge(a, b[1..]));
      }
    }
  }

  lemma {:induction false} StrictOnce(c: Indices, x: nat)
    requires Strict(c)
    ensures multiset(c)[x] <= 1
  {
    if c != [] {
      assert c == [c[0]] + c[1..];
      assert multiset(c) == multiset{c[0]} + multiset(c[1..]);
      StrictOnce(c[1..], x);
      assert x == c[0] ==> x !in c[1..];
    }
  }

  lemma ThriceCounted(p: Indices, i: nat)
    requires i + 2 < |p| && p[i] == p[i + 1] == p[i + 2]
    ensures multiset(p)[p[i]] >= 3
  {
    var middle := p[i..i + 3];
    assert p == p[..i] + (middle + p[i + 3..]);
    assert middle == [p[i], p[i], p[i]];
    assert multiset(p) == multiset(p[..i]) + (multiset(middle) + multiset(p[i + 3..]));
  }

  lemma MergeIsPick(l: Language, a: Indices, b: Indices)
    requires Strict(a) && Strict(b) && (forall i :: 0 <= i < |a| ==> a[i] < l.atoms) && (forall i :: 0 <= i < |b| ==> b[i] < l.atoms)
    ensures Pick(l, Merge(a, b))
  {
    MergeAscends(a, b);
    MergeMembers(a, b);
    var p := Merge(a, b);
    forall i | 0 <= i < |p| ensures p[i] < l.atoms {
      assert p[i] in p;
    }
    forall j | 2 <= j < |p| ensures p[j - 2] < p[j] {
      assert p[j - 2] <= p[j - 1] <= p[j];
      if p[j - 2] == p[j] {
        ThriceCounted(p, j - 2);
        MergeCounts(a, b, p[j]);
        StrictOnce(a, p[j]);
        StrictOnce(b, p[j]);
      }
    }
  }

  lemma StrictNoRepeat(c: Indices)
    requires Strict(c)
    ensures NoRepeat(c)
  {}

  /** Every rule of the language is a partition of an ascending pick as long as the rule is. */
  lemma LanguageIsPartitioned(l: Language, shape: Shape) returns (p: Indices)
    requires InLanguage(l, shape)
    ensures Pick(l, p) && |p| == Size(shape) && Partition(l, p, shape)
  {
    hide Before, Merge, MaskOf, Left, Right, Ascending;
    var left := shape[0];
    var right := if |shape| == 2 then shape[1] else [];
    p := Merge(left, right);
    MergeIsPick(l, left, right);
    MergeSplits(left, right);
    StrictNoRepeat(left);
    StrictNoRepeat(right);
    BeforeTotal(left, right);
    if |shape| == 2 {
      assert shape == [left, right];
      assert Size(shape) == |left| + Size(shape[1..]) && Size(shape[1..]) == |right| + Size([]);
    } else {
      assert shape == [left];
      assert Size(shape) == |left| + Size([]);
    }
    assert PartitionBy(l, p, MaskOf(left, right), shape);
  }

  // ----- a rule is a partition of one pick only

  /** The atoms of a rule, with their repetitions. */
  function AtomsOf(shape: Shape): multiset<nat> {
    if shape == [] then multiset{} else multiset(shape[0]) + AtomsOf(shape[1..])
  }

  /** The rule has the atoms of the pick, each as often. */
  ghost predicate MadeOf(shape: Shape, p: Indices) { AtomsOf(shape) == multiset(p) }

  /** Picks that make one rule are one. */
  lemma OnePick(shape: Shape, p: Indices, q: Indices)
    requires Ascending(p) && Ascending(q) && MadeOf(shape, p) && MadeOf(shape, q)
    ensures p == q
  {
    hide Ascending;
    AscendingUnique(p, q);
  }

  lemma MadeSize(shape: Shape, p: Indices)
    requires MadeOf(shape, p)
    ensures Size(shape) == |p|
  {
    AtomsSize(shape);
    assert |multiset(p)| == |p|;
  }

  lemma {:induction false} AtomsSize(shape: Shape)
    ensures |AtomsOf(shape)| == Size(shape)
  {
    if shape != [] {
      AtomsSize(shape[1..]);
    }
  }

  lemma {:induction false} PartsCount(p: Indices, mask: nat, x: nat)
    ensures multiset(Left(p, mask))[x] + multiset(Right(p, mask))[x] == multiset(p)[x]
    decreases |p|
  {
    if p != [] {
      PartsCount(p[1..], mask / 2, x);
      CountHead(p, x);
      var (l, r) := (Left(p[1..], mask / 2), Right(p[1..], mask / 2));
      if mask % 2 == 0 {
        CountFront(p[0], l, x);
        assert [] + r == r;
      } else {
        CountFront(p[0], r, x);
        assert [] + l == l;
      }
    }
  }

  lemma CountFront(y: nat, c: Indices, x: nat)
    ensures multiset([y] + c)[x] == (if y == x then 1 else 0) + multiset(c)[x]
  {
    assert ([y] + c)[1..] == c;
    CountHead([y] + c, x);
  }

  lemma SortedAtoms(left: Indices, right: Indices)
    ensures AtomsOf(Sorted(left, right)) == multiset(left) + multiset(right)
  {
    hide Before;
    assert forall c: Indices :: AtomsOf([c]) == multiset(c) + AtomsOf([c][1..]) == multiset(c);
    assert [left, right][1..] == [right] && [right, left][1..] == [left];
  }

  lemma PartitionAtoms(l: Language, p: Indices, shape: Shape)
    requires Partition(l, p, shape)
    ensures MadeOf(shape, p)
  {
    hide Left, Right, Sorted, Splits, AtomsOf;
    var mask :| 0 <= mask < Masks(|p|) && PartitionBy(l, p, mask, shape);
    SortedAtoms(Left(p, mask), Right(p, mask));
    forall x ensures AtomsOf(shape)[x] == multiset(p)[x] {
      PartsCount(p, mask, x);
    }
  }

  ghost predicate SameCounts(p: Indices, q: Indices) { forall x :: multiset(p)[x] == multiset(q)[x] }

  lemma FirstLeast(p: Indices, q: Indices)
    requires Ascending(p) && p != [] && q != [] && SameCounts(p, q)
    ensures p[0] <= q[0]
  {
    assert q[0] in multiset(q);
    assert multiset(p)[q[0]] == multiset(q)[q[0]] > 0;
    assert q[0] in p;
  }

  lemma TailCounts(p: Indices, q: Indices)
    requires p != [] && q != [] && p[0] == q[0] && SameCounts(p, q)
    ensures SameCounts(p[1..], q[1..])
  {
    forall x ensures multiset(p[1..])[x] == multiset(q[1..])[x] {
      CountHead(p, x);
      CountHead(q, x);
    }
  }

  lemma AscendingTail(p: Indices)
    requires Ascending(p) && p != []
    ensures Ascending(p[1..]) && p == [p[0]] + p[1..]
  {}

  /** An ascending pick is determined by its atoms. */
  lemma {:induction false} AscendingUnique(p: Indices, q: Indices)
    requires Ascending(p) && Ascending(q) && SameCounts(p, q)
    ensures p == q
    decreases |p|
  {
    hide Ascending, SameCounts;
    if p == [] || q == [] {
      NothingCounted(p, q);
    } else {
      FirstLeast(p, q);
      assert SameCounts(q, p) by { CountsBack(p, q); }
      FirstLeast(q, p);
      TailCounts(p, q);
      AscendingTail(p);
      AscendingTail(q);
      AscendingUnique(p[1..], q[1..]);
    }
  }

  lemma CountsBack(p: Indices, q: Indices)
    requires SameCounts(p, q)
    ensures SameCounts(q, p)
  {}

  lemma NothingCounted(p: Indices, q: Indices)
    requires (p == [] || q == []) && SameCounts(p, q)
    ensures p == q
  {
    assert p != [] ==> multiset(p)[p[0]] > 0;
    assert q != [] ==> multiset(q)[q[0]] > 0;
  }

  // ----- the partitions of a pick in the order of their text

  predicate Different(shapes: seq<Shape>) { forall i, j :: 0 <= i < j < |shapes| ==> shapes[i] != shapes[j] }

  predicate Arranged(text: Shape -> bytes, shapes: seq<Shape>) {
    forall i, j :: 0 <= i < j < |shapes| ==> !Scan.Less(text(shapes[j]), text(shapes[i]))
  }

  /** Put a partition after those whose text is not greater, unless it is there already. */
  method Insert(text: Shape -> bytes, shapes: seq<Shape>, shape: Shape) returns (r: seq<Shape>)
    requires Arranged(text, shapes) && Different(shapes)
    ensures Arranged(text, r) && Different(r)
    ensures forall s :: s in r <==> s in shapes || s == shape
  {
    hide Scan.Less;
    if shape in shapes {
      return shapes;
    }
    var at := |shapes|;
    while at > 0 && Scan.Less(text(shape), text(shapes[at - 1]))
      invariant 0 <= at <= |shapes|
      invariant forall k :: at <= k < |shapes| ==> Scan.Less(text(shape), text(shapes[k]))
    {
      at := at - 1;
    }
    r := shapes[..at] + [shape] + shapes[at..];
    Inserted(text, shapes, shape, at);
    assert shapes == shapes[..at] + shapes[at..];
    StillDifferent(shapes, shape, at);
  }

  lemma StillDifferent(shapes: seq<Shape>, shape: Shape, at: nat)
    requires Different(shapes) && shape !in shapes && at <= |shapes|
    ensures Different(shapes[..at] + [shape] + shapes[at..])
  {
    var r := shapes[..at] + [shape] + shapes[at..];
    forall i, j | 0 <= i < j < |r| ensures r[i] != r[j] {
      assert i != at ==> r[i] == shapes[if i < at then i else i - 1];
      assert j != at ==> r[j] == shapes[if j < at then j else j - 1];
    }
  }

  lemma Inserted(text: Shape -> bytes, shapes: seq<Shape>, shape: Shape, at: nat)
    requires Arranged(text, shapes) && at <= |shapes|
    requires at > 0 ==> !Scan.Less(text(shape), text(shapes[at - 1]))
    requires forall k :: at <= k < |shapes| ==> Scan.Less(text(shape), text(shapes[k]))
    ensures Arranged(text, shapes[..at] + [shape] + shapes[at..])
  {
    hide Scan.Less;
    var r := shapes[..at] + [shape] + shapes[at..];
    forall i, j | 0 <= i < j < |r| ensures !Scan.Less(text(r[j]), text(r[i])) {
      if i == at {
        Scan.LessTotal(text(shape), text(shapes[j - 1]));
      } else if j == at && i < at - 1 && Scan.Less(text(shape), text(shapes[i])) {
        var (a, b, c) := (text(shapes[at - 1]), text(shape), text(shapes[i]));
        Scan.LessTotal(a, b);
        if a != b {
          Scan.LessTransitive(a, b, c);
        }
      }
    }
  }

  method SplitByMask(p: Indices, mask: nat) returns (left: Indices, right: Indices)
    ensures left == Left(p, mask) && right == Right(p, mask)
  {
    left, right := [], [];
    var bits := mask;
    assert p[0..] == p;
    for i := 0 to |p|
      invariant left + Left(p[i..], bits) == Left(p, mask) && right + Right(p[i..], bits) == Right(p, mask)
    {
      assert p[i..][1..] == p[i + 1..];
      ghost var (restLeft, restRight) := (Left(p[i + 1..], bits / 2), Right(p[i + 1..], bits / 2));
      assert left + ([p[i]] + restLeft) == left + [p[i]] + restLeft && right + ([p[i]] + restRight) == right + [p[i]] + restRight;
      assert left + ([] + restLeft) == left + restLeft && right + ([] + restRight) == right + restRight;
      if bits % 2 == 0 {
        left := left + [p[i]];
      } else {
        right := right + [p[i]];
      }
      bits := bits / 2;
    }
    assert left + [] == left && right + [] == right;
  }

  /** The mask loop of `search`, then the sort of what it found by canonical text. */
  method Partitions(l: Language, text: Shape -> bytes, p: Indices) returns (shapes: seq<Shape>)
    ensures forall shape :: shape in shapes <==> Partition(l, p, shape)
    ensures Arranged(text, shapes) && Different(shapes)
  {
    hide Left, Right, Before, Arranged, Splits, Sorted;
    shapes := [];
    NothingArranged(text);
    for mask := 0 to Masks(|p|)
      invariant Arranged(text, shapes) && Different(shapes)
      invariant forall shape :: shape in shapes <==> exists m :: 0 <= m < mask && PartitionBy(l, p, m, shape)
    {
      var left, right := SplitByMask(p, mask);
      if Splits(l, left, right) {
        assert PartitionBy(l, p, mask, Sorted(left, right));
        shapes := Insert(text, shapes, Sorted(left, right));
      }
    }
  }

  lemma NothingArranged(text: Shape -> bytes)
    ensures Arranged(text, [])
  {}
}
