/** When a future message is due: `compare` and `evaluate` of `future_messages.rs`. */
module Conditions {
  import opened Bytes
  import Scan

  datatype Scalar = Null | Boolean(b: bool) | Number(n: int) | String(s: bytes)

  datatype Operator = Eq | Ne | Lt | Le | Gt | Ge

  datatype Comparison = Comparison(field: bytes, op: Operator, expected: Scalar)

  datatype Condition = Condition(notBefore: Option<int>, event: Option<bytes>, comparisons: seq<Comparison>)

  /** A captured context value: a scalar, a value not settled yet, or an array, map or handle. */
  datatype Captured = Definite(scalar: Scalar) | Unresolved | Compound

  datatype Context = Context(id: bytes, event: bytes, values: seq<(bytes, Captured)>)

  datatype Reason =
    | Time
    | Event
    | Missing(field: bytes)
    | Unsettled(field: bytes)
    | Fails(field: bytes)

  datatype Match = Ready | Pending(reason: Reason)

  predicate Holds(op: Operator, order: int) {
    match op
    case Eq => order == 0
    case Ne => order != 0
    case Lt => order < 0
    case Le => order <= 0
    case Gt => order > 0
    case Ge => order >= 0
  }

  function Sign(less: bool, greater: bool): int { if less then -1 else if greater then 1 else 0 }

  /** `compare`: values of different kinds cannot be compared. */
  function Compare(actual: Captured, comparison: Comparison): Result<bool> {
    match (actual, comparison.expected)
    case (Definite(Null), Null) => Ok(Holds(comparison.op, 0))
    case (Definite(Boolean(a)), Boolean(b)) => Ok(Holds(comparison.op, Sign(!a && b, a && !b)))
    case (Definite(Number(a)), Number(b)) => Ok(Holds(comparison.op, Sign(a < b, a > b)))
    case (Definite(String(a)), String(b)) => Ok(Holds(comparison.op, Sign(Scan.Less(a, b), Scan.Less(b, a))))
    case _ => Err(Type)
  }

  function Find(values: seq<(bytes, Captured)>, field: bytes): Option<Captured> {
    if values == [] then None
    else if values[0].0 == field then Some(values[0].1)
    else Find(values[1..], field)
  }

  datatype Verdict = Met | Unmet(reason: Reason) | Uncomparable

  function Judge(context: Context, comparison: Comparison): Verdict {
    match Find(context.values, comparison.field)
    case None => Unmet(Missing(comparison.field))
    case Some(Unresolved) => Unmet(Unsettled(comparison.field))
    case Some(actual) =>
      match Compare(actual, comparison)
      case Err(_) => Uncomparable
      case Ok(holds) => if holds then Met else Unmet(Fails(comparison.field))
  }

  predicate EventMatches(condition: Condition, context: Option<Context>) {
    condition.event.Some? && context.Some? && context.value.event == condition.event.value
  }

  /** The message is due: its time has come, and its event with every comparison settled and true. */
  predicate Due(condition: Condition, context: Option<Context>, now: int) {
    && (condition.notBefore.Some? ==> condition.notBefore.value <= now)
    && (condition.event.Some? ==>
          EventMatches(condition, context)
          && forall i :: 0 <= i < |condition.comparisons| ==> Judge(context.value, condition.comparisons[i]) == Met)
  }

  /** Some comparison of a matching event compares values of different kinds. */
  predicate IllTyped(condition: Condition, context: Option<Context>) {
    EventMatches(condition, context)
    && exists i :: 0 <= i < |condition.comparisons| && Judge(context.value, condition.comparisons[i]) == Uncomparable
  }

  // ----- what a condition means

  /** `a` comes before `b` byte by byte: it is a proper prefix of `b`, or smaller at the first byte where they differ. */
  ghost predicate Earlier(a: bytes, b: bytes) {
    exists i :: 0 <= i <= |a| && i < |b| && a[..i] == b[..i] && (i < |a| ==> a[i] < b[i])
  }

  lemma {:induction false} LessIsEarlier(a: bytes, b: bytes)
    ensures Scan.Less(a, b) <==> Earlier(a, b)
    decreases |a|
  {
    if b == [] {
    } else if a == [] {
      assert a[..0] == b[..0];
    } else {
      LessIsEarlier(a[1..], b[1..]);
      EarlierTail(a, b);
    }
  }

  lemma EarlierTail(a: bytes, b: bytes)
    requires a != [] && b != []
    ensures Earlier(a, b) <==> a[0] < b[0] || (a[0] == b[0] && Earlier(a[1..], b[1..]))
  {
    var x, y := a[1..], b[1..];
    assert a[..0] == b[..0];
    if i :| 0 < i <= |a| && i < |b| && a[..i] == b[..i] && (i < |a| ==> a[i] < b[i]) {
      assert a[..i][0] == b[..i][0];
      assert x[..i - 1] == a[..i][1..] && y[..i - 1] == b[..i][1..];
    }
    if i :| 0 <= i <= |x| && i < |y| && x[..i] == y[..i] && (i < |x| ==> x[i] < y[i]) {
      assert a[..i + 1] == [a[0]] + x[..i] && b[..i + 1] == [b[0]] + y[..i];
    }
  }

  /** What each operator answers for two values of one kind. False is below true, and null equals null. */
  ghost predicate TrueOf(actual: Scalar, op: Operator, expected: Scalar) {
    match (actual, expected)
    case (Null, Null) => op == Eq || op == Le || op == Ge
    case (Boolean(a), Boolean(b)) =>
      (match op
       case Eq => a == b case Ne => a != b case Lt => !a && b case Le => a ==> b case Gt => a && !b case Ge => b ==> a)
    case (Number(a), Number(b)) =>
      (match op
       case Eq => a == b case Ne => a != b case Lt => a < b case Le => a <= b case Gt => a > b case Ge => a >= b)
    case (String(a), String(b)) =>
      (match op
       case Eq => a == b case Ne => a != b case Lt => Earlier(a, b) case Le => Earlier(a, b) || a == b
       case Gt => Earlier(b, a) case Ge => Earlier(b, a) || a == b)
    case _ => false
  }

  predicate SameKind(actual: Captured, expected: Scalar) {
    actual.Definite?
    && (actual.scalar.Null? <==> expected.Null?) && (actual.scalar.Boolean? <==> expected.Boolean?)
    && (actual.scalar.Number? <==> expected.Number?) && (actual.scalar.String? <==> expected.String?)
  }

  /** Values of one kind are compared as the operator says; any others cannot be compared. */
  lemma CompareTable(actual: Captured, comparison: Comparison)
    ensures Compare(actual, comparison)
         == if SameKind(actual, comparison.expected) then Ok(TrueOf(actual.scalar, comparison.op, comparison.expected)) else Err(Type)
  {
    hide Scan.Less, Earlier;
    if SameKind(actual, comparison.expected) && actual.scalar.String? {
      var a, b := actual.scalar.s, comparison.expected.s;
      LessIsEarlier(a, b);
      LessIsEarlier(b, a);
      Scan.LessTotal(a, b);
    }
  }

  /** The context's value for a field is the first one of that name. */
  ghost predicate Holding(values: seq<(bytes, Captured)>, field: bytes, value: Captured) {
    exists i :: 0 <= i < |values| && values[i] == (field, value) && forall j :: 0 <= j < i ==> values[j].0 != field
  }

  lemma {:induction false} FindHolds(values: seq<(bytes, Captured)>, field: bytes)
    ensures Find(values, field).Some? ==> Holding(values, field, Find(values, field).value)
    ensures Find(values, field).None? ==> forall i :: 0 <= i < |values| ==> values[i].0 != field
    ensures forall value :: Holding(values, field, value) ==> Find(values, field) == Some(value)
    decreases |values|
  {
    if values != [] {
      FindHolds(values[1..], field);
      if values[0].0 == field {
        assert values[0] == (field, values[0].1);
        assert Holding(values, field, values[0].1);
      } else {
        forall value ensures Holding(values, field, value) <==> Holding(values[1..], field, value) {
          HoldingTail(values, field, value);
        }
      }
    }
  }

  lemma HoldingTail(values: seq<(bytes, Captured)>, field: bytes, value: Captured)
    requires values != [] && values[0].0 != field
    ensures Holding(values, field, value) <==> Holding(values[1..], field, value)
  {
    var rest := values[1..];
    if i :| 0 <= i < |values| && values[i] == (field, value) && forall j :: 0 <= j < i ==> values[j].0 != field {
      assert rest[i - 1] == (field, value) && forall j :: 0 <= j < i - 1 ==> rest[j].0 == values[j + 1].0;
    }
    if i :| 0 <= i < |rest| && rest[i] == (field, value) && forall j :: 0 <= j < i ==> rest[j].0 != field {
      assert values[i + 1] == (field, value) && forall j :: 0 < j < i + 1 ==> values[j].0 == rest[j - 1].0;
    }
  }

  /** The field is settled in the context and compares as the comparison asks. */
  ghost predicate Meets(context: Context, comparison: Comparison) {
    exists scalar ::
      Holding(context.values, comparison.field, Definite(scalar)) && TrueOf(scalar, comparison.op, comparison.expected)
  }

  /** Its time has come, and if it waits for an event the context is that event and meets every comparison. */
  ghost predicate Ripe(condition: Condition, context: Option<Context>, now: int) {
    && (condition.notBefore.Some? ==> condition.notBefore.value <= now)
    && (condition.event.Some? ==>
          && context.Some? && context.value.event == condition.event.value
          && forall i :: 0 <= i < |condition.comparisons| ==> Meets(context.value, condition.comparisons[i]))
  }

  lemma JudgeMeets(context: Context, comparison: Comparison)
    ensures Judge(context, comparison) == Met <==> Meets(context, comparison)
  {
    hide Compare, Holding, TrueOf, Find;
    FindHolds(context.values, comparison.field);
    var found := Find(context.values, comparison.field);
    if found.Some? {
      CompareTable(found.value, comparison);
      if found.value.Definite? && !SameKind(found.value, comparison.expected) {
        OtherKinds(found.value.scalar, comparison.op, comparison.expected);
      }
    }
  }

  lemma OtherKinds(actual: Scalar, op: Operator, expected: Scalar)
    requires !SameKind(Definite(actual), expected)
    ensures !TrueOf(actual, op, expected)
  {}

  /** A message is due just when it is ripe. */
  lemma DueIsRipe(condition: Condition, context: Option<Context>, now: int)
    ensures Due(condition, context, now) <==> Ripe(condition, context, now)
  {
    hide Judge, Meets;
    if condition.event.Some? && EventMatches(condition, context) {
      forall i | 0 <= i < |condition.comparisons|
        ensures Judge(context.value, condition.comparisons[i]) == Met <==> Meets(context.value, condition.comparisons[i])
      {
        JudgeMeets(context.value, condition.comparisons[i]);
      }
    }
  }

  /** The event has come with a settled value for some field that is not of the kind it is compared with. */
  ghost predicate Clashes(condition: Condition, context: Option<Context>) {
    && condition.event.Some? && context.Some? && context.value.event == condition.event.value
    && exists i :: 0 <= i < |condition.comparisons| && Clashing(context.value, condition.comparisons[i])
  }

  ghost predicate Clashing(context: Context, comparison: Comparison) {
    exists value ::
      Holding(context.values, comparison.field, value) && value != Unresolved && !SameKind(value, comparison.expected)
  }

  lemma JudgeClashes(context: Context, comparison: Comparison)
    ensures Judge(context, comparison) == Uncomparable <==> Clashing(context, comparison)
  {
    hide Compare, Holding, TrueOf, Find;
    FindHolds(context.values, comparison.field);
    var found := Find(context.values, comparison.field);
    if found.Some? {
      CompareTable(found.value, comparison);
    }
  }

  lemma IllTypedClashes(condition: Condition, context: Option<Context>)
    ensures IllTyped(condition, context) <==> Clashes(condition, context)
  {
    hide Judge, Clashing;
    if EventMatches(condition, context) {
      forall i | 0 <= i < |condition.comparisons|
        ensures Judge(context.value, condition.comparisons[i]) == Uncomparable <==> Clashing(context.value, condition.comparisons[i])
      {
        JudgeClashes(context.value, condition.comparisons[i]);
      }
    }
  }

  // ----- the loops

  method FindField(values: seq<(bytes, Captured)>, field: bytes) returns (r: Option<Captured>)
    ensures r == Find(values, field)
  {
    assert values[0..] == values;
    for i := 0 to |values|
      invariant Find(values, field) == Find(values[i..], field)
    {
      assert values[i..][1..] == values[i + 1..];
      if values[i].0 == field {
        return Some(values[i].1);
      }
    }
    return None;
  }

  /**
   `evaluate`: an error if and only if a comparison is ill-typed, even before its time; otherwise
   ready if and only if the message is due, and pending for `Time` whenever its time has not come.
   */
  method Evaluate(condition: Condition, context: Option<Context>, now: int) returns (r: Result<Match>)
    ensures r.Err? <==> IllTyped(condition, context)
    ensures r.Err? ==> r.error == Type
    ensures r.Ok? ==> (r.value.Ready? <==> Due(condition, context, now))
    ensures r.Ok? && condition.notBefore.Some? && now < condition.notBefore.value ==> r.value == Pending(Time)
    ensures r.Ok? && r.value.Pending? && r.value.reason.Event? ==>
              condition.event.Some? && !EventMatches(condition, context)
    ensures r.Ok? && r.value.Pending? && !r.value.reason.Time? && !r.value.reason.Event? ==>
              EventMatches(condition, context)
              && exists i :: 0 <= i < |condition.comparisons|
                             && Judge(context.value, condition.comparisons[i]) == Unmet(r.value.reason)
                             && forall j :: 0 <= j < i ==> Judge(context.value, condition.comparisons[j]) == Met
  {
    var result := Ready;
    if condition.event.Some? {
      result := Pending(Event);
      if context.Some? && context.value.event == condition.event.value {
        result := Ready;
        var first: Option<Reason> := None;
        for k := 0 to |condition.comparisons|
          invariant forall j :: 0 <= j < k ==> Judge(context.value, condition.comparisons[j]) != Uncomparable
          invariant first.None? <==> forall j :: 0 <= j < k ==> Judge(context.value, condition.comparisons[j]) == Met
          invariant first.Some? ==>
                      first.value != Time && first.value != Event
                      && exists i :: 0 <= i < k
                                     && Judge(context.value, condition.comparisons[i]) == Unmet(first.value)
                                     && forall j :: 0 <= j < i ==> Judge(context.value, condition.comparisons[j]) == Met
        {
          var comparison := condition.comparisons[k];
          var reason, ok := JudgeField(context.value, comparison);
          if !ok {
            assert Judge(context.value, condition.comparisons[k]) == Uncomparable;
            return Err(Type);
          }
          if first.None? {
            first := reason;
          }
        }
        if first.Some? {
          result := Pending(first.value);
        }
      }
    }
    if condition.notBefore.Some? && now < condition.notBefore.value {
      return Ok(Pending(Time));
    }
    return Ok(result);
  }

  method JudgeField(context: Context, comparison: Comparison) returns (reason: Option<Reason>, ok: bool)
    ensures !ok <==> Judge(context, comparison) == Uncomparable
    ensures ok && reason.None? <==> Judge(context, comparison) == Met
    ensures ok && reason.Some? ==> Judge(context, comparison) == Unmet(reason.value)
                                   && reason.value != Time && reason.value != Event
  {
    var actual := FindField(context.values, comparison.field);
    if actual.None? {
      return Some(Missing(comparison.field)), true;
    }
    if actual.value.Unresolved? {
      return Some(Unsettled(comparison.field)), true;
    }
    var result := Compare(actual.value, comparison);
    if result.Err? {
      return None, false;
    }
    return if result.value then None else Some(Fails(comparison.field)), true;
  }
}
