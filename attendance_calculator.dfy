/** The attendance calculator: the form schema that guards it, and the
    projection `onSubmit` computes from classes attended, classes held and a
    target percentage. Numbers are exact reals and integers, so the
    floating-point guards of the TypeScript handler become branches that are proved
    never to be taken. */
module AttendanceCalculator {
  import opened Wrappers
  import Percent

  // ---------------------------------------------------------------------------
  // The form schema
  // ---------------------------------------------------------------------------

  /** The three form fields after `z.coerce.number`: a number, or `None`
      for input that coerces to NaN (a field never touched, whose value is
      still `undefined`, or non-numeric text). A cleared field submits the
      empty string, which coerces to 0 and arrives as `Some(0.0)`. */
  datatype FormValues = FormValues(attended: Option<real>, total: Option<real>, target: Option<real>)

  datatype Field = AttendedField | TotalField | TargetField

  /** One schema issue: the field it is reported on and its message. */
  datatype Issue = Issue(path: Field, message: string)

  /** The schema's `invalid_type_error`. zod reports a failed `.int()` check
      as an invalid-type issue too, so a fractional count carries this
      message as well. */
  const NotANumber: string := "Please enter a number."
  const AttendedNegative: string := "Attended classes must be a positive number."
  const TotalNegative: string := "Total classes must be a positive number."
  const TargetTooLow: string := "Target must be at least 1%"
  const TargetTooHigh: string := "Target cannot exceed 100%"
  const TotalBelowAttended: string := "Total classes must be greater than or equal to attended classes."

  predicate IsInteger(x: real) {
    x.Floor as real == x
  }

  /** The values `onSubmit` receives once the schema accepted them. */
  datatype Input = Input(attended: nat, total: nat, target: real)

  predicate ValidInput(inp: Input) {
    inp.attended <= inp.total && 1.0 <= inp.target <= 100.0
  }

  /** A count field: a number, then `.int()`, then `.min(0, message)`. A
      value that is not a number stops that field's checks. */
  function CountIssues(field: Field, x: Option<real>, negative: string): (issues: seq<Issue>)
    ensures issues == [] <==> x.Some? && IsInteger(x.value) && x.value >= 0.0
    ensures |issues| <= 2 && forall k :: 0 <= k < |issues| ==> issues[k].path == field
    ensures x.None? ==> issues == [Issue(field, NotANumber)]
    ensures x.Some? && !IsInteger(x.value) ==> issues[0] == Issue(field, NotANumber)
    ensures x.Some? && x.value < 0.0 ==> issues[|issues| - 1] == Issue(field, negative)
  {
    match x
    case None => [Issue(field, NotANumber)]
    case Some(n) =>
      (if IsInteger(n) then [] else [Issue(field, NotANumber)]) +
      (if n >= 0.0 then [] else [Issue(field, negative)])
  }

  /** The target field: a number, then `.min(1, ...)` and `.max(100, ...)`. */
  function TargetIssues(x: Option<real>): (issues: seq<Issue>)
    ensures issues == [] <==> x.Some? && 1.0 <= x.value <= 100.0
    ensures |issues| <= 1 && forall k :: 0 <= k < |issues| ==> issues[k].path == TargetField
    ensures x.None? ==> issues == [Issue(TargetField, NotANumber)]
    ensures x.Some? && x.value < 1.0 ==> issues == [Issue(TargetField, TargetTooLow)]
    ensures x.Some? && x.value > 100.0 ==> issues == [Issue(TargetField, TargetTooHigh)]
  {
    match x
    case None => [Issue(TargetField, NotANumber)]
    case Some(n) =>
      (if n >= 1.0 then [] else [Issue(TargetField, TargetTooLow)]) +
      (if n <= 100.0 then [] else [Issue(TargetField, TargetTooHigh)])
  }

  /** The issues the schema reports, in the order zod checks them: each
      field's checks in turn, then the cross-field refinement. The
      refinement runs whenever all three fields are numbers, even if one of
      them failed a bound or integer check. */
  function SchemaIssues(v: FormValues): (issues: seq<Issue>)
    ensures issues == [] <==>
      v.attended.Some? && v.total.Some? && v.target.Some? &&
      IsInteger(v.attended.value) && v.attended.value >= 0.0 &&
      IsInteger(v.total.value) && v.total.value >= 0.0 &&
      1.0 <= v.target.value <= 100.0 && v.total.value >= v.attended.value
    ensures Issue(TotalField, TotalBelowAttended) in issues <==>
      v.attended.Some? && v.total.Some? && v.target.Some? && v.total.value < v.attended.value
  {
    CountIssues(AttendedField, v.attended, AttendedNegative) +
    CountIssues(TotalField, v.total, TotalNegative) +
    TargetIssues(v.target) +
    (if v.attended.Some? && v.total.Some? && v.target.Some? && v.total.value < v.attended.value
     then [Issue(TotalField, TotalBelowAttended)]
     else [])
  }

  /** `calculatorSchema` as the resolver applies it: either the typed values
      `onSubmit` is called with, or the issues zod reports, of which the form
      shows the first one for each field. */
  function Validate(v: FormValues): (r: Result<Input, seq<Issue>>)
    ensures r.Success? <==> SchemaIssues(v) == []
    ensures r.Success? ==> ValidInput(r.value)
    ensures r.Success? ==>
      Some(r.value.attended as real) == v.attended && Some(r.value.total as real) == v.total &&
      Some(r.value.target) == v.target
    ensures r.Failure? ==> r.error == SchemaIssues(v) && r.error != []
  {
    var issues := SchemaIssues(v);
    if issues == [] then
      Success(Input(v.attended.value.Floor, v.total.value.Floor, v.target.value))
    else
      Failure(issues)
  }

  /** More attended than held is reported once, on the total field, with
      the numbers themselves accepted. */
  lemma SchemaRejectsTotalBelowAttended()
    ensures Validate(FormValues(Some(5.0), Some(3.0), Some(85.0))) ==
      Failure([Issue(TotalField, TotalBelowAttended)])
    ensures Validate(FormValues(Some(3.0), Some(5.0), Some(85.0))) == Success(Input(3, 5, 85.0))
  {
    assert IsInteger(5.0) && IsInteger(3.0);
    assert SchemaIssues(FormValues(Some(5.0), Some(3.0), Some(85.0))) ==
      [Issue(TotalField, TotalBelowAttended)];
  }

  /** A fractional count fails `.int()` and is reported with the schema's
      "Please enter a number." message; a negative fractional count gets
      both its issues, the integer one first. */
  lemma FractionalCountMessage()
    ensures Validate(FormValues(Some(2.5), Some(5.0), Some(85.0))) ==
      Failure([Issue(AttendedField, NotANumber)])
    ensures CountIssues(AttendedField, Some(-1.5), AttendedNegative) ==
      [Issue(AttendedField, NotANumber), Issue(AttendedField, AttendedNegative)]
  {
    assert !IsInteger(2.5) && IsInteger(5.0) && !IsInteger(-1.5);
    assert SchemaIssues(FormValues(Some(2.5), Some(5.0), Some(85.0))) ==
      [Issue(AttendedField, NotANumber)];
  }

  // ---------------------------------------------------------------------------
  // The projection
  // ---------------------------------------------------------------------------

  /** `neededToAttend`: a number of classes, or the sentinel 'unreachable'. */
  datatype Needed = Classes(n: nat) | Unreachable

  datatype CalculationResult = CalculationResult(
    currentPercentage: real,
    neededToAttend: Needed,
    canMiss: nat,
    targetMet: bool)

  /** `total > 0 ? (attended / total) * 100 : 0`. */
  function CurrentPercentage(attended: nat, total: nat): (r: real)
    ensures total == 0 ==> r == 0.0
    ensures total > 0 ==> r * total as real == 100.0 * attended as real
    ensures attended <= total ==> 0.0 <= r <= 100.0
  {
    if total > 0 then (attended as real / total as real) * 100.0 else 0.0
  }

  /** The target still holds after `m` further classes are missed. */
  predicate HoldsAfterMissing(attended: nat, total: nat, target: real, m: nat) {
    100.0 * attended as real >= target * (total + m) as real
  }

  /** The target is reached after `n` further classes are all attended. */
  predicate ReachedAfterAttending(attended: nat, total: nat, target: real, n: nat) {
    100.0 * (attended + n) as real >= target * (total + n) as real
  }

  /** `onSubmit`: every branch of the handler, with the `Infinity` case of
      `canMiss` proved impossible since the schema keeps the target at 1 or
      more. The `canMiss < 0` and `needed < 0` clamps are kept as written;
      the lemmas below show that exact arithmetic never takes them. */
  function Project(inp: Input): (r: CalculationResult)
    requires ValidInput(inp)
    ensures r.targetMet ==> r.neededToAttend == Classes(0)
    ensures !r.targetMet ==> r.canMiss == 0
    ensures r.neededToAttend == Unreachable ==> !r.targetMet && inp.target == 100.0
  {
    var attended, total, target := inp.attended, inp.total, inp.target;
    var currentPercentage := CurrentPercentage(attended, total);
    if currentPercentage >= target then
      var canMiss := if target > 0.0 then MissFormula(attended, total, target) else (assert false; 0);
      CalculationResult(currentPercentage, Classes(0), if canMiss < 0 then 0 else canMiss, true)
    else if target == 100.0 || 100.0 - target <= 0.0 then
      CalculationResult(currentPercentage, Unreachable, 0, false)
    else
      var needed := NeededFormula(attended, total, target);
      if needed < 0.0 then
        CalculationResult(currentPercentage, Classes(0), 0, true)
      else
        CalculationResult(currentPercentage, Classes(Percent.Ceil(needed)), 0, false)
  }

  /** `Math.floor((attended * 100 / target) - total)`. */
  function MissFormula(attended: nat, total: nat, target: real): (r: int)
    requires target > 0.0
    ensures forall m: nat :: HoldsAfterMissing(attended, total, target, m) <==> m <= r
  {
    MissThreshold(attended, total, target);
    ((attended as real * 100.0 / target) - total as real).Floor
  }

  lemma MissThreshold(attended: nat, total: nat, target: real)
    requires target > 0.0
    ensures forall m: nat :: HoldsAfterMissing(attended, total, target, m) <==>
      m as real <= attended as real * 100.0 / target - total as real
  {
    forall m: nat {
      HoldsAfterMissingBound(attended, total, target, m);
    }
  }

  /** `(target * total - 100 * attended) / (100 - target)`. */
  function NeededFormula(attended: nat, total: nat, target: real): (r: real)
    requires target < 100.0
    ensures 100.0 * (attended as real + r) == target * (total as real + r)
  {
    (target * total as real - 100.0 * attended as real) / (100.0 - target)
  }

  // ---------------------------------------------------------------------------
  // Arithmetic behind the projection
  // ---------------------------------------------------------------------------

  /** Comparing the current percentage with the target is the cross-multiplied
      comparison `100 * attended >= target * total`, for a held class count. */
  lemma TargetMetExactly(attended: nat, total: nat, target: real)
    requires target >= 1.0
    ensures CurrentPercentage(attended, total) >= target <==>
      total > 0 && HoldsAfterMissing(attended, total, target, 0)
  {
  }

  lemma ZeroOver(n: real, d: real)
    requires n == 0.0 && d > 0.0
    ensures n / d == 0.0
  {
    assert (n / d) * d == n;
  }

  lemma MultiplyPositiveReal(a: real, b: real, c: real)
    requires a <= b && c > 0.0
    ensures a * c <= b * c
  {
  }

  lemma MultiplyPositiveRealStrict(a: real, b: real, c: real)
    requires a < b && c > 0.0
    ensures a * c < b * c
  {
  }

  /** Missing `m` more classes keeps the target exactly when `m` is at most
      `attended * 100 / target - total`. */
  lemma HoldsAfterMissingBound(attended: nat, total: nat, target: real, m: nat)
    requires target > 0.0
    ensures HoldsAfterMissing(attended, total, target, m) <==>
      m as real <= attended as real * 100.0 / target - total as real
  {
  }

  /** Attending `n` more classes reaches a target below 100 exactly when `n`
      is at least `(target * total - 100 * attended) / (100 - target)`. */
  lemma ReachedAfterAttendingBound(attended: nat, total: nat, target: real, n: nat)
    requires target < 100.0
    ensures ReachedAfterAttending(attended, total, target, n) <==>
      n as real >= NeededFormula(attended, total, target)
  {
    var d := 100.0 - target;
    var q := NeededFormula(attended, total, target);
    assert q * d == target * total as real - 100.0 * attended as real;
    // 100 (a + n) >= target (t + n)  <==>  n (100 - target) >= target t - 100 a
    assert ReachedAfterAttending(attended, total, target, n) <==> n as real * d >= q * d;
    if n as real >= q {
      MultiplyPositiveReal(q, n as real, d);
    } else {
      MultiplyPositiveRealStrict(n as real, q, d);
    }
  }

  /** When the target is not met, the closed form for the classes needed is
      not negative, and positive once a class has been held. */
  lemma NeededNotNegative(attended: nat, total: nat, target: real)
    requires attended <= total && 1.0 <= target < 100.0
    requires !(CurrentPercentage(attended, total) >= target)
    ensures NeededFormula(attended, total, target) >= 0.0
    ensures total > 0 ==> NeededFormula(attended, total, target) > 0.0
  {
    TargetMetExactly(attended, total, target);
    ReachedAfterAttendingBound(attended, total, target, 0);
    if total == 0 {
      assert attended == 0;
      ZeroOver(target * total as real - 100.0 * attended as real, 100.0 - target);
    }
  }

  // ---------------------------------------------------------------------------
  // What the projection promises
  // ---------------------------------------------------------------------------

  /** The result reports the target as met exactly when the current
      percentage reaches it, which is the cross-multiplied comparison on a
      non-empty history; 'unreachable' comes only from a missed 100% target. */
  lemma TargetMetIsExact(inp: Input)
    requires ValidInput(inp)
    ensures Project(inp).currentPercentage == CurrentPercentage(inp.attended, inp.total)
    ensures Project(inp).targetMet <==> Project(inp).currentPercentage >= inp.target
    ensures Project(inp).targetMet <==>
      inp.total > 0 && HoldsAfterMissing(inp.attended, inp.total, inp.target, 0)
    ensures Project(inp).neededToAttend == Unreachable <==>
      !Project(inp).targetMet && inp.target == 100.0
  {
    TargetMetExactly(inp.attended, inp.total, inp.target);
    if inp.target < 100.0 && CurrentPercentage(inp.attended, inp.total) < inp.target {
      NeededNotNegative(inp.attended, inp.total, inp.target);
    }
  }

  /** The `Infinity` and negative-`canMiss` branches are never taken, nor is
      the `needed < 0` branch: each clause is stated on the handler's own
      branch condition, so exact arithmetic makes all three floating-point
      guards dead. */
  lemma FloatGuardsAreDead(inp: Input)
    requires ValidInput(inp)
    ensures inp.target > 0.0
    ensures CurrentPercentage(inp.attended, inp.total) >= inp.target ==>
      MissFormula(inp.attended, inp.total, inp.target) >= 0
    ensures CurrentPercentage(inp.attended, inp.total) < inp.target && inp.target < 100.0 ==>
      NeededFormula(inp.attended, inp.total, inp.target) >= 0.0
  {
    var a, t, target := inp.attended, inp.total, inp.target;
    TargetMetExactly(a, t, target);
    if CurrentPercentage(a, t) >= target {
      HoldsAfterMissingBound(a, t, target, 0);
    } else if target < 100.0 {
      NeededNotNegative(a, t, target);
    }
  }

  /** When the target is met, `canMiss` is the largest number of further
      misses that keep it: that many do, and one more does not. */
  lemma CanMissIsLargest(inp: Input)
    requires ValidInput(inp) && Project(inp).targetMet
    ensures HoldsAfterMissing(inp.attended, inp.total, inp.target, Project(inp).canMiss)
    ensures !HoldsAfterMissing(inp.attended, inp.total, inp.target, Project(inp).canMiss + 1)
    ensures forall m: nat :: HoldsAfterMissing(inp.attended, inp.total, inp.target, m) <==>
      m <= Project(inp).canMiss
  {
    var a, t, target := inp.attended, inp.total, inp.target;
    var k := Project(inp).canMiss;
    var q := a as real * 100.0 / target - t as real;
    FloatGuardsAreDead(inp);
    assert k == q.Floor;
    forall m: nat ensures HoldsAfterMissing(a, t, target, m) <==> m <= k {
      HoldsAfterMissingBound(a, t, target, m);
    }
  }

  /** When the target is not met and is below 100, `neededToAttend` is the
      least number of consecutive attended classes that reaches it. */
  lemma NeededIsLeast(inp: Input)
    requires ValidInput(inp) && inp.total > 0
    requires !Project(inp).targetMet && inp.target < 100.0
    ensures Project(inp).neededToAttend.Classes?
    ensures ReachedAfterAttending(inp.attended, inp.total, inp.target, Project(inp).neededToAttend.n)
    ensures forall n: nat :: ReachedAfterAttending(inp.attended, inp.total, inp.target, n) <==>
      n >= Project(inp).neededToAttend.n
  {
    var a, t, target := inp.attended, inp.total, inp.target;
    NeededNotNegative(a, t, target);
    var k := Project(inp).neededToAttend.n;
    assert k == Percent.Ceil(NeededFormula(a, t, target));
    forall n: nat ensures ReachedAfterAttending(a, t, target, n) <==> n >= k {
      ReachedAfterAttendingBound(a, t, target, n);
    }
  }

  /** Once a class has been held and the target is missed, at least one more
      class is needed. */
  lemma NeededIsPositive(inp: Input)
    requires ValidInput(inp) && inp.total > 0
    requires !Project(inp).targetMet && inp.target < 100.0
    ensures Project(inp).neededToAttend.Classes? && Project(inp).neededToAttend.n >= 1
  {
  }

  /** 'unreachable' is truthful once a class has been held: at a 100% target
      that was missed, no run of attended classes reaches it. */
  lemma UnreachableIsTruthful(inp: Input)
    requires ValidInput(inp) && inp.total > 0
    requires Project(inp).neededToAttend == Unreachable
    ensures forall n: nat :: !ReachedAfterAttending(inp.attended, inp.total, inp.target, n)
  {
    TargetMetIsExact(inp);
    TargetMetExactly(inp.attended, inp.total, inp.target);
    assert inp.attended < inp.total;
  }

  /** With no classes held the percentage is 0 and the target is not met.
      Below 100 the closed form then reports 0 classes needed; at 100 it
      reports 'unreachable', although one attended class would give 100%. */
  lemma NoClassesHeld(target: real)
    requires 1.0 <= target <= 100.0
    ensures target < 100.0 ==> Project(Input(0, 0, target)) == CalculationResult(0.0, Classes(0), 0, false)
    ensures target == 100.0 ==> Project(Input(0, 0, target)) == CalculationResult(0.0, Unreachable, 0, false)
    ensures ReachedAfterAttending(0, 0, target, 1)
  {
  }

  /** Worked examples: met at 90% with no misses to spare, far below 90%,
      full attendance at 100%, one miss at 100%, and spare misses at 80%. */
  lemma Scenarios()
    ensures Project(Input(18, 20, 90.0)) == CalculationResult(90.0, Classes(0), 0, true)
    ensures Project(Input(10, 20, 90.0)) == CalculationResult(50.0, Classes(80), 0, false)
    ensures Project(Input(5, 5, 100.0)) == CalculationResult(100.0, Classes(0), 0, true)
    ensures Project(Input(5, 6, 100.0)).neededToAttend == Unreachable
    ensures Project(Input(20, 20, 80.0)).canMiss == 5
  {
  }
}
