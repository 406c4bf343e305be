/** The percentage form of a program page: three percentages that start at
    the program's minimum criteria, are checked against [0, 100] and against
    those minimums, and are handed on only when no field has an error.
    Values are JavaScript numbers read with `Number`, so `None` stands for
    `NaN`, which fails every comparison. */
module PercentageForm {
  import opened Seqs
  import opened Data
  import opened JsNumber

  datatype Field = Matriculation | Intermediate | EntryTest

  /** "Must be between 0 and 100" and "Minimum required is <min>%". */
  datatype FormError = OutOfRange | BelowMinimum(min: real)

  /** The three values passed to `onCalculate`, in order; `None` is `NaN`. */
  datatype Percentages = Percentages(matriculation: Option<real>, intermediate: Option<real>, entryTest: Option<real>)

  function Minimum(c: MinimumCriteria, f: Field): real {
    match f
    case Matriculation => c.matriculation
    case Intermediate => c.intermediate
    case EntryTest => c.entryTest
  }

  function ValueOf(p: Percentages, f: Field): Option<real> {
    match f
    case Matriculation => p.matriculation
    case Intermediate => p.intermediate
    case EntryTest => p.entryTest
  }

  /** The error a field ends up with: a value below the minimum always reports
      the minimum, even when it is also out of range; `NaN` reports nothing. */
  function FieldError(v: Option<real>, min: real): (e: Option<FormError>)
    ensures e.None? <==> Acceptable(v, min)
    ensures e == Some(BelowMinimum(min)) <==> Below(v, min)
    ensures e == Some(OutOfRange) <==> OutsideRange(v) && !Below(v, min)
  {
    if v.Some? && v.value < min then Some(BelowMinimum(min))
    else if v.Some? && (v.value < 0.0 || v.value > 100.0) then Some(OutOfRange)
    else None
  }

  /** The error map `validateInputs` is meant to build, field by field. */
  function ExpectedErrors(p: Percentages, c: MinimumCriteria): (m: map<Field, FormError>)
    ensures forall f :: f in m <==> FieldError(ValueOf(p, f), Minimum(c, f)).Some?
  {
    map f | f in {Matriculation, Intermediate, EntryTest} && FieldError(ValueOf(p, f), Minimum(c, f)).Some?
      :: FieldError(ValueOf(p, f), Minimum(c, f)).value
  }

  /** A number that passes both checks lies in `[max(0, min), 100]`. */
  predicate Acceptable(v: Option<real>, min: real) {
    v.Some? ==> 0.0 <= v.value <= 100.0 && min <= v.value
  }

  /** Validation passes exactly when every value is `NaN` or lies in `[max(0, min), 100]`. */
  lemma PassesIff(p: Percentages, c: MinimumCriteria)
    ensures ExpectedErrors(p, c) == map[] <==> forall f :: Acceptable(ValueOf(p, f), Minimum(c, f))
  {
    if ExpectedErrors(p, c) != map[] {
      var f :| f in ExpectedErrors(p, c);
      assert !Acceptable(ValueOf(p, f), Minimum(c, f));
    }
  }

  /** A value below its minimum reports the minimum, whatever else is wrong with it. */
  lemma BelowMinimumWins(p: Percentages, c: MinimumCriteria, f: Field)
    requires ValueOf(p, f).Some? && ValueOf(p, f).value < Minimum(c, f)
    ensures f in ExpectedErrors(p, c) && ExpectedErrors(p, c)[f] == BelowMinimum(Minimum(c, f))
  {
  }

  /** `NaN` fails every comparison, so it never carries an error. */
  lemma NotANumberPasses(p: Percentages, c: MinimumCriteria, f: Field)
    requires ValueOf(p, f).None?
    ensures f !in ExpectedErrors(p, c)
  {
  }

  /** The initial values are accepted unless a minimum lies outside [0, 100]. */
  lemma InitialValuesAccepted(c: MinimumCriteria)
    requires 0.0 <= c.matriculation <= 100.0 && 0.0 <= c.intermediate <= 100.0 && 0.0 <= c.entryTest <= 100.0
    ensures ExpectedErrors(Percentages(Some(c.matriculation), Some(c.intermediate), Some(c.entryTest)), c) == map[]
  {
    PassesIff(Percentages(Some(c.matriculation), Some(c.intermediate), Some(c.entryTest)), c);
  }

  /** One range check: an out-of-range value sets the field's message. */
  ghost function RangeStep(m: map<Field, FormError>, f: Field, v: Option<real>): map<Field, FormError> {
    if OutsideRange(v) then m[f := OutOfRange] else m
  }

  /** One minimum check: a value below the minimum overwrites the field's message. */
  ghost function MinimumStep(m: map<Field, FormError>, f: Field, v: Option<real>, min: real): map<Field, FormError> {
    if Below(v, min) then m[f := BelowMinimum(min)] else m
  }

  /** The first three checks of `validateInputs`, on an empty map. */
  ghost function RangeChecks(p: Percentages): map<Field, FormError> {
    RangeStep(RangeStep(RangeStep(map[], Matriculation, p.matriculation), Intermediate, p.intermediate), EntryTest, p.entryTest)
  }

  /** The last three checks, each overwriting what the range checks left. */
  ghost function MinimumChecks(m3: map<Field, FormError>, p: Percentages, c: MinimumCriteria): map<Field, FormError> {
    MinimumStep(MinimumStep(MinimumStep(m3, Matriculation, p.matriculation, c.matriculation),
                            Intermediate, p.intermediate, c.intermediate),
                EntryTest, p.entryTest, c.entryTest)
  }

  predicate OutsideRange(v: Option<real>) {
    v.Some? && (v.value < 0.0 || v.value > 100.0)
  }

  predicate Below(v: Option<real>, min: real) {
    v.Some? && v.value < min
  }

  /** The checks in written order give each field the error the rule assigns it. */
  lemma SequentialChecksMatchRule(p: Percentages, c: MinimumCriteria)
    ensures MinimumChecks(RangeChecks(p), p, c) == ExpectedErrors(p, c)
  {
    var a := MinimumChecks(RangeChecks(p), p, c);
    var b := ExpectedErrors(p, c);
    forall f
      ensures (f in a <==> f in b) && (f in a ==> a[f] == b[f])
    {
      SequentialChecksField(p, c, f);
    }
  }

  /** The sequential checks, one field at a time. */
  lemma SequentialChecksField(p: Percentages, c: MinimumCriteria, f: Field)
    ensures var a := MinimumChecks(RangeChecks(p), p, c);
      (f in a <==> FieldError(ValueOf(p, f), Minimum(c, f)).Some?)
      && (f in a ==> a[f] == FieldError(ValueOf(p, f), Minimum(c, f)).value)
  {
    var r := RangeChecks(p);
    assert f in r <==> OutsideRange(ValueOf(p, f));
    assert f in r ==> r[f] == OutOfRange;
  }

  /** The form component for one program. */
  class CalculatorForm {
    const criteria: MinimumCriteria
    var matriculation: Option<real>
    var intermediate: Option<real>
    var entryTest: Option<real>
    var errors: map<Field, FormError>

    function Values(): Percentages
      reads this
    {
      Percentages(matriculation, intermediate, entryTest)
    }

    /** The three inputs start at the program's minimum criteria, with no errors shown. */
    constructor (program: Program)
      ensures criteria == program.minimumCriteria
      ensures matriculation == Some(program.minimumCriteria.matriculation)
      ensures intermediate == Some(program.minimumCriteria.intermediate)
      ensures entryTest == Some(program.minimumCriteria.entryTest)
      ensures errors == map[]
    {
      criteria := program.minimumCriteria;
      matriculation := Some(program.minimumCriteria.matriculation);
      intermediate := Some(program.minimumCriteria.intermediate);
      entryTest := Some(program.minimumCriteria.entryTest);
      errors := map[];
    }

    /** An input's `onChange`: the field holds `Number(value)`; nothing else changes. */
    method SetValue(field: Field, value: string)
      modifies this`matriculation, this`intermediate, this`entryTest
      ensures ValueOf(Values(), field) == ParseNumber(value)
      ensures forall g :: g != field ==> ValueOf(Values(), g) == ValueOf(old(Values()), g)
    {
      match field
      case Matriculation => matriculation := ParseNumber(value);
      case Intermediate => intermediate := ParseNumber(value);
      case EntryTest => entryTest := ParseNumber(value);
    }

    /** `validateInputs`: a fresh map from six checks in order, a later message
        overwriting an earlier one for the same field. */
    method ValidateInputs() returns (ok: bool)
      modifies this`errors
      ensures errors == ExpectedErrors(Values(), criteria)
      ensures ok <==> errors == map[]
    {
      var newErrors: map<Field, FormError> := map[];
      ghost var m := newErrors;
      if OutsideRange(matriculation) {
        newErrors := newErrors[Matriculation := OutOfRange];
      }
      assert newErrors == RangeStep(m, Matriculation, matriculation);
      m := newErrors;
      if OutsideRange(intermediate) {
        newErrors := newErrors[Intermediate := OutOfRange];
      }
      assert newErrors == RangeStep(m, Intermediate, intermediate);
      m := newErrors;
      if OutsideRange(entryTest) {
        newErrors := newErrors[EntryTest := OutOfRange];
      }
      assert newErrors == RangeStep(m, EntryTest, entryTest);
      assert newErrors == RangeChecks(Values());
      m := newErrors;
      if Below(matriculation, criteria.matriculation) {
        newErrors := newErrors[Matriculation := BelowMinimum(criteria.matriculation)];
      }
      assert newErrors == MinimumStep(m, Matriculation, matriculation, criteria.matriculation);
      m := newErrors;
      if Below(intermediate, criteria.intermediate) {
        newErrors := newErrors[Intermediate := BelowMinimum(criteria.intermediate)];
      }
      assert newErrors == MinimumStep(m, Intermediate, intermediate, criteria.intermediate);
      m := newErrors;
      if Below(entryTest, criteria.entryTest) {
        newErrors := newErrors[EntryTest := BelowMinimum(criteria.entryTest)];
      }
      assert newErrors == MinimumStep(m, EntryTest, entryTest, criteria.entryTest);
      assert newErrors == MinimumChecks(RangeChecks(Values()), Values(), criteria);
      SequentialChecksMatchRule(Values(), criteria);
      errors := newErrors;
      ok := |newErrors| == 0;
    }

    /** `handleCalculate`: the current values are submitted exactly when validation passes. */
    method HandleCalculate() returns (submitted: Option<Percentages>)
      modifies this`errors
      ensures errors == ExpectedErrors(Values(), criteria)
      ensures submitted.Some? <==> errors == map[]
      ensures submitted.Some? ==> submitted.value == Values()
      ensures submitted.Some? ==> forall f :: Acceptable(ValueOf(Values(), f), Minimum(criteria, f))
    {
      var ok := ValidateInputs();
      if ok {
        PassesIff(Values(), criteria);
        submitted := Some(Values());
      } else {
        submitted := None;
      }
    }
  }
}
