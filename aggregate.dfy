/** The aggregate calculator page: percentages from obtained/total marks, the
    program's weighted formula with the NUST A-Level override and the A-Level
    bonus, the cap at 100, the admission-chance prediction, and the page state
    that the handlers change. */
module Aggregate {
  import opened Seqs
  import opened Data

  datatype EducationType = FSc | ALevel

  datatype MarkPair = MarkPair(obtained: real, total: real)

  /** `entryTestType` is `None` where the page stores `undefined`. */
  datatype FormData = FormData(
    matricMarks: MarkPair,
    fscMarks: MarkPair,
    entryTestType: Option<string>,
    entryTestMarks: MarkPair,
    educationType: EducationType)

  datatype Section = FormSection | ResultsSection

  datatype MarkField = MatricMarks | FscMarks | EntryTestMarks

  datatype MarkPart = Obtained | Total

  /** A band of the program's table, or the `Unknown` record with its comment. */
  datatype Prediction = Banded(chance: AdmissionChance) | Unknown(comment: string)

  const NoDataComment := "No prediction data available for this program."
  const OutOfRangeComment := "Your score is outside the prediction range."

  /** The university whose A-Level applicants get a fixed matriculation weight instead of the bonus. */
  const NustId := "nust"
  const NustALevelMatricWeight := 0.25
  const ALevelBonus := 1.1

  /** `obtained / total * 100`; the page divides without a guard, so a zero total is excluded. */
  function Percentage(m: MarkPair): (p: real)
    requires m.total > 0.0
    ensures p * m.total == m.obtained * 100.0
  {
    m.obtained / m.total * 100.0
  }

  /** Marks within their total give a percentage in [0, 100]. */
  lemma PercentageBounds(m: MarkPair)
    requires m.total > 0.0 && 0.0 <= m.obtained <= m.total
    ensures 0.0 <= Percentage(m) <= 100.0
  {
    var p := Percentage(m);
    if p > 100.0 {
      assert p * m.total > 100.0 * m.total;
    }
  }

  /** The formula's weighted sum; weights summing to 1 make it a weighted mean. */
  function WeightedSum(f: Formula, matric: real, inter: real, test: real): (r: real)
    ensures f.matriculation + f.intermediate + f.entryTest == 1.0 && matric == inter == test ==> r == matric
  {
    matric * f.matriculation + inter * f.intermediate + test * f.entryTest
  }

  /** The aggregate before the cap: the plain weighted sum for FSc; for A-Level,
      1.1 times it outside NUST and a matriculation weight of 0.25 at NUST. */
  function Uncapped(f: Formula, universityId: Option<string>, edu: EducationType,
                    matric: real, inter: real, test: real): (r: real)
    ensures edu == FSc ==> r == WeightedSum(f, matric, inter, test)
    ensures edu == ALevel && universityId != Some(NustId) ==> r == 1.1 * WeightedSum(f, matric, inter, test)
    ensures edu == ALevel && universityId == Some(NustId) ==>
      r == 0.25 * matric + f.intermediate * inter + f.entryTest * test
  {
    if universityId == Some(NustId) && edu == ALevel then
      WeightedSum(f.(matriculation := NustALevelMatricWeight), matric, inter, test)
    else
      var sum := WeightedSum(f, matric, inter, test);
      if edu == ALevel && universityId != Some(NustId) then sum * ALevelBonus else sum
  }

  /** `Math.min(100, uncapped)`: capped above, never clamped below. */
  function FinalAggregate(f: Formula, universityId: Option<string>, edu: EducationType,
                          matric: real, inter: real, test: real): (r: real)
    ensures r <= 100.0
    ensures var u := Uncapped(f, universityId, edu, matric, inter, test);
      (u <= 100.0 ==> r == u) && (u > 100.0 ==> r == 100.0)
  {
    var u := Uncapped(f, universityId, edu, matric, inter, test);
    if 100.0 <= u then 100.0 else u
  }

  /** An FSc aggregate does not depend on the university. */
  lemma FScIgnoresUniversity(f: Formula, id1: Option<string>, id2: Option<string>, matric: real, inter: real, test: real)
    ensures FinalAggregate(f, id1, FSc, matric, inter, test) == FinalAggregate(f, id2, FSc, matric, inter, test)
  {
  }

  /** With non-negative weights, a better percentage never lowers the aggregate. */
  lemma {:induction false} AggregateMonotone(f: Formula, universityId: Option<string>, edu: EducationType,
                                             m1: real, i1: real, t1: real, m2: real, i2: real, t2: real)
    requires f.matriculation >= 0.0 && f.intermediate >= 0.0 && f.entryTest >= 0.0
    requires m1 <= m2 && i1 <= i2 && t1 <= t2
    ensures FinalAggregate(f, universityId, edu, m1, i1, t1) <= FinalAggregate(f, universityId, edu, m2, i2, t2)
  {
    var g := if universityId == Some(NustId) && edu == ALevel then f.(matriculation := NustALevelMatricWeight) else f;
    var s1, s2 := WeightedSum(g, m1, i1, t1), WeightedSum(g, m2, i2, t2);
    WeightedSumMonotone(g, m1, i1, t1, m2, i2, t2);
    assert Uncapped(f, universityId, edu, m1, i1, t1) <= Uncapped(f, universityId, edu, m2, i2, t2) by {
      if !(universityId == Some(NustId) && edu == ALevel) && edu == ALevel {
        ScaleMonotone(s1, s2, ALevelBonus);
      }
    }
  }

  lemma WeightedSumMonotone(g: Formula, m1: real, i1: real, t1: real, m2: real, i2: real, t2: real)
    requires g.matriculation >= 0.0 && g.intermediate >= 0.0 && g.entryTest >= 0.0
    requires m1 <= m2 && i1 <= i2 && t1 <= t2
    ensures WeightedSum(g, m1, i1, t1) <= WeightedSum(g, m2, i2, t2)
  {
    var a, b, c := g.matriculation, g.intermediate, g.entryTest;
    ScaleMonotone(m1, m2, a);
    ScaleMonotone(i1, i2, b);
    ScaleMonotone(t1, t2, c);
    SumMonotone(m1 * a, m2 * a, i1 * b, i2 * b, t1 * c, t2 * c);
    assert WeightedSum(g, m1, i1, t1) == m1 * a + i1 * b + t1 * c;
    assert WeightedSum(g, m2, i2, t2) == m2 * a + i2 * b + t2 * c;
  }

  lemma SumMonotone(x1: real, x2: real, y1: real, y2: real, z1: real, z2: real)
    requires x1 <= x2 && y1 <= y2 && z1 <= z2
    ensures x1 + y1 + z1 <= x2 + y2 + z2
  {
  }

  lemma ScaleMonotone(x: real, y: real, w: real)
    requires x <= y && w >= 0.0
    ensures x * w <= y * w
  {
    assert (y - x) * w >= 0.0;
  }

  /** Weights that sum to 1 keep an FSc aggregate of percentages within [0, 100]. */
  lemma {:induction false} FractionWeightsStayInRange(f: Formula, universityId: Option<string>,
                                                      matric: real, inter: real, test: real)
    requires f.matriculation >= 0.0 && f.intermediate >= 0.0 && f.entryTest >= 0.0
    requires f.matriculation + f.intermediate + f.entryTest == 1.0
    requires 0.0 <= matric <= 100.0 && 0.0 <= inter <= 100.0 && 0.0 <= test <= 100.0
    ensures 0.0 <= Uncapped(f, universityId, FSc, matric, inter, test) <= 100.0
  {
    WeightedSumMonotone(f, 0.0, 0.0, 0.0, matric, inter, test);
    WeightedSumMonotone(f, matric, inter, test, 100.0, 100.0, 100.0);
    assert WeightedSum(f, 100.0, 100.0, 100.0) == 100.0 * (f.matriculation + f.intermediate + f.entryTest);
  }

  /** Percent weights (20/30/50, as some programs use) reach the cap with ordinary marks. */
  lemma PercentWeightsHitTheCap()
    ensures FinalAggregate(Formula(20.0, 30.0, 50.0), Some("pu"), FSc, 60.0, 60.0, 40.0) == 100.0
  {
  }

  predicate InBand(aggregate: real, c: AdmissionChance) {
    c.min <= aggregate <= c.max
  }

  /** `admissionChances.find(...)`: the first band, in list order, containing the aggregate. */
  function FirstBand(bands: seq<AdmissionChance>, aggregate: real): (r: Option<AdmissionChance>)
    ensures r.None? <==> forall i :: 0 <= i < |bands| ==> !InBand(aggregate, bands[i])
    ensures r.Some? ==> exists k :: 0 <= k < |bands| && bands[k] == r.value && InBand(aggregate, bands[k])
                                  && forall j :: 0 <= j < k ==> !InBand(aggregate, bands[j])
  {
    Find(bands, (c: AdmissionChance) => InBand(aggregate, c))
  }

  /** At most one distinct band of the list contains the aggregate. */
  ghost predicate Unambiguous(bands: seq<AdmissionChance>, aggregate: real) {
    forall i, j :: 0 <= i < |bands| && 0 <= j < |bands| && InBand(aggregate, bands[i]) && InBand(aggregate, bands[j])
      ==> bands[i] == bands[j]
  }

  /** When no two bands overlap at the aggregate, the order of the list does not matter. */
  lemma {:induction false} BandOrderIrrelevant(b1: seq<AdmissionChance>, b2: seq<AdmissionChance>, aggregate: real)
    requires multiset(b1) == multiset(b2)
    requires Unambiguous(b1, aggregate)
    ensures FirstBand(b1, aggregate) == FirstBand(b2, aggregate)
  {
    var r1, r2 := FirstBand(b1, aggregate), FirstBand(b2, aggregate);
    forall i | 0 <= i < |b2| ensures b2[i] in b1 {
      assert b2[i] in multiset(b2);
    }
    if r1.Some? {
      assert r1.value in multiset(b1);
      assert r1.value in b2;
      var k :| 0 <= k < |b2| && b2[k] == r1.value;
      assert r2.Some?;
      var k2 :| 0 <= k2 < |b2| && b2[k2] == r2.value && InBand(aggregate, b2[k2]);
      assert r2.value in b1;
    } else {
      assert r2.None?;
    }
  }

  /** `getPrediction`: no program or no band list gives "no data"; otherwise the first band, or "outside the range". */
  function GetPrediction(program: Option<Program>, aggregate: real): (p: Prediction)
    ensures program.None? || program.value.admissionChances.None? ==> p == Unknown(NoDataComment)
    ensures program.Some? && program.value.admissionChances.Some? ==>
      var bands := program.value.admissionChances.value;
      && (p.Banded? <==> exists i :: 0 <= i < |bands| && InBand(aggregate, bands[i]))
      && (p.Banded? ==> Some(p.chance) == FirstBand(bands, aggregate) && InBand(aggregate, p.chance))
      && (p.Unknown? ==> p.comment == OutOfRangeComment)
  {
    if program.None? || program.value.admissionChances.None? then Unknown(NoDataComment)
    else
      match FirstBand(program.value.admissionChances.value, aggregate)
      case Some(c) => Banded(c)
      case None => Unknown(OutOfRangeComment)
  }

  /** An 80 is "High" on the standard bands in their stored order and in any other order. */
  lemma StandardBandsAt80(shuffled: seq<AdmissionChance>)
    requires multiset(shuffled) == multiset(StandardBands())
    ensures FirstBand(StandardBands(), 80.0) == Some(StandardBands()[1])
    ensures FirstBand(shuffled, 80.0) == Some(StandardBands()[1])
  {
    var b := StandardBands();
    assert !InBand(80.0, b[0]) && InBand(80.0, b[1]);
    assert Unambiguous(b, 80.0);
    BandOrderIrrelevant(b, shuffled, 80.0);
  }

  /** 84.5 falls in the gap between the "High" and "Very High" bands. */
  lemma StandardBandsGap()
    ensures GetPrediction(Some(Program("bscs", "BS Computer Science", ["NAT"], Formula(0.1, 0.4, 0.5),
                                       MinimumCriteria(60.0, 60.0, 50.0), "", Some(StandardBands()))), 84.5)
         == Unknown(OutOfRangeComment)
  {
    var b := StandardBands();
    assert forall i :: 0 <= i < |b| ==> !InBand(84.5, b[i]);
  }

  function FindUniversity(universities: seq<University>, id: string): Option<University> {
    Find(universities, (u: University) => u.id == id)
  }

  function FindProgram(u: University, id: string): Option<Program> {
    Find(u.programs, (p: Program) => p.id == id)
  }

  /** `testOptions[0]`, which is `undefined` for an empty list. */
  function FirstTestOption(p: Program): Option<string> {
    if |p.testOptions| > 0 then Some(p.testOptions[0]) else None
  }

  function InitialFormData(): FormData {
    FormData(MarkPair(0.0, 1100.0), MarkPair(0.0, 1100.0), Some(""), MarkPair(0.0, 100.0), FSc)
  }

  function SetPart(m: MarkPair, part: MarkPart, value: real): MarkPair {
    match part
    case Obtained => m.(obtained := value)
    case Total => m.(total := value)
  }

  predicate TotalsPositive(d: FormData) {
    d.matricMarks.total > 0.0 && d.fscMarks.total > 0.0 && d.entryTestMarks.total > 0.0
  }

  /** The calculator page's state. */
  class CalculatorPage {
    var university: Option<University>
    var selectedProgram: Option<Program>
    var formData: FormData
    var aggregate: Option<real>
    var admissionPrediction: Option<Prediction>
    var activeSection: Section

    /** The results section always shows a capped aggregate and the prediction for it under the selected program. */
    ghost predicate Valid()
      reads this
    {
      && (selectedProgram.Some? ==> university.Some? && selectedProgram.value in university.value.programs)
      && (activeSection == ResultsSection ==>
            && aggregate.Some? && aggregate.value <= 100.0
            && admissionPrediction == Some(GetPrediction(selectedProgram, aggregate.value)))
    }

    /** Mounting the page for a route id: the first matching university and its first program. */
    constructor (universities: seq<University>, universityId: string)
      requires FindUniversity(universities, universityId).Some? ==>
                 |FindUniversity(universities, universityId).value.programs| > 0
      ensures Valid()
      ensures aggregate == None && admissionPrediction == None && activeSection == FormSection
      ensures university == FindUniversity(universities, universityId)
      ensures university.None? ==> selectedProgram == None && formData == InitialFormData()
      ensures university.Some? ==>
        && selectedProgram == Some(university.value.programs[0])
        && formData == InitialFormData().(entryTestType := FirstTestOption(university.value.programs[0]))
    {
      aggregate := None;
      admissionPrediction := None;
      activeSection := FormSection;
      var found := FindUniversity(universities, universityId);
      university := found;
      if found.Some? {
        selectedProgram := Some(found.value.programs[0]);
        formData := InitialFormData().(entryTestType := FirstTestOption(found.value.programs[0]));
      } else {
        selectedProgram := None;
        formData := InitialFormData();
      }
    }

    /** `handleProgramChange`: a known id selects the program, resets the test type and the aggregate, and returns to the form. */
    method HandleProgramChange(programId: string)
      requires Valid()
      modifies this
      ensures Valid()
      ensures university == old(university) && admissionPrediction == old(admissionPrediction)
      ensures old(university).Some? && FindProgram(old(university).value, programId).Some? ==>
        var p := FindProgram(old(university).value, programId).value;
        && selectedProgram == Some(p)
        && formData == old(formData).(entryTestType := FirstTestOption(p))
        && aggregate == None
        && activeSection == FormSection
      ensures old(university).None? || FindProgram(old(university).value, programId).None? ==>
        selectedProgram == old(selectedProgram) && formData == old(formData)
        && aggregate == old(aggregate) && activeSection == old(activeSection)
    {
      if university.Some? {
        var program := FindProgram(university.value, programId);
        if program.Some? {
          selectedProgram := program;
          formData := formData.(entryTestType := FirstTestOption(program.value));
          aggregate := None;
          activeSection := FormSection;
        }
      }
    }

    /** `handleInputChange` with a sub-field: one part of one mark pair. */
    method HandleMarkChange(field: MarkField, part: MarkPart, value: real)
      requires Valid()
      modifies this`formData
      ensures Valid()
      ensures formData.entryTestType == old(formData.entryTestType)
      ensures formData.educationType == old(formData.educationType)
      ensures formData.matricMarks == if field == MatricMarks then SetPart(old(formData.matricMarks), part, value) else old(formData.matricMarks)
      ensures formData.fscMarks == if field == FscMarks then SetPart(old(formData.fscMarks), part, value) else old(formData.fscMarks)
      ensures formData.entryTestMarks == if field == EntryTestMarks then SetPart(old(formData.entryTestMarks), part, value) else old(formData.entryTestMarks)
    {
      match field
      case MatricMarks => formData := formData.(matricMarks := SetPart(formData.matricMarks, part, value));
      case FscMarks => formData := formData.(fscMarks := SetPart(formData.fscMarks, part, value));
      case EntryTestMarks => formData := formData.(entryTestMarks := SetPart(formData.entryTestMarks, part, value));
    }

    /** `handleInputChange('educationType', null, value)`. */
    method HandleEducationTypeChange(value: EducationType)
      requires Valid()
      modifies this`formData
      ensures Valid()
      ensures formData == old(formData).(educationType := value)
    {
      formData := formData.(educationType := value);
    }

    /** `handleInputChange('entryTestType', null, value)`. */
    method HandleEntryTestTypeChange(value: string)
      requires Valid()
      modifies this`formData
      ensures Valid()
      ensures formData == old(formData).(entryTestType := Some(value))
    {
      formData := formData.(entryTestType := Some(value));
    }

    /** `calculateAggregate`: without a program nothing happens; otherwise the capped aggregate,
        its prediction and the results section. */
    method CalculateAggregate()
      requires Valid()
      requires selectedProgram.Some? ==> TotalsPositive(formData)
      modifies this`aggregate, this`admissionPrediction, this`activeSection
      ensures Valid()
      ensures old(selectedProgram).None? ==>
        aggregate == old(aggregate) && admissionPrediction == old(admissionPrediction) && activeSection == old(activeSection)
      ensures old(selectedProgram).Some? ==>
        var universityId := if university.Some? then Some(university.value.id) else None;
        var final := FinalAggregate(selectedProgram.value.formula, universityId, formData.educationType,
                                    Percentage(formData.matricMarks), Percentage(formData.fscMarks),
                                    Percentage(formData.entryTestMarks));
        && aggregate == Some(final)
        && admissionPrediction == Some(GetPrediction(selectedProgram, final))
        && activeSection == ResultsSection
    {
      if selectedProgram.None? {
        return;
      }
      var formula := selectedProgram.value.formula;
      var matricPercentage := Percentage(formData.matricMarks);
      var fscPercentage := Percentage(formData.fscMarks);
      var testPercentage := Percentage(formData.entryTestMarks);
      var isNust := university.Some? && university.value.id == NustId;
      var calculated := 0.0;
      if isNust && formData.educationType == ALevel {
        calculated := matricPercentage * 0.25 + fscPercentage * formula.intermediate + testPercentage * formula.entryTest;
      } else {
        calculated := matricPercentage * formula.matriculation + fscPercentage * formula.intermediate
                    + testPercentage * formula.entryTest;
        if formData.educationType == ALevel && !isNust {
          calculated := calculated * 1.1;
        }
      }
      assert calculated == Uncapped(formula, if university.Some? then Some(university.value.id) else None,
                                    formData.educationType, matricPercentage, fscPercentage, testPercentage);
      var final := if 100.0 <= calculated then 100.0 else calculated;
      aggregate := Some(final);
      admissionPrediction := Some(GetPrediction(selectedProgram, final));
      activeSection := ResultsSection;
    }
  }
}
