/** The NU entry-test raw scorer: four sections with fixed question counts,
    per-section validation of the attempted and correct counts, a negatively
    marked score floored at 0 and rounded to two decimals, and the state of
    the calculator dialog. The form fields are strings read with
    `Number(x) || 0`. */
module NuMarks {
  import opened Seqs
  import opened JsNumber

  datatype TestSection = AdvancedMaths | BasicMaths | Iq | English

  /** The sections in the order the form object lists them. */
  const Sections: seq<TestSection> := [AdvancedMaths, BasicMaths, Iq, English]

  /** The three sections marked +1 / -0.25. */
  const MathsAndIq: seq<TestSection> := [AdvancedMaths, BasicMaths, Iq]

  /** Number of questions in a section. */
  function Cap(s: TestSection): (c: real)
    ensures c > 0.0
  {
    match s
    case AdvancedMaths => 50.0
    case BasicMaths => 20.0
    case Iq => 20.0
    case English => 30.0
  }

  datatype SectionInput = SectionInput(attempted: string, correct: string)

  datatype NuForm = NuForm(advancedMaths: SectionInput, basicMaths: SectionInput, iq: SectionInput, english: SectionInput)

  datatype InputField = Attempted | Correct

  /** The `<section>_attempted` and `<section>_correct` keys of the error map. */
  datatype ErrorKey = ErrorKey(section: TestSection, field: InputField)

  /** "Must be between 0 and <cap>", "Must be between 0 and <attempted>", "Cannot exceed <cap>". */
  datatype ErrorMessage = AttemptedRange(cap: real) | CorrectRange(attempted: real) | CannotExceed(cap: real)

  function EmptyInput(): SectionInput {
    SectionInput("", "")
  }

  function EmptyForm(): NuForm {
    NuForm(EmptyInput(), EmptyInput(), EmptyInput(), EmptyInput())
  }

  function Get(f: NuForm, s: TestSection): SectionInput {
    match s
    case AdvancedMaths => f.advancedMaths
    case BasicMaths => f.basicMaths
    case Iq => f.iq
    case English => f.english
  }

  /** The form with one section replaced; the other sections are untouched. */
  function With(f: NuForm, s: TestSection, v: SectionInput): (g: NuForm)
    ensures Get(g, s) == v
    ensures forall t :: t != s ==> Get(g, t) == Get(f, t)
  {
    match s
    case AdvancedMaths => f.(advancedMaths := v)
    case BasicMaths => f.(basicMaths := v)
    case Iq => f.(iq := v)
    case English => f.(english := v)
  }

  /** One field of a section input replaced. */
  function SetField(v: SectionInput, field: InputField, value: string): (w: SectionInput)
    ensures field == Attempted ==> w.attempted == value && w.correct == v.correct
    ensures field == Correct ==> w.correct == value && w.attempted == v.attempted
  {
    match field
    case Attempted => v.(attempted := value)
    case Correct => v.(correct := value)
  }

  /** A section's two counts once read as numbers. */
  datatype Counts = Counts(attempted: real, correct: real)

  /** The whole form once read as numbers. */
  datatype Tally = Tally(advancedMaths: Counts, basicMaths: Counts, iq: Counts, english: Counts)

  function Count(t: Tally, s: TestSection): Counts {
    match s
    case AdvancedMaths => t.advancedMaths
    case BasicMaths => t.basicMaths
    case Iq => t.iq
    case English => t.english
  }

  /** `Number(x) || 0` of both fields. */
  function ReadInput(v: SectionInput): Counts {
    Counts(NumberOrZero(v.attempted), NumberOrZero(v.correct))
  }

  function ReadForm(f: NuForm): (t: Tally)
    ensures forall s :: Count(t, s) == ReadInput(Get(f, s))
  {
    Tally(ReadInput(f.advancedMaths), ReadInput(f.basicMaths), ReadInput(f.iq), ReadInput(f.english))
  }

  /** What a section's counts must satisfy: `0 <= correct <= attempted <= cap`. */
  predicate SectionOk(c: Counts, cap: real) {
    0.0 <= c.attempted <= cap && 0.0 <= c.correct <= c.attempted
  }

  /** The three checks of one section, applied in order to the error map built so far. */
  function CheckSection(errors: map<ErrorKey, ErrorMessage>, s: TestSection, c: Counts): (m: map<ErrorKey, ErrorMessage>)
    ensures SectionOk(c, Cap(s)) ==> m == errors
    ensures !SectionOk(c, Cap(s)) ==> ErrorKey(s, Attempted) in m || ErrorKey(s, Correct) in m
  {
    var e1 := if c.attempted < 0.0 || c.attempted > Cap(s) then errors[ErrorKey(s, Attempted) := AttemptedRange(Cap(s))] else errors;
    var e2 := if c.correct < 0.0 || c.correct > c.attempted then e1[ErrorKey(s, Correct) := CorrectRange(c.attempted)] else e1;
    if c.correct > Cap(s) then e2[ErrorKey(s, Correct) := CannotExceed(Cap(s))] else e2
  }

  /** The error map built from an empty map by checking the given sections in order. */
  function ErrorsOf(t: Tally, ss: seq<TestSection>): map<ErrorKey, ErrorMessage> {
    if ss == [] then map[]
    else CheckSection(ErrorsOf(t, ss[..|ss| - 1]), ss[|ss| - 1], Count(t, ss[|ss| - 1]))
  }

  /** Checking one more section extends the error map by that section's checks. */
  lemma ErrorsOfPrefix(t: Tally, ss: seq<TestSection>, i: nat)
    requires i < |ss|
    ensures ErrorsOf(t, ss[..i + 1]) == CheckSection(ErrorsOf(t, ss[..i]), ss[i], Count(t, ss[i]))
  {
    assert ss[..i + 1][..i] == ss[..i];
  }

  /** `validateInputs`' fresh error map. */
  function ValidationErrors(t: Tally): (m: map<ErrorKey, ErrorMessage>)
    ensures forall k: ErrorKey :: k in m <==> ExpectedError(Count(t, k.section), k).Some?
    ensures forall k: ErrorKey :: k in m ==> m[k] == ExpectedError(Count(t, k.section), k).value
  {
    AllSectionsFollowRule(t);
    ErrorsOf(t, Sections)
  }

  /** The error for one key, as a declarative rule: present exactly when that
      section's check fails, and "Cannot exceed" wins over the range message. */
  function ExpectedError(c: Counts, k: ErrorKey): Option<ErrorMessage> {
    match k.field
    case Attempted =>
      if c.attempted < 0.0 || c.attempted > Cap(k.section) then Some(AttemptedRange(Cap(k.section))) else None
    case Correct =>
      if c.correct > Cap(k.section) then Some(CannotExceed(Cap(k.section)))
      else if c.correct < 0.0 || c.correct > c.attempted then Some(CorrectRange(c.attempted))
      else None
  }

  /** One section's checks touch only that section's keys, and set them by the rule. */
  lemma CheckSectionKey(errors: map<ErrorKey, ErrorMessage>, s: TestSection, c: Counts, k: ErrorKey)
    ensures k.section != s ==> (k in CheckSection(errors, s, c) <==> k in errors)
    ensures k.section != s && k in errors ==> CheckSection(errors, s, c)[k] == errors[k]
    ensures k.section == s && ExpectedError(c, k).Some? ==>
      k in CheckSection(errors, s, c) && CheckSection(errors, s, c)[k] == ExpectedError(c, k).value
    ensures k.section == s && ExpectedError(c, k).None? ==>
      (k in CheckSection(errors, s, c) <==> k in errors)
    ensures k.section == s && ExpectedError(c, k).None? && k in errors ==> CheckSection(errors, s, c)[k] == errors[k]
  {
  }

  lemma {:induction false} ErrorsOfMatchesRule(t: Tally, ss: seq<TestSection>, k: ErrorKey)
    ensures k in ErrorsOf(t, ss) <==> k.section in ss && ExpectedError(Count(t, k.section), k).Some?
    ensures k in ErrorsOf(t, ss) ==> ErrorsOf(t, ss)[k] == ExpectedError(Count(t, k.section), k).value
  {
    if ss != [] {
      var init := ss[..|ss| - 1];
      var last := ss[|ss| - 1];
      ErrorsOfMatchesRule(t, init, k);
      CheckSectionKey(ErrorsOf(t, init), last, Count(t, last), k);
      assert ss == init + [last];
    }
  }

  /** Checking all four sections gives every key exactly the message the rule gives it. */
  lemma AllSectionsFollowRule(t: Tally)
    ensures forall k: ErrorKey :: k in ErrorsOf(t, Sections) <==> ExpectedError(Count(t, k.section), k).Some?
    ensures forall k: ErrorKey :: k in ErrorsOf(t, Sections) ==>
      ErrorsOf(t, Sections)[k] == ExpectedError(Count(t, k.section), k).value
  {
    forall k: ErrorKey
      ensures k in ErrorsOf(t, Sections) <==> ExpectedError(Count(t, k.section), k).Some?
      ensures k in ErrorsOf(t, Sections) ==> ErrorsOf(t, Sections)[k] == ExpectedError(Count(t, k.section), k).value
    {
      ErrorsOfMatchesRule(t, Sections, k);
      assert k.section in Sections by {
        match k.section
        case AdvancedMaths => assert Sections[0] == AdvancedMaths;
        case BasicMaths => assert Sections[1] == BasicMaths;
        case Iq => assert Sections[2] == Iq;
        case English => assert Sections[3] == English;
      }
    }
  }

  /** Validation passes exactly when every section has `0 <= correct <= attempted <= cap`. */
  lemma ValidationPassesIff(t: Tally)
    ensures ValidationErrors(t) == map[] <==> forall s :: SectionOk(Count(t, s), Cap(s))
  {
    if ValidationErrors(t) == map[] {
      forall s: TestSection
        ensures SectionOk(Count(t, s), Cap(s))
      {
        assert ErrorKey(s, Attempted) !in ValidationErrors(t) && ErrorKey(s, Correct) !in ValidationErrors(t);
      }
    } else {
      var k :| k in ValidationErrors(t);
      assert ExpectedError(Count(t, k.section), k).Some?;
    }
  }

  /** Marks of one section: +1 / -0.25 per answer, and +0.33 / -0.0825 for English. */
  function SectionScore(s: TestSection, c: Counts): (r: real)
    ensures var w := if s == English then 0.33 else 1.0;
      r == w * c.correct - (w / 4.0) * (c.attempted - c.correct)
    ensures 0.0 <= c.correct <= c.attempted ==> r <= (if s == English then 0.33 else 1.0) * c.correct
  {
    var incorrect := c.attempted - c.correct;
    if s == English then c.correct * 0.33 - incorrect * 0.0825 else c.correct * 1.0 - incorrect * 0.25
  }

  /** The marks of the given sections, summed in order. */
  function MarksOf(t: Tally, ss: seq<TestSection>): real {
    if ss == [] then 0.0
    else MarksOf(t, ss[..|ss| - 1]) + SectionScore(ss[|ss| - 1], Count(t, ss[|ss| - 1]))
  }

  /** The total before the floor at 0 and the rounding. */
  function RawScore(t: Tally): (r: real)
    ensures r == SectionScore(AdvancedMaths, t.advancedMaths) + SectionScore(BasicMaths, t.basicMaths)
               + SectionScore(Iq, t.iq) + SectionScore(English, t.english)
  {
    var one: seq<TestSection> := [AdvancedMaths];
    var two: seq<TestSection> := [AdvancedMaths, BasicMaths];
    assert one[..0] == [] && two[..1] == one && MathsAndIq[..2] == two && Sections[..3] == MathsAndIq;
    assert MarksOf(t, one) == SectionScore(AdvancedMaths, t.advancedMaths);
    assert MarksOf(t, two) == MarksOf(t, one) + SectionScore(BasicMaths, t.basicMaths);
    assert MarksOf(t, MathsAndIq) == MarksOf(t, two) + SectionScore(Iq, t.iq);
    MarksOf(t, Sections)
  }

  /** `Math.round(Math.max(0, raw) * 100) / 100`: within half a hundredth of
      `max(0, raw)`, a whole number of hundredths, and never negative. */
  function Score(raw: real): (r: real)
    ensures r >= 0.0
    ensures (r * 100.0).Floor as real == r * 100.0
    ensures var floored := if raw > 0.0 then raw else 0.0;
      r - 0.005 <= floored < r + 0.005
  {
    var floored := if 0.0 >= raw then 0.0 else raw;
    var hundredths := Round(floored * 100.0);
    assert (hundredths as real / 100.0) * 100.0 == hundredths as real;
    hundredths as real / 100.0
  }

  /** A validated section scores at most its question count, English at most 0.33 per question. */
  lemma SectionScoreBound(s: TestSection, c: Counts)
    requires SectionOk(c, Cap(s))
    ensures SectionScore(s, c) <= (if s == English then 0.33 else 1.0) * Cap(s)
  {
  }

  /** For validated inputs the stored score is at most 99.9: 50 + 20 + 20 + 0.33 * 30. */
  lemma ValidatedScoreBound(t: Tally)
    requires ValidationErrors(t) == map[]
    ensures RawScore(t) <= 99.9
    ensures Score(RawScore(t)) <= 99.9
  {
    ValidationPassesIff(t);
    assert SectionOk(Count(t, AdvancedMaths), Cap(AdvancedMaths));
    assert SectionOk(Count(t, BasicMaths), Cap(BasicMaths));
    assert SectionOk(Count(t, Iq), Cap(Iq));
    assert SectionOk(Count(t, English), Cap(English));
    SectionScoreBound(AdvancedMaths, t.advancedMaths);
    SectionScoreBound(BasicMaths, t.basicMaths);
    SectionScoreBound(Iq, t.iq);
    SectionScoreBound(English, t.english);
    var floored := if RawScore(t) > 0.0 then RawScore(t) else 0.0;
    assert floored * 100.0 <= 9990.0;
  }

  /** With no correct answer and no negative count the score is 0. */
  lemma AllWrongScoresZero(t: Tally)
    requires forall s :: Count(t, s).correct == 0.0 && Count(t, s).attempted >= 0.0
    ensures RawScore(t) <= 0.0
    ensures Score(RawScore(t)) == 0.0
  {
    assert Count(t, AdvancedMaths).attempted >= 0.0 && Count(t, BasicMaths).attempted >= 0.0;
    assert Count(t, Iq).attempted >= 0.0 && Count(t, English).attempted >= 0.0;
  }

  /** `Number(n) || 0` of a rendered natural number is that number. */
  lemma ReadsBack(n: nat)
    ensures NumberOrZero(NatToString(n)) == n as real
  {
    NatToStringRoundTrip(n);
  }

  /** Advanced Maths 40 attempted, 30 correct, and English 20 attempted, 15 correct. */
  function SampleForm(): NuForm {
    EmptyForm().(advancedMaths := SectionInput("40", "30"), english := SectionInput("20", "15"))
  }

  lemma ReadSampleForm()
    ensures ReadForm(SampleForm()) ==
      Tally(Counts(40.0, 30.0), Counts(0.0, 0.0), Counts(0.0, 0.0), Counts(20.0, 15.0))
  {
    assert "40" == NatToString(40) && "30" == NatToString(30) by {
      TwoDigits(40); TwoDigits(30);
    }
    assert "20" == NatToString(20) && "15" == NatToString(15) by {
      TwoDigits(20); TwoDigits(15);
    }
    ReadsSection("40", 40, "30", 30);
    ReadsSection("20", 20, "15", 15);
  }

  /** The rendering of a two-digit number is its tens digit, then its units digit. */
  lemma TwoDigits(n: nat)
    requires 10 <= n < 100
    ensures NatToString(n) == [DigitChar(n / 10), DigitChar(n % 10)]
  {
    assert NatToString(n / 10) == [DigitChar(n / 10)];
  }

  /** A section whose fields are the renderings of two naturals reads as those naturals. */
  lemma ReadsSection(attempted: string, a: nat, correct: string, c: nat)
    requires attempted == NatToString(a) && correct == NatToString(c)
    ensures ReadInput(SectionInput(attempted, correct)) == Counts(a as real, c as real)
  {
    ReadsBack(a);
    ReadsBack(c);
  }

  /** The worked examples: 27.5 and 4.5375 marks, and a stored score of 32.04. */
  lemma SampleScores()
    ensures SectionScore(AdvancedMaths, Counts(40.0, 30.0)) == 27.5
    ensures SectionScore(English, Counts(20.0, 15.0)) == 4.5375
    ensures ValidationErrors(ReadForm(SampleForm())) == map[]
    ensures Score(RawScore(ReadForm(SampleForm()))) == 32.04
  {
    var t := ReadForm(SampleForm());
    assert t == Tally(Counts(40.0, 30.0), Counts(0.0, 0.0), Counts(0.0, 0.0), Counts(20.0, 15.0)) by {
      ReadSampleForm();
    }
    assert RawScore(t) == 32.0375;
    assert ValidationErrors(t) == map[] by {
      forall s ensures SectionOk(Count(t, s), Cap(s)) { }
      ValidationPassesIff(t);
    }
    assert Score(32.0375) == 32.04 by {
      assert Round(3203.75) == 3204;
    }
  }

  /** Ten attempted with fifteen correct in Advanced Maths is rejected with the
      correct-range message, whatever the other sections hold; the attempted
      count itself passes. */
  lemma MoreCorrectThanAttempted(t: Tally)
    requires t.advancedMaths == Counts(10.0, 15.0)
    ensures ErrorKey(AdvancedMaths, Correct) in ValidationErrors(t)
    ensures ValidationErrors(t)[ErrorKey(AdvancedMaths, Correct)] == CorrectRange(10.0)
    ensures ErrorKey(AdvancedMaths, Attempted) !in ValidationErrors(t)
  {
    assert ExpectedError(Count(t, AdvancedMaths), ErrorKey(AdvancedMaths, Correct)) == Some(CorrectRange(10.0));
  }

  /** The NU marks calculator dialog. */
  class NuMarksCalculator {
    var formData: NuForm
    var result: Option<real>
    var errors: map<ErrorKey, ErrorMessage>

    /** A shown result is the score of the form as it stands, and that form passed validation. */
    ghost predicate Valid()
      reads this
    {
      result.Some? ==> ValidationErrors(ReadForm(formData)) == map[] && result.value == Score(RawScore(ReadForm(formData)))
    }

    constructor ()
      ensures Valid()
      ensures formData == EmptyForm() && result == None && errors == map[]
    {
      formData := EmptyForm();
      result := None;
      errors := map[];
    }

    /** `validateInputs`: the error map is rebuilt from scratch; it passes when the map is empty. */
    method ValidateInputs() returns (ok: bool)
      requires Valid()
      modifies this`errors
      ensures Valid()
      ensures errors == ValidationErrors(ReadForm(formData))
      ensures ok <==> errors == map[]
    {
      var newErrors: map<ErrorKey, ErrorMessage> := map[];
      ghost var t := ReadForm(formData);
      var i := 0;
      while i < |Sections|
        invariant 0 <= i <= |Sections|
        invariant newErrors == ErrorsOf(t, Sections[..i])
      {
        var section := Sections[i];
        var attempted := NumberOrZero(Get(formData, section).attempted);
        var correct := NumberOrZero(Get(formData, section).correct);
        assert Count(t, section) == Counts(attempted, correct);
        ghost var before := newErrors;
        if attempted < 0.0 || attempted > Cap(section) {
          newErrors := newErrors[ErrorKey(section, Attempted) := AttemptedRange(Cap(section))];
        }
        if correct < 0.0 || correct > attempted {
          newErrors := newErrors[ErrorKey(section, Correct) := CorrectRange(attempted)];
        }
        if correct > Cap(section) {
          newErrors := newErrors[ErrorKey(section, Correct) := CannotExceed(Cap(section))];
        }
        assert newErrors == CheckSection(before, section, Counts(attempted, correct));
        ErrorsOfPrefix(t, Sections, i);
        i := i + 1;
      }
      assert Sections[..i] == Sections;
      errors := newErrors;
      ok := |newErrors| == 0;
    }

    /** `calculateMarks`: on failed validation the result stays as it was (and
        so is absent); otherwise it is the rounded, floored score. */
    method CalculateMarks()
      requires Valid()
      modifies this`errors, this`result
      ensures Valid()
      ensures errors == ValidationErrors(ReadForm(formData))
      ensures errors != map[] ==> result == old(result) && result == None
      ensures errors == map[] ==> result == Some(Score(RawScore(ReadForm(formData))))
      ensures result.Some? ==> 0.0 <= result.value <= 99.9
    {
      var ok := ValidateInputs();
      if !ok {
        return;
      }
      var totalMarks := 0.0;
      var i := 0;
      while i < |MathsAndIq|
        invariant 0 <= i <= |MathsAndIq|
        invariant totalMarks == MarksOf(ReadForm(formData), MathsAndIq[..i])
      {
        var section := MathsAndIq[i];
        var correct := NumberOrZero(Get(formData, section).correct);
        var attempted := NumberOrZero(Get(formData, section).attempted);
        assert Count(ReadForm(formData), section) == Counts(attempted, correct);
        var incorrect := attempted - correct;
        totalMarks := totalMarks + (correct * 1.0 - incorrect * 0.25);
        assert MathsAndIq[..i + 1][..i] == MathsAndIq[..i];
        i := i + 1;
      }
      var englishCorrect := NumberOrZero(formData.english.correct);
      var englishAttempted := NumberOrZero(formData.english.attempted);
      var englishIncorrect := englishAttempted - englishCorrect;
      totalMarks := totalMarks + (englishCorrect * 0.33 - englishIncorrect * 0.0825);
      assert MathsAndIq[..i] == Sections[..3];
      assert totalMarks == RawScore(ReadForm(formData));
      if 0.0 >= totalMarks {
        totalMarks := 0.0;
      }
      result := Some(Round(totalMarks * 100.0) as real / 100.0);
      ValidatedScoreBound(ReadForm(formData));
    }

    /** `handleInputChange`: only the edited field of the edited section changes, and the result is cleared. */
    method HandleInputChange(section: TestSection, field: InputField, value: string)
      requires Valid()
      modifies this`formData, this`result
      ensures Valid()
      ensures formData == With(old(formData), section, SetField(Get(old(formData), section), field, value))
      ensures result == None
    {
      formData := With(formData, section, SetField(Get(formData, section), field, value));
      result := None;
    }

    /** `resetForm`: every field empty, no result, no errors. */
    method ResetForm()
      modifies this
      ensures Valid()
      ensures formData == EmptyForm() && result == None && errors == map[]
    {
      formData := EmptyForm();
      result := None;
      errors := map[];
    }
  }
}
