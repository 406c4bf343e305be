/** The eligibility matcher shared by the eligibility table and the
    calculator page: which historical merit rows an aggregate reaches (within a
    2-point tolerance), the High/Medium/Low status of each, and the grouping of
    the reached rows per (university, campus). */
module Eligibility {
  import opened Seqs
  import opened Data
  import Strings
  import JsNumber

  datatype Status = High | Medium | Low

  /** A merit row with `eligibilityStatus` added. */
  datatype RatedProgram = RatedProgram(program: ProgramMerit, eligibilityStatus: Status)

  datatype EligibleGroup = EligibleGroup(university: string, campus: string, programs: seq<RatedProgram>)

  const Tolerance := 2.0

  /** `Number(merit.split('-')[0])`; `None` is `NaN`. */
  function RangeLower(text: string): (r: Option<real>)
    ensures '-' !in text ==> r == JsNumber.ParseNumber(text)
    ensures forall k :: 0 <= k < |text| && text[k] == '-' && '-' !in text[..k] ==> r == JsNumber.ParseNumber(text[..k])
  {
    Strings.PieceBeforeFirst(text, '-');
    JsNumber.ParseNumber(Strings.PieceBefore(text, '-'))
  }

  /** The filter callback: a number or a range is reached within the tolerance;
      a `/` or `#` string always; any other string never. */
  predicate IsIncluded(aggregate: real, merit: Merit)
    ensures IsIncluded(aggregate, merit) <==> ReachesValue(aggregate, ParseMerit(merit))
  {
    match merit
    case Textual(text) =>
      if '-' in text then
        (match RangeLower(text)
         case Some(min) => aggregate >= min - Tolerance
         case None => false)
      else if '/' in text then true
      else if Strings.StartsWith(text, "#") then true
      else false
    case Numeric(m) => aggregate >= m - Tolerance
  }

  function StatusOfDiff(diff: real): Status {
    if diff >= 3.0 then Status.High else if diff >= 0.0 then Status.Medium else Status.Low
  }

  /** `getEligibilityStatus`; a `NaN` lower bound compares false both times and gives Low. */
  function EligibilityStatus(aggregate: real, merit: Merit): (s: Status)
    ensures s == StatusOfValue(aggregate, ParseMerit(merit))
    ensures s == Status.High ==> IsIncluded(aggregate, merit)
    ensures !IsIncluded(aggregate, merit) && ParseMerit(merit).Cutoff? ==> s == Status.Low
  {
    match merit
    case Textual(text) =>
      if '-' in text then
        (match RangeLower(text)
         case Some(min) => StatusOfDiff(aggregate - min)
         case None => Status.Low)
      else Status.Medium
    case Numeric(m) => StatusOfDiff(aggregate - m)
  }

  /** The merit column parsed once into its kinds: a numeric cutoff (a number or the
      lower end of a range, `None` when the range does not read), a rank/pool ratio,
      a bare rank, or an unrecognised string. */
  datatype MeritValue = Cutoff(min: Option<real>) | RankRatio | Rank | Unrecognised

  function ParseMerit(merit: Merit): MeritValue {
    match merit
    case Numeric(m) => Cutoff(Some(m))
    case Textual(text) =>
      if '-' in text then Cutoff(RangeLower(text))
      else if '/' in text then RankRatio
      else if |text| > 0 && text[0] == '#' then Rank
      else Unrecognised
  }

  /** Inclusion and status stated on the parsed kinds. */
  predicate ReachesValue(aggregate: real, v: MeritValue) {
    match v
    case Cutoff(min) => min.Some? && min.value - aggregate <= Tolerance
    case RankRatio => true
    case Rank => true
    case Unrecognised => false
  }

  function StatusOfValue(aggregate: real, v: MeritValue): Status {
    match v
    case Cutoff(min) =>
      if min.None? then Status.Low
      else if aggregate - min.value < 0.0 then Status.Low
      else if aggregate - min.value < 3.0 then Status.Medium
      else Status.High
    case _ => Status.Medium
  }

  /** An included cutoff whose status is Low lies within the 2 points below the cutoff. */
  lemma LowMeansWithinTolerance(aggregate: real, merit: Merit)
    requires IsIncluded(aggregate, merit) && ParseMerit(merit).Cutoff?
    requires EligibilityStatus(aggregate, merit) == Status.Low
    ensures ParseMerit(merit).min.Some?
    ensures var min := ParseMerit(merit).min.value; -2.0 <= aggregate - min < 0.0
  {
  }

  /** Rank strings and ratio strings are always included, with status Medium. */
  lemma RanksAlwaysMedium(aggregate: real, merit: Merit)
    requires ParseMerit(merit) == RankRatio || ParseMerit(merit) == Rank
    ensures IsIncluded(aggregate, merit) && EligibilityStatus(aggregate, merit) == Status.Medium
  {
  }

  function StatusRank(s: Status): nat {
    match s
    case Low => 0
    case Medium => 1
    case High => 2
  }

  /** A higher aggregate never loses an entry and never lowers its status. */
  lemma RaisingAggregateMonotone(a: real, b: real, merit: Merit)
    requires a <= b
    ensures IsIncluded(a, merit) ==> IsIncluded(b, merit)
    ensures StatusRank(EligibilityStatus(a, merit)) <= StatusRank(EligibilityStatus(b, merit))
  {
  }

  /** `campus.programs.filter(...)`. */
  function IncludedPrograms(aggregate: real, programs: seq<ProgramMerit>): seq<ProgramMerit> {
    Filter(programs, (p: ProgramMerit) => IsIncluded(aggregate, p.merit))
  }

  /** `.map(program => ({...program, eligibilityStatus}))`. */
  function RateAll(aggregate: real, programs: seq<ProgramMerit>): seq<RatedProgram> {
    seq(|programs|, i requires 0 <= i < |programs| => RatedProgram(programs[i], EligibilityStatus(aggregate, programs[i].merit)))
  }

  /** The group a campus would contribute, whether or not it is empty. */
  function GroupOf(aggregate: real, universityName: string, c: CampusMerit): (g: EligibleGroup)
    ensures g.university == universityName && g.campus == c.campus
    ensures forall k :: 0 <= k < |g.programs| ==>
      g.programs[k].program in c.programs && IsIncluded(aggregate, g.programs[k].program.merit)
      && g.programs[k].eligibilityStatus == EligibilityStatus(aggregate, g.programs[k].program.merit)
    ensures |g.programs| > 0 <==> exists p :: p in c.programs && IsIncluded(aggregate, p.merit)
  {
    EligibleGroup(universityName, c.campus, RateAll(aggregate, IncludedPrograms(aggregate, c.programs)))
  }

  /** The campus's group, or nothing when none of its programs is included. */
  function CampusGroup(aggregate: real, universityName: string, c: CampusMerit): seq<EligibleGroup> {
    if |IncludedPrograms(aggregate, c.programs)| > 0 then [GroupOf(aggregate, universityName, c)] else []
  }

  /** The non-empty groups of a university's campuses, in campus order. */
  function CampusGroups(aggregate: real, universityName: string, campuses: seq<CampusMerit>): (r: seq<EligibleGroup>)
    ensures |r| <= |campuses|
    ensures forall k :: 0 <= k < |r| ==> r[k].university == universityName && |r[k].programs| > 0
  {
    if campuses == [] then []
    else CampusGroups(aggregate, universityName, campuses[..|campuses| - 1])
         + CampusGroup(aggregate, universityName, campuses[|campuses| - 1])
  }

  /** The groups in table order: universities, then their campuses. */
  function EligibleGroups(aggregate: real, table: seq<UniversityMerit>): (r: seq<EligibleGroup>)
    ensures forall k :: 0 <= k < |r| ==> |r[k].programs| > 0
  {
    if table == [] then []
    else EligibleGroups(aggregate, table[..|table| - 1])
         + CampusGroups(aggregate, table[|table| - 1].name, table[|table| - 1].campuses)
  }

  lemma EligibleGroupsSnoc(aggregate: real, table: seq<UniversityMerit>, u: UniversityMerit)
    ensures EligibleGroups(aggregate, table + [u]) == EligibleGroups(aggregate, table) + CampusGroups(aggregate, u.name, u.campuses)
  {
    assert (table + [u])[..|table|] == table;
  }

  lemma CampusGroupsSnoc(aggregate: real, name: string, campuses: seq<CampusMerit>, j: nat)
    requires j < |campuses|
    ensures CampusGroups(aggregate, name, campuses[..j + 1])
         == CampusGroups(aggregate, name, campuses[..j]) + CampusGroup(aggregate, name, campuses[j])
  {
    assert campuses[..j + 1][..j] == campuses[..j];
  }

  lemma EligibleGroupsPrefix(aggregate: real, table: seq<UniversityMerit>, i: nat)
    requires i < |table|
    ensures EligibleGroups(aggregate, table[..i + 1])
         == EligibleGroups(aggregate, table[..i]) + CampusGroups(aggregate, table[i].name, table[i].campuses)
  {
    assert table[..i + 1] == table[..i] + [table[i]];
    EligibleGroupsSnoc(aggregate, table[..i], table[i]);
  }

  /** `getEligiblePrograms`: nested walks over universities and campuses, pushing the non-empty groups. */
  method GetEligiblePrograms(aggregate: real, table: seq<UniversityMerit>) returns (eligiblePrograms: seq<EligibleGroup>)
    ensures eligiblePrograms == EligibleGroups(aggregate, table)
  {
    eligiblePrograms := [];
    var i := 0;
    while i < |table|
      invariant 0 <= i <= |table|
      invariant eligiblePrograms == EligibleGroups(aggregate, table[..i])
    {
      var university := table[i];
      eligiblePrograms := PushCampusGroups(aggregate, university, eligiblePrograms);
      EligibleGroupsPrefix(aggregate, table, i);
      i := i + 1;
    }
    assert table[..i] == table;
  }

  /** The `forEach` callback for one university: walks its campuses and pushes each non-empty group. */
  method PushCampusGroups(aggregate: real, university: UniversityMerit, before: seq<EligibleGroup>)
    returns (eligiblePrograms: seq<EligibleGroup>)
    ensures eligiblePrograms == before + CampusGroups(aggregate, university.name, university.campuses)
  {
    eligiblePrograms := before;
    var j := 0;
    while j < |university.campuses|
      invariant 0 <= j <= |university.campuses|
      invariant eligiblePrograms == before + CampusGroups(aggregate, university.name, university.campuses[..j])
    {
      var campus := university.campuses[j];
      var eligibleProgramsInCampus := IncludedPrograms(aggregate, campus.programs);
      CampusGroupsSnoc(aggregate, university.name, university.campuses, j);
      if |eligibleProgramsInCampus| > 0 {
        var programsWithStatus := RateAll(aggregate, eligibleProgramsInCampus);
        assert [EligibleGroup(university.name, campus.campus, programsWithStatus)]
            == CampusGroup(aggregate, university.name, campus);
        eligiblePrograms := eligiblePrograms + [EligibleGroup(university.name, campus.campus, programsWithStatus)];
      } else {
        assert CampusGroup(aggregate, university.name, campus) == [];
      }
      j := j + 1;
    }
    assert university.campuses[..j] == university.campuses;
  }

  /** The calculator page's variant: the same walk over the rows the university id selects. */
  method GetEligibleProgramsFor(aggregate: real, table: seq<UniversityMerit>, universityId: Option<string>)
    returns (eligiblePrograms: seq<EligibleGroup>)
    ensures eligiblePrograms == EligibleGroups(aggregate, SelectUniversities(table, universityId))
    ensures !Truthy(universityId) ==> eligiblePrograms == EligibleGroups(aggregate, table)
    ensures IsSubsequence(eligiblePrograms, EligibleGroups(aggregate, table))
  {
    var universitiesToCheck := SelectUniversities(table, universityId);
    eligiblePrograms := GetEligiblePrograms(aggregate, universitiesToCheck);
    if Truthy(universityId) {
      FilteredIsSublist(aggregate, table, universityId.value);
    } else {
      SubsequenceReflexive(eligiblePrograms);
    }
  }

  /** Restricting the table to one id keeps a sub-list of the unrestricted groups, in order. */
  lemma {:induction false} FilteredIsSublist(aggregate: real, table: seq<UniversityMerit>, id: string)
    ensures IsSubsequence(EligibleGroups(aggregate, Filter(table, (u: UniversityMerit) => u.id == id)),
                          EligibleGroups(aggregate, table))
  {
    var keep := (u: UniversityMerit) => u.id == id;
    if table == [] {
      assert Filter(table, keep) == [];
    } else {
      var init, last := table[..|table| - 1], table[|table| - 1];
      assert table == init + [last];
      FilteredIsSublist(aggregate, init, id);
      FilterAppend(init, [last], keep);
      var tail := CampusGroups(aggregate, last.name, last.campuses);
      EligibleGroupsSnoc(aggregate, init, last);
      if keep(last) {
        assert Filter([last], keep) == [last];
        EligibleGroupsSnoc(aggregate, Filter(init, keep), last);
        SubsequenceAppend(EligibleGroups(aggregate, Filter(init, keep)), EligibleGroups(aggregate, init), tail);
      } else {
        assert Filter([last], keep) == [];
        assert Filter(init, keep) + [] == Filter(init, keep);
        SubsequenceExtendRight(EligibleGroups(aggregate, Filter(init, keep)), EligibleGroups(aggregate, init), tail);
      }
    }
  }

  /** Every group comes from a campus of a row of the table, is non-empty, and lists that
      campus's included programs in order with their statuses. */
  lemma {:induction false} GroupsComeFromTable(aggregate: real, table: seq<UniversityMerit>, g: EligibleGroup)
    requires g in EligibleGroups(aggregate, table)
    ensures |g.programs| > 0
    ensures exists i, j :: 0 <= i < |table| && 0 <= j < |table[i].campuses|
                        && g == GroupOf(aggregate, table[i].name, table[i].campuses[j])
  {
    var init, last := table[..|table| - 1], table[|table| - 1];
    if g in EligibleGroups(aggregate, init) {
      GroupsComeFromTable(aggregate, init, g);
      var i, j :| 0 <= i < |init| && 0 <= j < |init[i].campuses| && g == GroupOf(aggregate, init[i].name, init[i].campuses[j]);
      assert table[i] == init[i];
    } else {
      var i := |table| - 1;
      var j := CampusOfGroup(aggregate, last.name, last.campuses, g);
      assert g == GroupOf(aggregate, table[i].name, table[i].campuses[j]);
    }
  }

  lemma {:induction false} CampusOfGroup(aggregate: real, name: string, campuses: seq<CampusMerit>, g: EligibleGroup)
    returns (j: nat)
    requires g in CampusGroups(aggregate, name, campuses)
    ensures j < |campuses| && g == GroupOf(aggregate, name, campuses[j]) && |g.programs| > 0
  {
    var init := campuses[..|campuses| - 1];
    if g in CampusGroups(aggregate, name, init) {
      j := CampusOfGroup(aggregate, name, init, g);
      assert campuses[j] == init[j];
    } else {
      j := |campuses| - 1;
    }
  }

  /** Every campus with an included program has its group in the output. */
  lemma {:induction false} EveryReachedCampusListed(aggregate: real, table: seq<UniversityMerit>, i: nat, j: nat)
    requires i < |table| && j < |table[i].campuses|
    requires |IncludedPrograms(aggregate, table[i].campuses[j].programs)| > 0
    ensures GroupOf(aggregate, table[i].name, table[i].campuses[j]) in EligibleGroups(aggregate, table)
  {
    var init, last := table[..|table| - 1], table[|table| - 1];
    if i < |table| - 1 {
      assert table[i] == init[i];
      EveryReachedCampusListed(aggregate, init, i, j);
    } else {
      CampusListed(aggregate, last.name, last.campuses, j);
    }
  }

  lemma {:induction false} CampusListed(aggregate: real, name: string, campuses: seq<CampusMerit>, j: nat)
    requires j < |campuses| && |IncludedPrograms(aggregate, campuses[j].programs)| > 0
    ensures GroupOf(aggregate, name, campuses[j]) in CampusGroups(aggregate, name, campuses)
  {
    var init := campuses[..|campuses| - 1];
    if j < |campuses| - 1 {
      assert campuses[j] == init[j];
      CampusListed(aggregate, name, init, j);
    }
  }

  /** With a university id, every group belongs to a row carrying that id. */
  lemma GroupsOfSelectedUniversity(aggregate: real, table: seq<UniversityMerit>, id: string, g: EligibleGroup)
    requires id != ""
    requires g in EligibleGroups(aggregate, SelectUniversities(table, Some(id)))
    ensures exists u :: u in table && u.id == id && u.name == g.university
  {
    var rows := SelectUniversities(table, Some(id));
    GroupsComeFromTable(aggregate, rows, g);
    var i, j :| 0 <= i < |rows| && 0 <= j < |rows[i].campuses| && g == GroupOf(aggregate, rows[i].name, rows[i].campuses[j]);
    SubsequenceMembers(rows, table, rows[i]);
  }

  /** A higher aggregate keeps every program a campus already lists, in the same order. */
  lemma RaisingAggregateKeepsPrograms(a: real, b: real, programs: seq<ProgramMerit>)
    requires a <= b
    ensures IsSubsequence(IncludedPrograms(a, programs), IncludedPrograms(b, programs))
  {
    forall i | 0 <= i < |programs| && IsIncluded(a, programs[i].merit)
      ensures IsIncluded(b, programs[i].merit)
    {
      RaisingAggregateMonotone(a, b, programs[i].merit);
    }
    FilterWeaker(programs, (p: ProgramMerit) => IsIncluded(a, p.merit), (p: ProgramMerit) => IsIncluded(b, p.merit));
  }

  /** The FAST Islamabad rows: at 73 all five are listed, the two highest cutoffs as Low. */
  lemma FastIslamabadAt73()
    ensures IncludedPrograms(73.0, FastIslamabad().programs) == FastIslamabad().programs
    ensures var rated := RateAll(73.0, FastIslamabad().programs);
      rated[0].eligibilityStatus == Status.Low && rated[1].eligibilityStatus == Status.Low
      && rated[2].eligibilityStatus == Status.Medium
  {
    var ps := FastIslamabad().programs;
    var keep := (p: ProgramMerit) => IsIncluded(73.0, p.merit);
    assert forall i :: 0 <= i < |ps| ==> ps[i].merit.Numeric? && ps[i].merit.value <= 75.0;
    FilterKeepsAll(ps, keep);
  }

  /** At 72 the 75 cutoff drops out and the other four stay. */
  lemma FastIslamabadAt72()
    ensures IncludedPrograms(72.0, FastIslamabad().programs) == FastIslamabad().programs[1..]
  {
    var ps := FastIslamabad().programs;
    var keep := (p: ProgramMerit) => IsIncluded(72.0, p.merit);
    assert !keep(ps[0]);
    assert forall i :: 1 <= i < |ps| ==> ps[i].merit.Numeric? && ps[i].merit.value <= 74.0;
    FilterKeepsAll(ps[1..], keep);
  }

  /** "80-82" reads as a cutoff of 80. */
  lemma RangeLowerFixture()
    ensures RangeLower("80-82") == Some(80.0)
  {
    assert Strings.PieceBefore("80-82", '-') == "80";
    JsNumber.ParseDigits("80");
    assert JsNumber.DigitsValue("80") == 80 by {
      assert "80"[..1] == "8";
      assert "8"[..0] == "";
    }
  }

  /** A range written as a natural number, a dash and anything reads its lower end as that number. */
  lemma RangeLowerOfNumber(low: nat, rest: string)
    ensures RangeLower(JsNumber.NatToString(low) + "-" + rest) == Some(low as real)
  {
    var digits := JsNumber.NatToString(low);
    var text := digits + "-" + rest;
    assert '-' !in digits by {
      assert JsNumber.AllDigits(digits);
      assert !JsNumber.IsDigit('-');
    }
    assert text[..|digits|] == digits && text[|digits|] == '-';
    JsNumber.NatToStringRoundTrip(low);
  }

  /** 78 reaches the "80-82" row with status Low; 77.9 does not reach it. */
  lemma RangeFixture()
    ensures IsIncluded(78.0, ComsatsComputerScience().merit)
    ensures EligibilityStatus(78.0, ComsatsComputerScience().merit) == Status.Low
    ensures !IsIncluded(77.9, ComsatsComputerScience().merit)
  {
    RangeLowerFixture();
    assert '-' in "80-82";
  }

  /** "#324" and "447/5360" are listed as Medium at any aggregate. */
  lemma RankFixtures(aggregate: real)
    ensures IsIncluded(aggregate, GikiComputerScience().merit)
    ensures EligibilityStatus(aggregate, GikiComputerScience().merit) == Status.Medium
    ensures IsIncluded(aggregate, NustComputerScience().merit)
    ensures EligibilityStatus(aggregate, NustComputerScience().merit) == Status.Medium
  {
    assert '-' !in "#324" && '/' !in "#324";
    assert '-' !in "447/5360" && '/' in "447/5360";
  }

  /** A range whose lower end starts with a character no number can start with is never listed. */
  lemma UnreadableRangeExcluded(aggregate: real, text: string)
    requires '-' in text && text != []
    requires !JsNumber.IsDigit(text[0]) && text[0] !in ".-+" && !Strings.IsWhitespace(text[0])
    ensures RangeLower(text) == None
    ensures !IsIncluded(aggregate, Textual(text))
  {
    var piece := Strings.PieceBefore(text, '-');
    assert piece != [] && piece[0] == text[0];
    var t := Strings.Trim(piece);
    assert Strings.TrimStart(piece) == piece;
    assert t != [] && t[0] == piece[0] by {
      assert !Strings.IsBlank(piece);
    }
    JsNumber.ParseIgnoresWhitespace(piece);
    JsNumber.BadStartNotANumber(t);
  }

  /** A leading `-` leaves an empty lower end, which `Number` reads as 0. */
  lemma LeadingDashReadsAsZero(aggregate: real)
    ensures RangeLower("-5") == Some(0.0)
    ensures IsIncluded(aggregate, Textual("-5")) <==> aggregate >= -2.0
  {
    assert Strings.PieceBefore("-5", '-') == "";
  }
}
