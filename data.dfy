/** The shapes of the reference tables: programs with their aggregate
    formulas and admission-chance bands, and the historical merit table. A few
    rows of the real tables serve as fixtures. */
module Data {
  import opened Seqs

  /** Weights of the three percentages; fractions for some programs, percents for others. */
  datatype Formula = Formula(matriculation: real, intermediate: real, entryTest: real)

  datatype MinimumCriteria = MinimumCriteria(matriculation: real, intermediate: real, entryTest: real)

  datatype Rating = VeryHigh | High | Medium | Low | VeryLow

  /** One band of a program's admission-chance table: `min <= aggregate <= max`. */
  datatype AdmissionChance = AdmissionChance(min: real, max: real, rating: Rating, comment: string)

  /** `admissionChances` is optional in the table. */
  datatype Program = Program(
    id: string,
    name: string,
    testOptions: seq<string>,
    formula: Formula,
    minimumCriteria: MinimumCriteria,
    notes: string,
    admissionChances: Option<seq<AdmissionChance>>)

  datatype University = University(id: string, name: string, shortName: string, programs: seq<Program>)

  /** The `number | string` merit column. */
  datatype Merit = Numeric(value: real) | Textual(text: string)

  datatype Shift = Morning | Evening

  datatype ProgramMerit = ProgramMerit(
    name: string,
    merit: Merit,
    campus: Option<string>,
    shift: Option<Shift>,
    category: Option<string>,
    seats: Option<int>)

  datatype CampusMerit = CampusMerit(campus: string, programs: seq<ProgramMerit>)

  datatype UniversityMerit = UniversityMerit(id: string, name: string, campuses: seq<CampusMerit>)

  /** A `string | undefined` id is truthy when it is present and not empty. */
  predicate Truthy(universityId: Option<string>)
    ensures !Truthy(universityId) <==> universityId == None || universityId == Some("")
  {
    universityId.Some? && universityId.value != ""
  }

  /** `universityId ? meritData.filter(u => u.id === universityId) : meritData`. */
  function SelectUniversities(table: seq<UniversityMerit>, universityId: Option<string>): (r: seq<UniversityMerit>)
    ensures IsSubsequence(r, table)
    ensures Truthy(universityId) ==>
      && (forall i :: 0 <= i < |r| ==> r[i].id == universityId.value)
      && (forall i :: 0 <= i < |table| && table[i].id == universityId.value ==> table[i] in r)
    ensures !Truthy(universityId) ==> r == table
  {
    if Truthy(universityId) then Filter(table, (u: UniversityMerit) => u.id == universityId.value)
    else SubsequenceReflexive(table); table
  }

  function Row(name: string, merit: Merit): ProgramMerit {
    ProgramMerit(name, merit, None, None, None, None)
  }

  /** FAST National University, Islamabad campus (meritData.ts lines 26-35). */
  function FastIslamabad(): CampusMerit {
    CampusMerit("Islamabad", [
      Row("BS Computer Science", Numeric(75.0)),
      Row("BS Artificial Intelligence", Numeric(74.0)),
      Row("BS Cyber Security", Numeric(71.0)),
      Row("BS Data Science", Numeric(72.0)),
      Row("BS Software Engineering", Numeric(73.0))])
  }

  /** A NUST rank/pool row, a GIKI rank row and a COMSATS range row. */
  function NustComputerScience(): ProgramMerit {
    ProgramMerit("BS Computer Science", Textual("447/5360"), Some("SEECS"), None, None, None)
  }

  function GikiComputerScience(): ProgramMerit {
    Row("BS Computer Science", Textual("#324"))
  }

  function ComsatsComputerScience(): ProgramMerit {
    Row("BS Computer Science", Textual("80-82"))
  }

  /** The five bands most programs use (universities.ts lines 124-130). */
  function StandardBands(): seq<AdmissionChance> {
    [ AdmissionChance(85.0, 100.0, VeryHigh, "Excellent chance of admission"),
      AdmissionChance(75.0, 84.0, High, "Good chance of admission"),
      AdmissionChance(65.0, 74.0, Medium, "Moderate chance of admission"),
      AdmissionChance(55.0, 64.0, Low, "Low chance of admission"),
      AdmissionChance(0.0, 54.0, VeryLow, "Unlikely to get admission") ]
  }
}
