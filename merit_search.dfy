/** The merit-analysis panel: the historical merit table, optionally narrowed
    to one university, searched by a lower-cased term over university,
    campus and program names, and shown one campus or all campuses at a time. */
module MeritSearch {
  import opened Seqs
  import opened Data
  import opened Strings

  /** The campus selector's value for "All Campuses". */
  const AllCampuses: string := "all"

  /** A program matches when the term occurs somewhere in its lower-cased name. */
  predicate ProgramMatches(p: ProgramMerit, term: string)
    ensures ProgramMatches(p, term) <==> exists i :: OccursAt(Lower(p.name), term, i)
  {
    ContainsIffOccurs(Lower(p.name), term);
    Contains(Lower(p.name), term)
  }

  /** A campus matches by its own name or by the name of one of its programs. */
  predicate CampusMatches(c: CampusMerit, term: string) {
    Contains(Lower(c.campus), term) || Any(c.programs, (p: ProgramMerit) => ProgramMatches(p, term))
  }

  /** `matchesSearch` for one university: the empty term keeps it; otherwise
      the term must occur in its name, a campus name or a program name. */
  predicate UniversityMatches(u: UniversityMerit, term: string)
    ensures term == "" ==> UniversityMatches(u, term)
    ensures term != "" ==> (UniversityMatches(u, term) <==>
      || Contains(Lower(u.name), term)
      || (exists i :: 0 <= i < |u.campuses| && Contains(Lower(u.campuses[i].campus), term))
      || (exists i, j :: 0 <= i < |u.campuses| && 0 <= j < |u.campuses[i].programs|
            && Contains(Lower(u.campuses[i].programs[j].name), term)))
  {
    SomeCampusMatches(u.campuses, term);
    term == "" || Contains(Lower(u.name), term) || Any(u.campuses, (c: CampusMerit) => CampusMatches(c, term))
  }

  /** Some campus matches exactly when a campus name or one of its program names contains the term. */
  lemma SomeCampusMatches(campuses: seq<CampusMerit>, term: string)
    ensures Any(campuses, (c: CampusMerit) => CampusMatches(c, term)) <==>
      || (exists i :: 0 <= i < |campuses| && Contains(Lower(campuses[i].campus), term))
      || (exists i, j :: 0 <= i < |campuses| && 0 <= j < |campuses[i].programs|
            && Contains(Lower(campuses[i].programs[j].name), term))
  {
    if exists i, j :: 0 <= i < |campuses| && 0 <= j < |campuses[i].programs|
         && Contains(Lower(campuses[i].programs[j].name), term) {
      var i, j :| 0 <= i < |campuses| && 0 <= j < |campuses[i].programs|
         && Contains(Lower(campuses[i].programs[j].name), term);
      assert ProgramMatches(campuses[i].programs[j], term);
      assert CampusMatches(campuses[i], term);
    }
  }

  /** `filterPrograms`: the universities whose name, some campus name or some
      program name contains the term, whole and in their original order. */
  function FilterPrograms(universities: seq<UniversityMerit>, term: string): (r: seq<UniversityMerit>)
    ensures IsSubsequence(r, universities)
    ensures forall i :: 0 <= i < |r| ==> r[i] in universities && UniversityMatches(r[i], term)
    ensures forall i :: 0 <= i < |universities| && UniversityMatches(universities[i], term) ==> universities[i] in r
  {
    Filter(universities, (u: UniversityMerit) => UniversityMatches(u, term))
  }

  /** The empty term keeps every university. */
  lemma EmptyTermKeepsAll(universities: seq<UniversityMerit>)
    ensures FilterPrograms(universities, "") == universities
  {
    FilterKeepsAll(universities, (u: UniversityMerit) => UniversityMatches(u, ""));
  }

  /** Typing more characters never brings a university back: the result for a
      longer term is a sub-list of the result for any prefix of it. */
  lemma LongerTermNarrows(universities: seq<UniversityMerit>, term: string, k: nat)
    requires k <= |term|
    ensures IsSubsequence(FilterPrograms(universities, term), FilterPrograms(universities, term[..k]))
  {
    forall i | 0 <= i < |universities| && UniversityMatches(universities[i], term)
      ensures UniversityMatches(universities[i], term[..k])
    {
      Narrower(universities[i], term, k);
    }
    FilterWeaker(universities, (u: UniversityMerit) => UniversityMatches(u, term),
                 (u: UniversityMerit) => UniversityMatches(u, term[..k]));
  }

  lemma Narrower(u: UniversityMerit, term: string, k: nat)
    requires k <= |term| && UniversityMatches(u, term)
    ensures UniversityMatches(u, term[..k])
  {
    if k > 0 && term != "" {
      if Contains(Lower(u.name), term) {
        ContainsPrefix(Lower(u.name), term, k);
      } else {
        var i :| 0 <= i < |u.campuses| && CampusMatches(u.campuses[i], term);
        var c := u.campuses[i];
        if Contains(Lower(c.campus), term) {
          ContainsPrefix(Lower(c.campus), term, k);
        } else {
          var j :| 0 <= j < |c.programs| && ProgramMatches(c.programs[j], term);
          ContainsPrefix(Lower(c.programs[j].name), term, k);
          assert ProgramMatches(c.programs[j], term[..k]);
        }
        assert CampusMatches(u.campuses[i], term[..k]);
      }
    }
  }

  /** The campuses shown for the selected tab. */
  function VisibleCampuses(u: UniversityMerit, selectedCampus: string): (r: seq<CampusMerit>)
    ensures IsSubsequence(r, u.campuses)
    ensures selectedCampus != AllCampuses ==>
      (forall i :: 0 <= i < |r| ==> r[i].campus == selectedCampus)
      && (forall i :: 0 <= i < |u.campuses| && u.campuses[i].campus == selectedCampus ==> u.campuses[i] in r)
  {
    Filter(u.campuses, (c: CampusMerit) => selectedCampus == AllCampuses || selectedCampus == c.campus)
  }

  /** "All Campuses" shows every campus, in order. */
  lemma AllTabShowsEverything(u: UniversityMerit)
    ensures VisibleCampuses(u, AllCampuses) == u.campuses
  {
    FilterKeepsAll(u.campuses, (c: CampusMerit) => AllCampuses == AllCampuses || AllCampuses == c.campus);
  }

  /** The panel's state: the optional university id it was mounted with, the
      search term and the selected campus tab. */
  class MeritAnalysis {
    const universityId: Option<string>
    var searchTerm: string
    var selectedCampus: string

    /** The stored term is always lower case. */
    ghost predicate Valid()
      reads this
    {
      IsLowerCase(searchTerm)
    }

    constructor (universityId: Option<string>)
      ensures Valid()
      ensures this.universityId == universityId && searchTerm == "" && selectedCampus == AllCampuses
    {
      this.universityId := universityId;
      searchTerm := "";
      selectedCampus := AllCampuses;
    }

    /** `handleSearch`: the typed value, lower-cased and not trimmed. */
    method HandleSearch(value: string)
      modifies this`searchTerm
      ensures Valid()
      ensures searchTerm == Lower(value)
    {
      searchTerm := Lower(value);
      LowerIsLowerCase(value);
    }

    /** A campus tab or the "All Campuses" tab. */
    method SelectCampus(campus: string)
      modifies this`selectedCampus
      ensures selectedCampus == campus
    {
      selectedCampus := campus;
    }

    /** The universities listed: the id filter, then the search. */
    function Listed(table: seq<UniversityMerit>): (r: seq<UniversityMerit>)
      reads this
      ensures r == FilterPrograms(SelectUniversities(table, universityId), searchTerm)
      ensures IsSubsequence(r, table)
      ensures Truthy(universityId) ==> forall i :: 0 <= i < |r| ==> r[i].id == universityId.value
    {
      var rows := SelectUniversities(table, universityId);
      var r := FilterPrograms(rows, searchTerm);
      SubsequenceTransitive(r, rows, table);
      r
    }
  }
}
