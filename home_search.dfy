/** The home page's university search: a case-insensitive match of the typed
    term against each university's name and short name, the flag that shows
    the results, and the rotating placeholder suggestion. */
module HomeSearch {
  import opened Seqs
  import opened Data
  import opened Strings

  /** The names the search box's placeholder cycles through. */
  const PlaceholderSuggestions: seq<string> := ["FAST", "NUST", "LUMS", "COMSATS", "UET Lahore", "GIKI", "Bahria", "IBA"]

  /** The lower-cased, untrimmed term occurs in the lower-cased name or short name. */
  predicate NameMatches(u: University, term: string)
    ensures term == "" ==> NameMatches(u, term)
    ensures NameMatches(u, term) ==> |term| <= |u.name| || |term| <= |u.shortName|
  {
    Contains(Lower(u.name), Lower(term)) || Contains(Lower(u.shortName), Lower(term))
  }

  /** `filteredUniversities`: everything for a blank term, otherwise the
      universities whose name or short name contains the term, in order. */
  function FilteredUniversities(universities: seq<University>, searchTerm: string): (r: seq<University>)
    ensures IsSubsequence(r, universities)
    ensures IsBlank(searchTerm) ==> r == universities
    ensures !IsBlank(searchTerm) ==>
      && (forall i :: 0 <= i < |r| ==> r[i] in universities && NameMatches(r[i], searchTerm))
      && (forall i :: 0 <= i < |universities| && NameMatches(universities[i], searchTerm) ==> universities[i] in r)
  {
    if Trim(searchTerm) == "" then SubsequenceReflexive(universities); universities
    else Filter(universities, (u: University) => NameMatches(u, searchTerm))
  }

  /** Lower-casing leaves white space alone. */
  lemma LowerKeepsBlank(s: string)
    ensures IsBlank(Lower(s)) <==> IsBlank(s)
  {
    if IsBlank(Lower(s)) {
      forall i | 0 <= i < |s|
        ensures IsWhitespace(s[i])
      {
        assert IsWhitespace(Lower(s)[i]);
      }
    }
  }

  /** The search ignores the case of the term. */
  lemma CaseOfTermIrrelevant(universities: seq<University>, searchTerm: string)
    ensures FilteredUniversities(universities, Lower(searchTerm)) == FilteredUniversities(universities, searchTerm)
  {
    LowerKeepsBlank(searchTerm);
    LowerIsLowerCase(searchTerm);
    var byLower := (u: University) => NameMatches(u, Lower(searchTerm));
    var byTerm := (u: University) => NameMatches(u, searchTerm);
    FilterSameCondition(universities, byLower, byTerm);
  }

  /** The term is not trimmed before matching: padding it with a space can lose a match. */
  lemma UntrimmedTermFixture()
    ensures var giki := University("giki", "GIKI", "GIKI", []);
      FilteredUniversities([giki], "gik") == [giki] && FilteredUniversities([giki], " gik") == []
  {
    var giki := University("giki", "GIKI", "GIKI", []);
    GikMatches(giki);
    PaddedGikMisses(giki);
    assert Filter([giki], (u: University) => NameMatches(u, "gik")) == [giki];
    assert Filter([giki], (u: University) => NameMatches(u, " gik")) == [];
  }

  lemma GikMatches(giki: University)
    requires giki.name == "GIKI" && giki.shortName == "GIKI"
    ensures NameMatches(giki, "gik") && !IsBlank("gik")
  {
    assert Lower("GIKI") == "giki";
    assert Lower("gik") == "gik";
    assert StartsWith("giki", "gik");
    assert !IsWhitespace("gik"[0]);
  }

  lemma PaddedGikMisses(giki: University)
    requires giki.name == "GIKI" && giki.shortName == "GIKI"
    ensures !NameMatches(giki, " gik") && !IsBlank(" gik")
  {
    assert Lower("GIKI") == "giki";
    assert Lower(" gik") == " gik";
    assert "giki"[..4][0] != " gik"[0];
    assert !IsWhitespace(" gik"[1]);
  }

  /** The placeholder index after one tick of the rotation timer. */
  function NextPlaceholder(i: nat): (j: nat)
    ensures j < |PlaceholderSuggestions|
    ensures i + 1 < |PlaceholderSuggestions| ==> j == i + 1
  {
    (i + 1) % |PlaceholderSuggestions|
  }

  /** The index after `n` ticks. */
  function AfterTicks(i: nat, n: nat): nat {
    if n == 0 then i else NextPlaceholder(AfterTicks(i, n - 1))
  }

  /** `n` ticks move an index `n` places round the list. */
  lemma {:induction false} TicksAdd(i: nat, n: nat)
    requires i < |PlaceholderSuggestions|
    ensures AfterTicks(i, n) == (i + n) % |PlaceholderSuggestions|
  {
    if n > 0 {
      TicksAdd(i, n - 1);
      var m := (i + n - 1) % 8;
      var q := (i + n - 1) / 8;
      assert i + n - 1 == 8 * q + m;
      if m == 7 {
        assert i + n == 8 * (q + 1);
      } else {
        assert i + n == 8 * q + (m + 1);
      }
    }
  }

  /** After one tick per suggestion the same suggestion is shown again. */
  lemma FullCycle(i: nat)
    requires i < |PlaceholderSuggestions|
    ensures AfterTicks(i, |PlaceholderSuggestions|) == i
  {
    TicksAdd(i, |PlaceholderSuggestions|);
  }

  /** The home page's search state. */
  class HomePage {
    var searchTerm: string
    var showResults: bool
    var placeholderIndex: nat

    /** The placeholder index stays in range and the results show exactly for a non-blank term. */
    ghost predicate Valid()
      reads this
    {
      placeholderIndex < |PlaceholderSuggestions| && (showResults <==> !IsBlank(searchTerm))
    }

    constructor ()
      ensures Valid()
      ensures searchTerm == "" && !showResults && placeholderIndex == 0
    {
      searchTerm := "";
      showResults := false;
      placeholderIndex := 0;
    }

    /** The suggestion currently shown in the search box. */
    function Placeholder(): (s: string)
      requires Valid()
      reads this
      ensures s in PlaceholderSuggestions
    {
      PlaceholderSuggestions[placeholderIndex]
    }

    /** The universities listed under the search box. */
    function Results(universities: seq<University>): (r: seq<University>)
      reads this
      ensures r == FilteredUniversities(universities, searchTerm)
      ensures IsSubsequence(r, universities)
      ensures !showResults && Valid() ==> r == universities
    {
      FilteredUniversities(universities, searchTerm)
    }

    /** `handleSearch`, followed by the effect that recomputes `showResults`. */
    method HandleSearch(value: string)
      requires Valid()
      modifies this`searchTerm, this`showResults
      ensures Valid()
      ensures searchTerm == value
      ensures showResults <==> !IsBlank(value)
    {
      searchTerm := value;
      showResults := Trim(searchTerm) != "";
    }

    /** `handleClearSearch`: an empty term and no results. */
    method HandleClearSearch()
      requires Valid()
      modifies this`searchTerm, this`showResults
      ensures Valid()
      ensures searchTerm == "" && !showResults
    {
      searchTerm := "";
      showResults := false;
    }

    /** One tick of the placeholder timer. */
    method RotatePlaceholder()
      requires Valid()
      modifies this`placeholderIndex
      ensures Valid()
      ensures placeholderIndex == NextPlaceholder(old(placeholderIndex))
    {
      placeholderIndex := (placeholderIndex + 1) % |PlaceholderSuggestions|;
    }
  }
}
