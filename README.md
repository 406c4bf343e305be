# University admission calculators — a Dafny model

This project models the computational core of a web site for Pakistani
university admissions. The site works out an applicant's admission aggregate
from matriculation, intermediate and entry-test marks, weighted by each
program's formula. It predicts the admission chance from the program's bands.
It also lists the historical merit rows that an aggregate reaches, in the
eligibility table. The remaining parts are the NU entry-test raw-score
calculator, the percentage form of a program page, and two searches: over
the merit table and over the home page's university list.

The model has these modules:

- `Seqs` holds the list operations the components use: `Array.filter`,
  `Array.some` and `Array.find`, plus the order-preserving sub-list relation.
- `Strings` holds ASCII lower-casing, `includes`, `trim` and `split(c)[0]`.
- `JsNumber` models JavaScript's `Number(string)` on decimal strings, with
  `None` standing for `NaN`. It also models `Number(x) || 0` and `Math.round`.
- `Data` holds the record shapes of the program table and the merit table,
  plus a few real rows used as fixtures.
- `Aggregate` covers the aggregate formula, the cap, the prediction and the
  calculator page's state.
- `Eligibility` covers inclusion and status of merit rows and the grouping
  walk, once for the stand-alone table and once for the calculator page's
  per-university table.
- `NuMarks` covers NU section validation, scoring and the dialog's state.
- `PercentageForm` covers range and minimum validation and submission.
- `MeritSearch` covers the merit panel's search and campus tabs.
- `HomeSearch` covers the home page's search and the rotating placeholder.

Numbers are exact reals, not IEEE-754 doubles. `Math.round(x)` is
`floor(x + 0.5)`. Components whose state React updates become classes. Their
handlers are methods, and each method states the component's whole new state.
The pure logic is stated as functions, with lemmas relating each function to
a declarative rule, an inverse or an invariant.

Two places where the code's behaviour is easy to misread are modelled as the
code does it:

- The admission-chance bands are searched in stored order, with no sorting.
  `BandOrderIrrelevant` shows that order matters only where bands overlap.
- The NUST A-Level override is keyed on the literal id `"nust"`.

Some programs store their formula weights as percents (20/30/50, in
`src/data/universities.ts:113-117`) rather than fractions. The page
multiplies percentages by those weights unchanged, so every ordinary mark set
reaches the cap of 100. `Aggregate.PercentWeightsHitTheCap` states this for
one such mark set, and `Aggregate.FractionWeightsStayInRange` states the
in-range result for weights that sum to 1.

## Model

| member | source | states |
|---|---|---|
| Seqs.Filter | src/components/MeritAnalysis.tsx:22-30 | `Array.filter`: the result is an order-preserving sub-list of the input, and an element is in it exactly when it is in the input and passes the test |
| Seqs.FilterWeaker | src/components/EligibilityTable.tsx:19-34 | filtering with a test that every kept element also passes under a second test gives a sub-list of the second filter |
| Seqs.Any | src/components/MeritAnalysis.tsx:25-28 | `Array.some` is true exactly when some element passes the test |
| Seqs.Find | src/components/pages/CalculatorPage.backup.tsx:98-100 | `Array.find` is absent exactly when no element passes; otherwise it is the first element that passes |
| Strings.Lower | src/components/MeritAnalysis.tsx:18 | `toLowerCase` keeps the length and lower-cases each character |
| Strings.Contains | src/components/MeritAnalysis.tsx:24 | `includes` of the empty needle is true, and a needle longer than the string is never included |
| Strings.LowerIsLowerCase | src/components/MeritAnalysis.tsx:17-19 | a lower-cased string has no capital letters, and lower-casing it again changes nothing |
| Strings.ContainsIffOccurs | src/components/MeritAnalysis.tsx:24 | `includes` holds exactly when the needle occurs at some index of the string |
| Strings.ContainsPrefix | src/components/MeritAnalysis.tsx:24-27 | a string that contains a needle contains every prefix of it |
| Strings.Trim | src/components/pages/HomePage.tsx:55 | `trim` gives the empty string exactly for an all-blank input; any other result starts and ends with a non-blank character |
| Strings.PieceBefore | src/components/EligibilityTable.tsx:22 | `split(c)[0]` is a prefix of the input without `c`; it stops at the first `c` when the input contains one, and it is the whole input otherwise |
| Strings.PieceBeforeFirst | src/components/EligibilityTable.tsx:22 | for the index k of the first `c`, `split(c)[0]` is the text before k |
| JsNumber.ParseIgnoresWhitespace | src/components/calculator/NUMarksCalculator.tsx:45-46 | `Number` reads a string the same as the string with its surrounding white space trimmed |
| JsNumber.ParseDigits | src/components/EligibilityTable.tsx:22 | a non-empty digit string reads as its decimal value |
| JsNumber.NatToStringRoundTrip | src/components/calculator/NUMarksCalculator.tsx:45-46 | reading the decimal rendering of a natural number gives that number back |
| JsNumber.NoMinusNotNegative | src/components/EligibilityTable.tsx:22 | a string without `-` never reads as a negative number |
| JsNumber.BadStartNotANumber | src/components/EligibilityTable.tsx:22 | a trimmed string whose first character is not a digit, a point or a sign reads as `NaN` |
| JsNumber.Round | src/components/calculator/NUMarksCalculator.tsx:89 | `Math.round` gives the integer n with n - 0.5 <= x < n + 0.5, the nearest integer with halves rounding up |
| JsNumber.NumberOrZero | src/components/calculator/NUMarksCalculator.tsx:45-46 | `Number(x) \|\| 0` is 0 for a string that reads as `NaN` and for the empty string |
| Data.SelectUniversities | src/components/pages/CalculatorPage.tsx:19-21 | a truthy id keeps, in order, exactly the rows carrying it; a missing or empty id keeps the whole table |
| Data.Truthy | src/components/pages/CalculatorPage.tsx:19 | an id is falsy exactly when it is missing or the empty string |
| Aggregate.Percentage | src/components/pages/CalculatorPage.backup.tsx:127-129 | the percentage times the total equals obtained times 100 |
| Aggregate.PercentageBounds | src/components/pages/CalculatorPage.backup.tsx:127-129 | marks within their total give a percentage in [0, 100] |
| Aggregate.WeightedSum | src/components/pages/CalculatorPage.backup.tsx:142-145 | with weights summing to 1, three equal percentages weigh in as that percentage |
| Aggregate.Uncapped | src/components/pages/CalculatorPage.backup.tsx:131-151 | FSc is the plain weighted sum; A-Level outside the id `"nust"` is 1.1 times it; A-Level at `"nust"` replaces the matriculation weight by 0.25, with no bonus |
| Aggregate.FinalAggregate | src/components/pages/CalculatorPage.backup.tsx:153 | the aggregate never exceeds 100; it equals the uncapped value at or below 100 and is 100 above it |
| Aggregate.FScIgnoresUniversity | src/components/pages/CalculatorPage.backup.tsx:133-153 | an FSc aggregate does not depend on the university |
| Aggregate.AggregateMonotone | src/components/pages/CalculatorPage.backup.tsx:133-153 | with non-negative weights, higher percentages never give a lower final aggregate |
| Aggregate.FractionWeightsStayInRange | src/components/pages/CalculatorPage.backup.tsx:142-145 | non-negative weights summing to 1 keep an FSc aggregate of percentages in [0, 100] |
| Aggregate.PercentWeightsHitTheCap | src/data/universities.ts:113-117 | with the 20/30/50 weights, marks of 60, 60 and 40 give an aggregate of 100, the cap |
| Aggregate.FirstBand | src/components/pages/CalculatorPage.backup.tsx:98-100 | no band is found exactly when no band contains the aggregate; otherwise the result is the first band, in list order, that contains it |
| Aggregate.BandOrderIrrelevant | src/components/pages/CalculatorPage.backup.tsx:98-100 | when at most one distinct band contains the aggregate, any reordering of the bands gives the same band |
| Aggregate.GetPrediction | src/components/pages/CalculatorPage.backup.tsx:93-103 | no program or no `admissionChances` field gives the "no data" comment; otherwise a band is returned exactly when one contains the aggregate, and it is the first such band; failing that, the "outside the range" comment |
| Aggregate.StandardBandsAt80 | src/data/universities.ts:124-130 | 80 falls in the "High" band, in the stored order and in any permutation of it |
| Aggregate.StandardBandsGap | src/data/universities.ts:124-130 | 84.5 lies between the "High" and "Very High" bands and gets the "outside the range" comment |
| Aggregate.CalculatorPage.constructor | src/components/pages/CalculatorPage.backup.tsx:22-46 | mounting finds the first university with the route id; if found, it selects its first program and that program's first test option; otherwise the initial form stays |
| Aggregate.CalculatorPage.HandleProgramChange | src/components/pages/CalculatorPage.backup.tsx:57-70 | a known program id selects the program, resets the test type to its first option, clears the aggregate and returns to the form; otherwise nothing changes |
| Aggregate.CalculatorPage.HandleMarkChange | src/components/pages/CalculatorPage.backup.tsx:77-84 | one part of one mark pair takes the new value; every other field is unchanged |
| Aggregate.CalculatorPage.HandleEducationTypeChange | src/components/pages/CalculatorPage.backup.tsx:85-90 | only the education type changes |
| Aggregate.CalculatorPage.HandleEntryTestTypeChange | src/components/pages/CalculatorPage.backup.tsx:85-90 | only the entry-test type changes |
| Aggregate.CalculatorPage.CalculateAggregate | src/components/pages/CalculatorPage.backup.tsx:122-163 | without a program nothing changes; otherwise the aggregate is the capped formula result of the three percentages, the prediction is the one for that aggregate, and the results section shows |
| Eligibility.RangeLower | src/components/EligibilityTable.tsx:22 | the lower end of a range is `Number` of the text before the first `-`, or of the whole text when it has no `-` |
| Eligibility.RangeLowerOfNumber | src/components/EligibilityTable.tsx:22 | a range written as a natural number, `-` and anything reads as a lower end of that number |
| Eligibility.IsIncluded | src/components/EligibilityTable.tsx:19-34 | a merit string is kept exactly when the aggregate reaches the value it parses to: at least a cutoff or a readable range lower end minus 2, any ratio or rank, and never an unrecognised string or an unreadable lower end |
| Eligibility.EligibilityStatus | src/components/EligibilityTable.tsx:54-70 | the status is the one of the parsed merit; High implies the row is included, and a cutoff that is not included is Low |
| Eligibility.GroupOf | src/components/EligibilityTable.tsx:36-47 | a campus group names its university and campus, holds only included programs of that campus with their status, and is non-empty exactly when some program of the campus is included |
| Eligibility.CampusGroups | src/components/EligibilityTable.tsx:18-48 | one university gives at most one group per campus, each naming that university and non-empty |
| Eligibility.EligibleGroups | src/components/EligibilityTable.tsx:17-48 | every group of the walk over the table is non-empty |
| Eligibility.LowMeansWithinTolerance | src/components/EligibilityTable.tsx:54-70 | an included cutoff with status Low has a readable lower bound that the aggregate is below by at most 2 |
| Eligibility.RanksAlwaysMedium | src/components/EligibilityTable.tsx:25-30 | ratio and rank strings are always included, with status Medium |
| Eligibility.RaisingAggregateMonotone | src/components/EligibilityTable.tsx:19-70 | a higher aggregate never loses an included row and never lowers its status |
| Eligibility.RaisingAggregateKeepsPrograms | src/components/EligibilityTable.tsx:19-34 | a higher aggregate keeps every program a campus already lists, in the same order |
| Eligibility.GetEligiblePrograms | src/components/EligibilityTable.tsx:10-52 | the nested walk returns the groups of the table in university and campus order, one per campus with an included program, with statuses |
| Eligibility.PushCampusGroups | src/components/EligibilityTable.tsx:18-48 | the callback for one university appends, in campus order, one group per campus with an included program |
| Eligibility.GetEligibleProgramsFor | src/components/pages/CalculatorPage.tsx:11-58 | the same walk over the rows the id selects; without an id it is the full table's result, and it is always a sub-list of that result |
| Eligibility.FilteredIsSublist | src/components/pages/CalculatorPage.tsx:19-23 | the groups of the id-restricted table are a sub-list, in order, of the groups of the whole table |
| Eligibility.GroupsComeFromTable | src/components/EligibilityTable.tsx:36-47 | every group is non-empty and is the rated, included programs of some campus of some row |
| Eligibility.EveryReachedCampusListed | src/components/EligibilityTable.tsx:36-47 | every campus with an included program has its group in the output |
| Eligibility.GroupsOfSelectedUniversity | src/components/pages/CalculatorPage.tsx:19-55 | with an id, every group names a university whose row carries that id |
| Eligibility.FastIslamabadAt73 | src/data/meritData.ts:26-35 | at 73 all five FAST Islamabad rows are listed, the first two with status Low and the third with Medium |
| Eligibility.FastIslamabadAt72 | src/data/meritData.ts:26-35 | at 72 the 75 cutoff drops out and the other four rows stay |
| Eligibility.RangeLowerFixture | src/components/EligibilityTable.tsx:22 | the range "80-82" reads as a lower bound of 80 |
| Eligibility.RangeFixture | src/data/meritData.ts:143 | 78 reaches the "80-82" row with status Low; 77.9 does not reach it |
| Eligibility.RankFixtures | src/data/meritData.ts:79 | the "447/5360" and "#324" rows are listed with status Medium at any aggregate |
| Eligibility.UnreadableRangeExcluded | src/components/EligibilityTable.tsx:27-30 | a range whose text starts with a character no number can start with (not a digit, point, sign or white space) has an unreadable lower end and is never listed, at any aggregate |
| Eligibility.LeadingDashReadsAsZero | src/components/EligibilityTable.tsx:27-30 | a leading `-` leaves an empty lower end, which reads as 0, so the row is listed from an aggregate of -2 |
| NuMarks.Cap | src/components/calculator/NUMarksCalculator.tsx:33-38 | each section has a positive question count |
| NuMarks.With | src/components/calculator/NUMarksCalculator.tsx:97-103 | replacing one section changes that section only |
| NuMarks.SetField | src/components/calculator/NUMarksCalculator.tsx:99-102 | replacing one field of a section keeps the other field |
| NuMarks.ReadForm | src/components/calculator/NUMarksCalculator.tsx:45-46 | each section's counts are `Number(x) \|\| 0` of its two fields |
| NuMarks.CheckSection | src/components/calculator/NUMarksCalculator.tsx:48-58 | a section within the rule leaves the error map unchanged; a section outside it adds its attempted or its correct key |
| NuMarks.CheckSectionKey | src/components/calculator/NUMarksCalculator.tsx:48-58 | one section's three checks touch only that section's keys and set each key by the rule |
| NuMarks.ErrorsOfMatchesRule | src/components/calculator/NUMarksCalculator.tsx:43-59 | after checking a list of sections, a key is present exactly when its section was checked and the rule gives it a message, and it holds that message |
| NuMarks.AllSectionsFollowRule | src/components/calculator/NUMarksCalculator.tsx:40-63 | after checking all four sections, a key is present exactly when the rule gives its section a message, and it holds that message |
| NuMarks.ValidationErrors | src/components/calculator/NUMarksCalculator.tsx:40-63 | every key of the error map is present exactly when the rule gives a message and holds exactly the rule's message: the attempted-range message, or "cannot exceed" over the correct-range message |
| NuMarks.ValidationPassesIff | src/components/calculator/NUMarksCalculator.tsx:40-63 | validation passes exactly when every section has `0 <= correct <= attempted <= cap` |
| NuMarks.RawScore | src/components/calculator/NUMarksCalculator.tsx:68-84 | the raw total is the sum of the four section scores |
| NuMarks.SectionScore | src/components/calculator/NUMarksCalculator.tsx:68-84 | a section scores its weight (0.33 for English, 1 otherwise) per correct answer less a quarter of it per wrong answer, and at most the weight per correct answer when the counts are consistent |
| NuMarks.Score | src/components/calculator/NUMarksCalculator.tsx:86-89 | the stored score is never negative, is a whole number of hundredths, and lies within half a hundredth of the raw total floored at 0 |
| NuMarks.SectionScoreBound | src/components/calculator/NUMarksCalculator.tsx:70-84 | a validated section scores at most its question count, and English at most 0.33 per question |
| NuMarks.ValidatedScoreBound | src/components/calculator/NUMarksCalculator.tsx:65-90 | for validated inputs the raw total and the stored score are at most 99.9 |
| NuMarks.AllWrongScoresZero | src/components/calculator/NUMarksCalculator.tsx:68-89 | with no correct answers and no negative counts the stored score is 0 |
| NuMarks.ReadsBack | src/components/calculator/NUMarksCalculator.tsx:45-46 | `Number(x) \|\| 0` of a rendered natural number is that number |
| NuMarks.ReadSampleForm | src/components/calculator/NUMarksCalculator.tsx:45-46 | a sample form reads back as its counts, with empty sections as 0 |
| NuMarks.SampleScores | src/components/calculator/NUMarksCalculator.tsx:68-89 | 30 of 40 Advanced Maths scores 27.5 and 15 of 20 English scores 4.5375; the form validates and stores 32.04 |
| NuMarks.MoreCorrectThanAttempted | src/components/calculator/NUMarksCalculator.tsx:48-58 | 15 correct of 10 attempted in Advanced Maths gets the correct-range message for 10 and no attempted-range message, whatever the other sections hold |
| NuMarks.ReadsSection | src/components/calculator/NUMarksCalculator.tsx:45-46 | a section whose fields are the renderings of two naturals reads as those naturals |
| NuMarks.NuMarksCalculator.constructor | src/components/calculator/NUMarksCalculator.tsx:23-31 | the dialog starts with every field empty, no result and no errors |
| NuMarks.NuMarksCalculator.ValidateInputs | src/components/calculator/NUMarksCalculator.tsx:40-63 | the error map is rebuilt as the rule's map for the form read as numbers, and the result is true exactly when that map is empty |
| NuMarks.NuMarksCalculator.CalculateMarks | src/components/calculator/NUMarksCalculator.tsx:65-90 | errors are the validation map; on failure the result stays absent; on success it is the rounded, floored score, which lies in [0, 99.9] |
| NuMarks.NuMarksCalculator.HandleInputChange | src/components/calculator/NUMarksCalculator.tsx:92-109 | only the edited field of the edited section changes, and the result is cleared |
| NuMarks.NuMarksCalculator.ResetForm | src/components/calculator/NUMarksCalculator.tsx:111-120 | every field is empty, with no result and no errors |
| PercentageForm.ExpectedErrors | src/components/calculator/CalculatorForm.tsx:19-48 | a field has an error exactly when its value is below the minimum or outside [0, 100] |
| PercentageForm.FieldError | src/components/calculator/CalculatorForm.tsx:22-44 | a field has no error exactly when its value is acceptable; the minimum message exactly when it is below the minimum; the range message exactly when it is outside [0, 100] and not below the minimum |
| PercentageForm.PassesIff | src/components/calculator/CalculatorForm.tsx:19-48 | validation passes exactly when every value is `NaN` or lies in [0, 100] and at or above its minimum |
| PercentageForm.BelowMinimumWins | src/components/calculator/CalculatorForm.tsx:34-44 | a value below its minimum reports the minimum, even when it is also out of range |
| PercentageForm.NotANumberPasses | src/components/calculator/CalculatorForm.tsx:22-44 | a `NaN` value never carries an error |
| PercentageForm.InitialValuesAccepted | src/components/calculator/CalculatorForm.tsx:14-16 | the initial values, the minimums themselves, pass when the minimums lie in [0, 100] |
| PercentageForm.SequentialChecksMatchRule | src/components/calculator/CalculatorForm.tsx:22-44 | the six checks in written order, each overwriting earlier ones, give each field the error the rule assigns |
| PercentageForm.CalculatorForm.constructor | src/components/calculator/CalculatorForm.tsx:14-17 | the three inputs start at the program's minimum criteria, with no errors |
| PercentageForm.CalculatorForm.SetValue | src/components/calculator/CalculatorForm.tsx:70 | an input's change stores `Number(value)` in that field, and the other fields are unchanged |
| PercentageForm.CalculatorForm.ValidateInputs | src/components/calculator/CalculatorForm.tsx:19-48 | the error map becomes the rule's map for the current values, and the result is true exactly when it is empty |
| PercentageForm.CalculatorForm.HandleCalculate | src/components/calculator/CalculatorForm.tsx:50-56 | the current values are submitted exactly when validation passes, and submitted values are acceptable |
| MeritSearch.FilterPrograms | src/components/MeritAnalysis.tsx:21-31 | the result is a sub-list of whole universities, holding exactly those that match the term |
| MeritSearch.ProgramMatches | src/components/MeritAnalysis.tsx:27 | a program matches exactly when the term occurs in its lower-cased name |
| MeritSearch.UniversityMatches | src/components/MeritAnalysis.tsx:21-31 | the empty term matches; a non-empty term matches exactly when the university's name, some campus name or some program name contains it |
| MeritSearch.EmptyTermKeepsAll | src/components/MeritAnalysis.tsx:23 | the empty term keeps every university |
| MeritSearch.LongerTermNarrows | src/components/MeritAnalysis.tsx:21-31 | the result for a longer term is a sub-list of the result for any prefix of it |
| MeritSearch.VisibleCampuses | src/components/MeritAnalysis.tsx:95 | a campus tab shows, in order, exactly the campuses with that name |
| MeritSearch.AllTabShowsEverything | src/components/MeritAnalysis.tsx:95 | the "all" tab shows every campus, in order |
| MeritSearch.MeritAnalysis.constructor | src/components/MeritAnalysis.tsx:9-11 | the panel starts with an empty term and the "all" tab |
| MeritSearch.MeritAnalysis.HandleSearch | src/components/MeritAnalysis.tsx:17-19 | the stored term is the typed value lower-cased, so it is always lower case |
| MeritSearch.MeritAnalysis.SelectCampus | src/components/MeritAnalysis.tsx:79 | a tab click selects that campus |
| MeritSearch.MeritAnalysis.Listed | src/components/MeritAnalysis.tsx:13-15 | the listed universities are the search filter applied to the rows the id selects; they are a sub-list of the table and, with an id, all carry it |
| HomeSearch.FilteredUniversities | src/components/pages/HomePage.tsx:55-60 | a blank term lists every university; otherwise exactly those whose name or short name contains the term, ignoring case, in order |
| HomeSearch.NameMatches | src/components/pages/HomePage.tsx:57-60 | the empty term matches every university, and a matching term is no longer than the name or the short name |
| HomeSearch.CaseOfTermIrrelevant | src/components/pages/HomePage.tsx:55-60 | lower-casing the term does not change the list |
| HomeSearch.UntrimmedTermFixture | src/components/pages/HomePage.tsx:57-60 | "gik" finds GIKI but " gik" does not, because the term is not trimmed before matching |
| HomeSearch.NextPlaceholder | src/components/pages/HomePage.tsx:20 | one tick stays within the suggestion list and moves to the next suggestion before the end |
| HomeSearch.TicksAdd | src/components/pages/HomePage.tsx:17-24 | n ticks move the index n places round the list |
| HomeSearch.FullCycle | src/components/pages/HomePage.tsx:12-20 | after one tick per suggestion the same suggestion shows again |
| HomeSearch.HomePage.constructor | src/components/pages/HomePage.tsx:7-15 | the page starts with an empty term, no results and the first suggestion |
| HomeSearch.HomePage.Placeholder | src/components/pages/HomePage.tsx:12-15 | the placeholder is always one of the suggestions |
| HomeSearch.HomePage.Results | src/components/pages/HomePage.tsx:55-60 | the listed universities are the filter of the table by the current term: a sub-list of it, and the whole table while no results are shown |
| HomeSearch.HomePage.HandleSearch | src/components/pages/HomePage.tsx:26-47 | typing stores the term, and results show exactly when it is not blank |
| HomeSearch.HomePage.HandleClearSearch | src/components/pages/HomePage.tsx:49-53 | clearing empties the term and hides the results |
| HomeSearch.HomePage.RotatePlaceholder | src/components/pages/HomePage.tsx:19-21 | one timer tick advances the placeholder index by one, wrapping round |

## Left out

- Rendering: the JSX, colours, animations, icons, the SEO head and the test-pattern indicators are not modelled.
- Arithmetic: JavaScript numbers are IEEE-754 doubles, and the model uses exact reals. Rounding error in the weighted sums and in `Math.round(x * 100) / 100` is not captured. The sample score 32.04 holds for the reals.
- Aggregate.Percentage: the page divides by the total without a guard. A zero total gives `NaN` or `Infinity` in JavaScript, and the model excludes it by a precondition instead of modelling those values.
- Aggregate.CalculatorPage.CalculateAggregate: requires positive totals, for the same reason.
- Aggregate.CalculatorPage.constructor: requires a found university to have at least one program, because the page reads `programs[0].testOptions` and would throw otherwise.
- Aggregate.CalculatorPage.HandleMarkChange: takes the new value as a number. Which input control converts the typed text is not modelled.
- JsNumber: covers decimal strings with an optional sign, digits, a point and surrounding ASCII white space. Exponents, `0x`/`0b`/`0o` prefixes, `Infinity`, underscores and non-ASCII white space are not modelled; such strings read as `NaN` here.
- Strings: lower-casing and white space are ASCII only. Unicode case mapping and Unicode white space are not modelled.
- Message texts: messages are datatypes holding their numbers. String templating of those numbers is not modelled.
- Data: only a few rows of the program and merit tables appear, as fixtures. University metadata such as locations, websites and fees is not modelled.
- HomeSearch.HomePage.HandleSearch: applies the effect that recomputes `showResults` at once. React runs it after the render, and that timing is not modelled.
- HomeSearch.HomePage.RotatePlaceholder: is one tick of the three-second timer. The timer, its clean-up, the Ctrl+K shortcut and input focus are not modelled.
- The SAT-information toggle, the test-pattern panel and the section scrolling of the calculator page are presentation state only, and are not modelled.
- PercentageForm: a field holding `NaN` passes validation, as in the code, because every comparison with `NaN` is false. The model keeps that behaviour.
