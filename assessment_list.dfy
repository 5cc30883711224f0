/**
 * The assessment list page: the search box, the grouping of the found
 * assessments by year, the order of the year groups and the guard of the
 * "create assessment" dialog.
 */
module AssessmentList {
  import opened Wrappers
  import opened Text
  import opened Schema
  import opened Seqs
  import Dashboard

  // ---------------------------------------------------------------------
  // Search
  // ---------------------------------------------------------------------

  /**
   * The search condition: the lower-cased query occurs in the lower-cased
   * village name, district or status; a missing village or status never matches.
   */
  predicate Matches(x: AssessmentWithVillage, query: string) {
    var q := ToLower(query);
    (x.village.Some? && Contains(ToLower(x.village.value.name), q)) ||
    (x.village.Some? && Contains(ToLower(x.village.value.district), q)) ||
    (x.assessment.status.Some? && Contains(ToLower(x.assessment.status.value), q))
  }

  /** The assessments the search box keeps, in list order. */
  function Search(assessments: seq<AssessmentWithVillage>, query: string): seq<AssessmentWithVillage> {
    Filter(assessments, (x: AssessmentWithVillage) => Matches(x, query))
  }

  /** The search keeps exactly the matching assessments. */
  lemma SearchMembers(assessments: seq<AssessmentWithVillage>, query: string, x: AssessmentWithVillage)
    ensures x in Search(assessments, query) <==> x in assessments && Matches(x, query)
  {
    if x in assessments && Matches(x, query) {
      var i :| 0 <= i < |assessments| && assessments[i] == x;
    }
  }

  /** An empty query keeps every assessment that has its village, as all rows of the list endpoint do. */
  lemma EmptyQueryKeepsAll(assessments: seq<AssessmentWithVillage>)
    requires forall x :: x in assessments ==> x.village.Some?
    ensures Search(assessments, "") == assessments
  {
    forall x | x in assessments ensures Matches(x, "") {
      ContainsEmpty(ToLower(x.village.value.name));
    }
    FilterAllTrue(assessments, (x: AssessmentWithVillage) => Matches(x, ""));
  }

  /** The search ignores the case of the query. */
  lemma SearchIgnoresCase(assessments: seq<AssessmentWithVillage>, query: string)
    ensures Search(assessments, query) == Search(assessments, ToLower(query))
  {
    ToLowerIdempotent(query);
    FilterCongruent(assessments, (x: AssessmentWithVillage) => Matches(x, query),
                    (x: AssessmentWithVillage) => Matches(x, ToLower(query)));
  }

  // ---------------------------------------------------------------------
  // Grouping by year
  // ---------------------------------------------------------------------

  /** The assessments of one year, in list order. */
  function OfYear(xs: seq<AssessmentWithVillage>, year: int): seq<AssessmentWithVillage> {
    if xs == [] then []
    else OfYear(xs[..|xs| - 1], year) + (if xs[|xs| - 1].assessment.year == year then [xs[|xs| - 1]] else [])
  }

  function YearsOf(xs: seq<AssessmentWithVillage>): set<int> {
    set x | x in xs :: x.assessment.year
  }

  lemma OfYearStep(xs: seq<AssessmentWithVillage>, x: AssessmentWithVillage, year: int)
    ensures OfYear(xs + [x], year) == OfYear(xs, year) + (if x.assessment.year == year then [x] else [])
  {
    assert (xs + [x])[..|xs|] == xs;
  }

  /** A year's group holds exactly the assessments of that year. */
  lemma {:induction false} OfYearMembers(xs: seq<AssessmentWithVillage>, year: int, x: AssessmentWithVillage)
    ensures x in OfYear(xs, year) <==> x in xs && x.assessment.year == year
    decreases |xs|
  {
    if xs != [] {
      var init := xs[..|xs| - 1];
      assert xs == init + [xs[|xs| - 1]];
      OfYearMembers(init, year, x);
    }
  }

  lemma {:induction false} OfAbsentYear(xs: seq<AssessmentWithVillage>, year: int)
    requires year !in YearsOf(xs)
    ensures OfYear(xs, year) == []
    decreases |xs|
  {
    if xs != [] {
      var init := xs[..|xs| - 1];
      assert xs[|xs| - 1] in xs;
      assert year !in YearsOf(init) by {
        forall x | x in init ensures x.assessment.year != year {
          assert x in xs;
        }
      }
      OfAbsentYear(init, year);
    }
  }

  /**
   * The `reduce` that pushes each assessment onto the array of its year:
   * one group per year that occurs, holding that year's assessments in order.
   */
  method GroupByYear(filtered: seq<AssessmentWithVillage>) returns (groups: map<int, seq<AssessmentWithVillage>>)
    ensures groups.Keys == YearsOf(filtered)
    ensures forall y :: y in groups ==> groups[y] == OfYear(filtered, y)
  {
    groups := map[];
    for i := 0 to |filtered|
      invariant GroupedBy(filtered[..i], groups)
    {
      var curr := filtered[i];
      var year := curr.assessment.year;
      ghost var before := groups;
      if year !in groups {
        groups := groups[year := []];
      }
      groups := groups[year := groups[year] + [curr]];
      PushStep(filtered[..i], curr, before, groups);
      assert filtered[..i + 1] == filtered[..i] + [curr];
    }
    assert filtered[..|filtered|] == filtered;
  }

  /** One group per year of `xs`, each holding that year's assessments in order. */
  predicate GroupedBy(xs: seq<AssessmentWithVillage>, groups: map<int, seq<AssessmentWithVillage>>) {
    groups.Keys == YearsOf(xs) && forall y :: y in groups ==> groups[y] == OfYear(xs, y)
  }

  /** Pushing one assessment onto the group of its year keeps the groups equal to the year filters. */
  lemma PushStep(xs: seq<AssessmentWithVillage>, curr: AssessmentWithVillage,
                 before: map<int, seq<AssessmentWithVillage>>, after: map<int, seq<AssessmentWithVillage>>)
    requires GroupedBy(xs, before)
    requires after == before[curr.assessment.year := (if curr.assessment.year in before then before[curr.assessment.year] else []) + [curr]]
    ensures GroupedBy(xs + [curr], after)
  {
    var year := curr.assessment.year;
    if year !in before {
      OfAbsentYear(xs, year);
    }
    forall y | y in after ensures after[y] == OfYear(xs + [curr], y) {
      OfYearStep(xs, curr, y);
    }
    assert YearsOf(xs + [curr]) == YearsOf(xs) + {year} by {
      forall x | x in xs + [curr] ensures x in xs || x == curr {
      }
    }
  }

  /** Every group is non-empty and holds only assessments of its own year. */
  lemma GroupsAreYears(filtered: seq<AssessmentWithVillage>, y: int)
    requires y in YearsOf(filtered)
    ensures OfYear(filtered, y) != []
    ensures forall x :: x in OfYear(filtered, y) ==> x in filtered && x.assessment.year == y
  {
    var x :| x in filtered && x.assessment.year == y;
    OfYearMembers(filtered, y, x);
    forall z | z in OfYear(filtered, y) ensures z in filtered && z.assessment.year == y {
      OfYearMembers(filtered, y, z);
    }
  }

  // ---------------------------------------------------------------------
  // Year order
  // ---------------------------------------------------------------------

  /** The largest element of a non-empty set of years. */
  function MaxOf(s: set<int>): (m: int)
    requires s != {}
    ensures m in s && forall y :: y in s ==> y <= m
  {
    MaxExists(s);
    var m :| m in s && forall y :: y in s ==> y <= m;
    m
  }

  lemma MaxExists(s: set<int>)
    requires s != {}
    ensures exists m :: m in s && forall y :: y in s ==> y <= m
  {
    var m := MaxWitness(s);
  }

  lemma MaxWitness(s: set<int>) returns (m: int)
    requires s != {}
    ensures m in s && forall y :: y in s ==> y <= m
    decreases |s|
  {
    NonEmptyHasMember(s);
    var x :| x in s;
    if s - {x} == {} {
      m := x;
      assert s == {x};
    } else {
      var r := MaxWitness(s - {x});
      m := if x > r then x else r;
      forall y | y in s ensures y <= m {
        if y != x { assert y in s - {x}; }
      }
    }
  }

  lemma NonEmptyHasMember(s: set<int>)
    requires s != {}
    ensures exists x :: x in s
  {
    if forall x :: x !in s {
      EmptyIfNoMember(s);
      assert false;
    }
  }

  lemma EmptyIfNoMember(s: set<int>)
    requires forall x :: x !in s
    ensures s == {}
  {
    assert forall x :: x in s <==> false;
  }

  /** The elements of a set of years in strictly descending order. */
  function SortedDesc(s: set<int>): (r: seq<int>)
    ensures |r| == |s|
    ensures forall y :: y in r <==> y in s
    ensures forall i, j :: 0 <= i < j < |r| ==> r[i] > r[j]
    decreases |s|
  {
    if s == {} then []
    else
      var m := MaxOf(s);
      var rest := SortedDesc(s - {m});
      PrependMax(s, m, rest);
      [m] + rest
  }

  /** Putting the largest year in front of the others, sorted, sorts the whole set. */
  lemma PrependMax(s: set<int>, m: int, rest: seq<int>)
    requires m in s && forall y :: y in s ==> y <= m
    requires |rest| == |s - {m}|
    requires forall y :: y in rest <==> y in s - {m}
    requires forall i, j :: 0 <= i < j < |rest| ==> rest[i] > rest[j]
    ensures |[m] + rest| == |s|
    ensures forall y :: y in [m] + rest <==> y in s
    ensures forall i, j :: 0 <= i < j < |[m] + rest| ==> ([m] + rest)[i] > ([m] + rest)[j]
  {
    forall j | 0 <= j < |rest| ensures rest[j] < m {
      assert rest[j] in rest;
    }
  }

  /** `sortedYears`: the years that have a group, newest first, each once. */
  function SortedYears(groups: map<int, seq<AssessmentWithVillage>>): seq<int> {
    SortedDesc(groups.Keys)
  }

  // ---------------------------------------------------------------------
  // Group sizes
  // ---------------------------------------------------------------------

  /** The sizes of the groups of `years`, added up. */
  function GroupSizes(xs: seq<AssessmentWithVillage>, years: seq<int>): nat {
    if years == [] then 0 else |OfYear(xs, years[0])| + GroupSizes(xs, years[1..])
  }

  function Occurrences(years: seq<int>, y: int): nat {
    if years == [] then 0 else (if years[0] == y then 1 else 0) + Occurrences(years[1..], y)
  }

  lemma {:induction false} GroupSizesStep(xs: seq<AssessmentWithVillage>, x: AssessmentWithVillage, years: seq<int>)
    ensures GroupSizes(xs + [x], years) == GroupSizes(xs, years) + Occurrences(years, x.assessment.year)
    decreases |years|
  {
    if years != [] {
      OfYearStep(xs, x, years[0]);
      GroupSizesStep(xs, x, years[1..]);
    }
  }

  lemma {:induction false} OccursOnce(years: seq<int>, y: int)
    requires forall i, j :: 0 <= i < j < |years| ==> years[i] != years[j]
    requires y in years
    ensures Occurrences(years, y) == 1
    decreases |years|
  {
    if years[0] == y {
      NotOccurring(years[1..], y);
    } else {
      OccursOnce(years[1..], y);
    }
  }

  lemma {:induction false} NotOccurring(years: seq<int>, y: int)
    requires y !in years
    ensures Occurrences(years, y) == 0
    decreases |years|
  {
    if years != [] {
      NotOccurring(years[1..], y);
    }
  }

  /** Over distinct years that cover every year of the list, the group sizes add up to the list's length. */
  lemma {:induction false} GroupSizesSum(xs: seq<AssessmentWithVillage>, years: seq<int>)
    requires forall i, j :: 0 <= i < j < |years| ==> years[i] != years[j]
    requires forall x :: x in xs ==> x.assessment.year in years
    ensures GroupSizes(xs, years) == |xs|
    decreases |xs|
  {
    if xs == [] {
      EmptyGroups(years);
    } else {
      var init := xs[..|xs| - 1];
      var x := xs[|xs| - 1];
      assert xs == init + [x];
      forall y | y in init ensures y.assessment.year in years {
        assert y in xs;
      }
      GroupSizesSum(init, years);
      GroupSizesStep(init, x, years);
      OccursOnce(years, x.assessment.year);
    }
  }

  lemma {:induction false} EmptyGroups(years: seq<int>)
    ensures GroupSizes([], years) == 0
    decreases |years|
  {
    if years != [] {
      EmptyGroups(years[1..]);
    }
  }

  /**
   * The page shows each found assessment exactly once: the groups listed in
   * `sortedYears` order hold as many assessments as the search found.
   */
  lemma GroupedCountMatches(filtered: seq<AssessmentWithVillage>, groups: map<int, seq<AssessmentWithVillage>>)
    requires groups.Keys == YearsOf(filtered)
    requires forall y :: y in groups ==> groups[y] == OfYear(filtered, y)
    ensures forall y :: y in SortedYears(groups) ==> groups[y] == OfYear(filtered, y)
    ensures GroupSizes(filtered, SortedYears(groups)) == |filtered|
  {
    var years := SortedYears(groups);
    forall x | x in filtered ensures x.assessment.year in years {
      assert x.assessment.year in YearsOf(filtered);
    }
    GroupSizesSum(filtered, years);
  }

  // ---------------------------------------------------------------------
  // Creating an assessment
  // ---------------------------------------------------------------------

  /** The body of the create request: `parseInt` of both selections (`None` for NaN). */
  datatype CreateInput = CreateInput(villageId: Option<int>, year: Option<int>)

  /** `handleCreate`: nothing is sent unless both a village and a year are selected. */
  function CreateRequest(selectedVillage: string, selectedYear: string): (r: Option<CreateInput>)
    ensures r.None? <==> selectedVillage == "" || selectedYear == ""
  {
    if selectedVillage == "" || selectedYear == "" then None
    else Some(CreateInput(ParseInt(selectedVillage), ParseInt(selectedYear)))
  }

  /**
   * The create dialog offers the same ten years as the dashboard, 2026 down to
   * 2017; each one, chosen in its select, reaches the create request as that year.
   */
  lemma OfferedYearsCreate(villageId: nat, i: nat)
    requires i < |Dashboard.YearOptions()|
    ensures var year := Dashboard.YearOptions()[i];
      2017 <= year <= 2026 &&
      CreateRequest(NatToString(villageId), IntToString(year)) == Some(CreateInput(Some(villageId), Some(year)))
  {
    Dashboard.YearOptionsRange();
    var year := Dashboard.YearOptions()[i];
    assert year in Dashboard.YearOptions();
    CreateFromSelections(villageId, year);
  }

  /** The selects hold `String(id)` and `String(year)`, which parse back to the chosen village and year. */
  lemma CreateFromSelections(villageId: nat, year: nat)
    ensures CreateRequest(NatToString(villageId), NatToString(year)) == Some(CreateInput(Some(villageId), Some(year)))
  {
    NatToStringRoundTrip(villageId);
    NatToStringRoundTrip(year);
  }
}
