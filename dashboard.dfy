/**
 * The figures of the dashboard page, computed from the assessment list:
 * the year filter, the number of completed assessments, the count per
 * status, the "needs attention" figure and the average score of each
 * dimension over the assessments that have one.
 */
module Dashboard {
  import opened Wrappers
  import opened Text
  import opened Schema
  import opened Seqs
  import Indicators

  /** The selector value that keeps every year. */
  const ALL := "all"

  /** The years offered by the year selectors: 2026 down to 2017. */
  function YearOptions(): (r: seq<int>)
    ensures |r| == 10
  {
    seq(10, i requires 0 <= i < 10 => 2026 - i)
  }

  /** The options run from 2026 down to 2017 in strictly descending order, one per year. */
  lemma YearOptionsRange()
    ensures YearOptions()[0] == 2026 && YearOptions()[9] == 2017
    ensures forall i, j :: 0 <= i < j < 10 ==> YearOptions()[i] > YearOptions()[j]
    ensures forall y :: y in YearOptions() <==> 2017 <= y <= 2026
  {
    var r := YearOptions();
    forall y | 2017 <= y <= 2026 ensures y in r {
      assert r[2026 - y] == y;
    }
  }

  /** The year selector: "all" keeps every assessment, a year keeps those whose year renders as the selection. */
  function YearFilter(assessments: seq<AssessmentWithVillage>, selectedYear: string): seq<AssessmentWithVillage> {
    if selectedYear == ALL then assessments
    else Filter(assessments, (x: AssessmentWithVillage) => IntToString(x.assessment.year) == selectedYear)
  }

  /** An assessment is kept exactly when "all" is selected or its year renders as the selection. */
  lemma YearFilterMembers(assessments: seq<AssessmentWithVillage>, selectedYear: string, x: AssessmentWithVillage)
    ensures x in YearFilter(assessments, selectedYear) <==>
      x in assessments && (selectedYear == ALL || IntToString(x.assessment.year) == selectedYear)
  {
    if selectedYear != ALL && x in assessments && IntToString(x.assessment.year) == selectedYear {
      var i :| 0 <= i < |assessments| && assessments[i] == x;
    }
  }

  /** "all" is the rendering of no year, so selecting year y keeps exactly the assessments of year y. */
  lemma YearFilterSelectsYear(assessments: seq<AssessmentWithVillage>, y: int, x: AssessmentWithVillage)
    ensures x in YearFilter(assessments, IntToString(y)) <==> x in assessments && x.assessment.year == y
  {
    RenderingHead(y);
    if y >= 0 {
      assert IsDigit(NatToString(y)[0]);
    }
    assert IntToString(y) != ALL;
    YearFilterMembers(assessments, IntToString(y), x);
    if IntToString(x.assessment.year) == IntToString(y) {
      IntToStringInjective(x.assessment.year, y);
    }
  }

  /** An assessment counts as completed when its status is present and not the empty string. */
  predicate HasStatus(x: AssessmentWithVillage) {
    x.assessment.status.Some? && x.assessment.status.value != ""
  }

  /** The "Completed Assessments" card: how many of the shown assessments are completed. */
  function CompletedCount(filtered: seq<AssessmentWithVillage>): nat {
    |Filter(filtered, HasStatus)|
  }

  lemma CompletedCountStep(xs: seq<AssessmentWithVillage>, x: AssessmentWithVillage)
    ensures CompletedCount(xs + [x]) == CompletedCount(xs) + (if HasStatus(x) then 1 else 0)
  {
    FilterAppend(xs, [x], HasStatus);
    assert [x][1..] == [];
  }

  /** The number of assessments whose status is exactly `statusLabel`. */
  function CountWithStatus(xs: seq<AssessmentWithVillage>, statusLabel: string): (n: nat)
    ensures n <= |xs|
  {
    if xs == [] then 0
    else CountWithStatus(xs[..|xs| - 1], statusLabel) + (if xs[|xs| - 1].assessment.status == Some(statusLabel) then 1 else 0)
  }

  /** The five keys of the `statusCounts` record. */
  function LabelSet(): set<string> {
    {Label(Mandiri), Label(Maju), Label(Berkembang), Label(Tertinggal), Label(SangatTertinggal)}
  }

  lemma LabelSetMembers(t: string)
    ensures t in LabelSet() <==> exists s: Status :: Label(s) == t
  {
    if t in LabelSet() {
      if t == Label(Mandiri) { assert Label(Mandiri) == t; }
      else if t == Label(Maju) { assert Label(Maju) == t; }
      else if t == Label(Berkembang) { assert Label(Berkembang) == t; }
      else if t == Label(Tertinggal) { assert Label(Tertinggal) == t; }
      else { assert Label(SangatTertinggal) == t; }
    }
  }

  /**
   * The `statusCounts` loop: every label starts at 0 and counts the
   * assessments with exactly that status; any other status is ignored.
   */
  method CountStatuses(filtered: seq<AssessmentWithVillage>) returns (counts: map<string, nat>)
    ensures counts.Keys == LabelSet()
    ensures forall s: Status :: counts[Label(s)] == CountWithStatus(filtered, Label(s))
  {
    counts := map["Mandiri" := 0, "Maju" := 0, "Berkembang" := 0, "Tertinggal" := 0, "Sangat Tertinggal" := 0];
    for i := 0 to |filtered|
      invariant counts.Keys == LabelSet()
      invariant forall s: Status :: counts[Label(s)] == CountWithStatus(filtered[..i], Label(s))
    {
      ghost var before := counts;
      var status := filtered[i].assessment.status;
      if status.Some? && status.value != "" && status.value in counts {
        counts := counts[status.value := counts[status.value] + 1];
      }
      forall s: Status ensures counts[Label(s)] == CountWithStatus(filtered[..i + 1], Label(s)) {
        CountWithStatusStep(filtered, i, Label(s));
        LabelNonEmpty(s);
        assert Label(s) in before;
      }
    }
    assert filtered[..|filtered|] == filtered;
  }

  lemma CountWithStatusStep(xs: seq<AssessmentWithVillage>, i: nat, statusLabel: string)
    requires i < |xs|
    ensures CountWithStatus(xs[..i + 1], statusLabel) ==
      CountWithStatus(xs[..i], statusLabel) + (if xs[i].assessment.status == Some(statusLabel) then 1 else 0)
  {
    assert xs[..i + 1][..i] == xs[..i];
  }

  lemma LabelNonEmpty(s: Status)
    ensures Label(s) != ""
  {
  }

  function SumOfStatusCounts(xs: seq<AssessmentWithVillage>): nat {
    CountWithStatus(xs, Label(Mandiri)) + CountWithStatus(xs, Label(Maju)) + CountWithStatus(xs, Label(Berkembang))
      + CountWithStatus(xs, Label(Tertinggal)) + CountWithStatus(xs, Label(SangatTertinggal))
  }

  /**
   * An assessment is counted under at most one label, and only when it has a
   * status: the five counts add up to at most the completed count, hence at
   * most the number of filtered assessments.
   */
  lemma {:induction false} StatusCountsBound(xs: seq<AssessmentWithVillage>)
    ensures SumOfStatusCounts(xs) <= CompletedCount(xs) <= |xs|
    decreases |xs|
  {
    if xs != [] {
      var init := xs[..|xs| - 1];
      var x := xs[|xs| - 1];
      assert xs == init + [x];
      StatusCountsBound(init);
      CompletedCountStep(init, x);
    }
  }

  /** The "Needs Attention" card: the two lagging counts added together. */
  function NeedsAttention(counts: map<string, nat>): nat
    requires Label(Tertinggal) in counts && Label(SangatTertinggal) in counts
  {
    counts[Label(Tertinggal)] + counts[Label(SangatTertinggal)]
  }

  /** The "needs attention" figure counts the lagging assessments and is at most the completed count. */
  lemma NeedsAttentionCounts(filtered: seq<AssessmentWithVillage>, counts: map<string, nat>)
    requires counts.Keys == LabelSet()
    requires forall s: Status :: counts[Label(s)] == CountWithStatus(filtered, Label(s))
    ensures NeedsAttention(counts) == CountWithStatus(filtered, "Tertinggal") + CountWithStatus(filtered, "Sangat Tertinggal")
    ensures NeedsAttention(counts) <= CompletedCount(filtered)
  {
    assert counts[Label(Tertinggal)] == CountWithStatus(filtered, Label(Tertinggal));
    assert counts[Label(SangatTertinggal)] == CountWithStatus(filtered, Label(SangatTertinggal));
    StatusCountsBound(filtered);
  }

  /** The "Avg. Status" card shows a fixed label whatever the assessments are. */
  function AverageStatusCard(filtered: seq<AssessmentWithVillage>): (r: string)
    ensures r == Label(Berkembang)
  {
    "Berkembang"
  }

  // ---------------------------------------------------------------------
  // Dimension averages
  // ---------------------------------------------------------------------

  /** An assessment contributes to a dimension's average when it has a score under that name and the score is not 0. */
  predicate Scored(x: AssessmentWithVillage, name: string) {
    x.assessment.dimensionScores.Some? && name in x.assessment.dimensionScores.value
    && x.assessment.dimensionScores.value[name] != 0.0
  }

  function ScoreOf(x: AssessmentWithVillage, name: string): real
    requires Scored(x, name)
  {
    x.assessment.dimensionScores.value[name]
  }

  /** The `total` of one dimension after the loop over `xs`. */
  function ScoredTotal(xs: seq<AssessmentWithVillage>, name: string): real {
    if xs == [] then 0.0
    else
      var x := xs[|xs| - 1];
      ScoredTotal(xs[..|xs| - 1], name) + (if Scored(x, name) then ScoreOf(x, name) else 0.0)
  }

  /** The `count` of one dimension after the loop over `xs`. */
  function ScoredCount(xs: seq<AssessmentWithVillage>, name: string): nat {
    if xs == [] then 0
    else ScoredCount(xs[..|xs| - 1], name) + (if Scored(xs[|xs| - 1], name) then 1 else 0)
  }

  /** The mean of the contributing scores rounded to one decimal, or 0 when none contributes. */
  function AverageScore(xs: seq<AssessmentWithVillage>, name: string): real {
    var count := ScoredCount(xs, name);
    if count > 0 then ToFixed(ScoredTotal(xs, name) / count as real, 1) else 0.0
  }

  /** One point of the radar chart. */
  datatype DimensionAverage = DimensionAverage(subject: string, score: real, fullMark: int)

  /**
   * The radar chart data: for each catalog dimension, the mean of the
   * truthy scores stored under its name, rounded to one decimal, or 0.
   */
  method DimensionAverages(filtered: seq<AssessmentWithVillage>, dims: seq<Indicators.Dimension>)
    returns (r: seq<DimensionAverage>)
    ensures |r| == |dims|
    ensures forall k :: 0 <= k < |dims| ==>
      r[k] == DimensionAverage(dims[k].name, AverageScore(filtered, dims[k].name), 100)
  {
    r := [];
    for k := 0 to |dims|
      invariant |r| == k
      invariant forall j :: 0 <= j < k ==> r[j] == DimensionAverage(dims[j].name, AverageScore(filtered, dims[j].name), 100)
    {
      var name := dims[k].name;
      var total := 0.0;
      var count := 0;
      for i := 0 to |filtered|
        invariant total == ScoredTotal(filtered[..i], name)
        invariant count == ScoredCount(filtered[..i], name)
      {
        assert filtered[..i + 1][..i] == filtered[..i];
        var a := filtered[i];
        if a.assessment.dimensionScores.Some? && name in a.assessment.dimensionScores.value
           && a.assessment.dimensionScores.value[name] != 0.0 {
          total := total + a.assessment.dimensionScores.value[name];
          count := count + 1;
        }
      }
      assert filtered[..|filtered|] == filtered;
      var score := if count > 0 then ToFixed(total / count as real, 1) else 0.0;
      r := r + [DimensionAverage(name, score, 100)];
    }
  }

  /** An assessment whose score for the dimension is missing or 0 changes neither the total nor the count. */
  lemma UnscoredIgnored(xs: seq<AssessmentWithVillage>, x: AssessmentWithVillage, name: string)
    requires !Scored(x, name)
    ensures ScoredTotal(xs + [x], name) == ScoredTotal(xs, name)
    ensures ScoredCount(xs + [x], name) == ScoredCount(xs, name)
    ensures AverageScore(xs + [x], name) == AverageScore(xs, name)
  {
    assert (xs + [x])[..|xs|] == xs;
  }

  /** The count is the number of assessments with a truthy score. */
  lemma {:induction false} ScoredCountZero(xs: seq<AssessmentWithVillage>, name: string)
    ensures ScoredCount(xs, name) == 0 <==> forall x :: x in xs ==> !Scored(x, name)
    decreases |xs|
  {
    if xs != [] {
      var init := xs[..|xs| - 1];
      ScoredCountZero(init, name);
      assert xs == init + [xs[|xs| - 1]];
      assert forall x :: x in xs <==> x in init || x == xs[|xs| - 1];
    }
  }

  /** With no truthy score for the dimension, its average is 0. */
  lemma NoScoresAverageZero(xs: seq<AssessmentWithVillage>, name: string)
    requires forall x :: x in xs ==> !Scored(x, name)
    ensures AverageScore(xs, name) == 0.0
  {
    ScoredCountZero(xs, name);
  }

  /** The total lies between count * lo and count * hi when every truthy score lies in [lo, hi]. */
  lemma {:induction false} ScoredTotalBounds(xs: seq<AssessmentWithVillage>, name: string, lo: real, hi: real)
    requires forall x :: x in xs && Scored(x, name) ==> lo <= ScoreOf(x, name) <= hi
    ensures ScoredCount(xs, name) as real * lo <= ScoredTotal(xs, name) <= ScoredCount(xs, name) as real * hi
    decreases |xs|
  {
    if xs != [] {
      var init := xs[..|xs| - 1];
      var x := xs[|xs| - 1];
      assert x in xs;
      forall y | y in init && Scored(y, name) ensures lo <= ScoreOf(y, name) <= hi {
        assert y in xs;
      }
      ScoredTotalBounds(init, name, lo, hi);
    }
  }

  /**
   * When every stored score of the dimension is 0 or lies in [lo, hi], as
   * the scores of the calculation do with [20, 100], the average is 0 or
   * lies in [lo, hi] too, rounding included.
   */
  lemma AverageWithin(xs: seq<AssessmentWithVillage>, name: string, lo: int, hi: int)
    requires 0 <= lo <= hi
    requires forall x :: x in xs && Scored(x, name) ==> lo as real <= ScoreOf(x, name) <= hi as real
    ensures AverageScore(xs, name) == 0.0 || lo as real <= AverageScore(xs, name) <= hi as real
  {
    var count := ScoredCount(xs, name);
    if count > 0 {
      var total := ScoredTotal(xs, name);
      ScoredTotalBounds(xs, name, lo as real, hi as real);
      DivBetween(total, lo as real, hi as real, count as real);
      ToFixedWithin(total / count as real, lo, hi, 1);
    }
  }
}
